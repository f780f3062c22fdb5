/** When the result of a mutant in a previous report is reused, and when that is right. */
module Reuse {
  import opened Options
  import opened Planner

  /** Tests and mutants are compared by key, because their ids differ between reports. */
  type TestKey = string
  type MutantKey = string

  datatype DiffAction = Added | Removed | Same

  /** A mutant of the previous report that was relocated; only tests that still exist unchanged are left in
      `coveredBy` and `killedBy`, and in `ran`, the tests that were run for it.  The report does not name
      those: for a static mutant they are all tests, whether or not they cover it. */
  datatype OldMutant = OldMutant(status: MutantStatus, coveredBy: set<TestKey>, killedBy: set<TestKey>,
                                 ran: set<TestKey>)
  {
    /** A killing test counts as a covering test. */
    function Row(): set<TestKey> {
      coveredBy + killedBy
    }
  }

  /** What is known about the tests of this run. */
  datatype CurrentTests = CurrentTests(all: set<TestKey>, hasCoverage: bool, ignoreStatic: bool)

  /** What coverage analysis says of one current mutant. */
  datatype MutantCover = MutantCover(covering: set<TestKey>, isStatic: bool)

  /** `diffTestCoverage` */
  method DiffTestCoverage(prior: OldMutant, tests: CurrentTests, now: MutantCover) returns (result: map<TestKey,
                          DiffAction>)
    ensures result.Keys == now.covering + prior.Row()
    ensures forall k <- now.covering :: result[k] == if k in prior.Row() then Same else Added
    ensures forall k <- prior.Row() - now.covering :: result[k] == if now.isStatic && k in tests.all then Same else Removed
  {
    var covering := DiffCovering(prior.Row(), now.covering);
    result := DiffRow(prior.Row(), covering, tests, now);
  }

  /** The tests that cover the mutant now. */
  method DiffCovering(row: set<TestKey>, covering: set<TestKey>) returns (result: map<TestKey, DiffAction>)
    ensures result.Keys == covering
    ensures forall k <- covering :: result[k] == if k in row then Same else Added
  {
    result := map[];
    var todo := covering;
    while todo != {}
      invariant todo <= covering && result.Keys == covering - todo
      invariant forall k <- result :: result[k] == if k in row then Same else Added
      decreases |todo|
    {
      var key :| key in todo;
      todo := todo - {key};
      result := result[key := if key in row then Same else Added];
    }
  }

  /** The tests of the previous run that are not among them. */
  method DiffRow(row: set<TestKey>, before: map<TestKey, DiffAction>, tests: CurrentTests, now: MutantCover)
    returns (result: map<TestKey, DiffAction>)
    ensures result == WithRow(before, row, tests, now)
  {
    hide WithRow;
    result := before;
    var todo := row;
    ghost var done: set<TestKey> := {};
    WithNothing(before, tests, now);
    while todo != {}
      invariant done + todo == row && result == WithRow(before, done, tests, now)
      decreases |todo|
    {
      var key :| key in todo;
      todo := todo - {key};
      WithMore(before, done, key, tests, now);
      done := done + {key};
      if key !in result {
        result := result[key := RowAction(tests, now, key)];
      }
    }
    assert done == row;
  }

  function WithRow(before: map<TestKey, DiffAction>, row: set<TestKey>, tests: CurrentTests,
                   now: MutantCover): map<TestKey, DiffAction> {
    map k <- before.Keys + row :: if k in before then before[k] else RowAction(tests, now, k)
  }

  lemma WithNothing(before: map<TestKey, DiffAction>, tests: CurrentTests, now: MutantCover)
    ensures WithRow(before, {}, tests, now) == before
  {
  }

  lemma WithMore(before: map<TestKey, DiffAction>, row: set<TestKey>, key: TestKey, tests: CurrentTests,
                 now: MutantCover)
    ensures var w := WithRow(before, row, tests, now);
            WithRow(before, row + {key}, tests, now) == if key in w then w else w[key := RowAction(tests, now, key)]
  {
    var w := WithRow(before, row, tests, now);
    if key in w {
      assert before.Keys + (row + {key}) == before.Keys + row;
    } else {
      assert before.Keys + (row + {key}) == (before.Keys + row) + {key};
    }
  }

  function RowAction(tests: CurrentTests, now: MutantCover, key: TestKey): DiffAction {
    if now.isStatic && key in tests.all then Same else Removed
  }

  /** The unchanged tests that a reused kill can rest on. */
  function StillThere(prior: OldMutant, tests: CurrentTests, now: MutantCover): set<TestKey> {
    prior.Row() * (now.covering + if now.isStatic then tests.all else {})
  }

  predicate CanBeReused(prior: OldMutant, tests: CurrentTests, now: MutantCover) {
    !tests.hasCoverage ||
    match prior.status
    case Ignored => false
    case Killed => prior.killedBy * StillThere(prior, tests, now) != {}
    case _ => now.covering <= prior.Row()
  }

  /** Exactly which results are reused.  Without coverage all are; with coverage those of ignored mutants never
      are, a kill if a killing test covers the mutant, or is still there for a static one, and every other
      result if each covering test was in the old row. */
  lemma ReusedIff(prior: OldMutant, tests: CurrentTests, now: MutantCover)
    ensures !tests.hasCoverage ==> CanBeReused(prior, tests, now)
    ensures tests.hasCoverage && prior.status == Ignored ==> !CanBeReused(prior, tests, now)
    ensures tests.hasCoverage && prior.status == Killed ==>
              (CanBeReused(prior, tests, now) <==>
                exists t <- prior.killedBy :: t in now.covering || (now.isStatic && t in tests.all))
    ensures tests.hasCoverage && prior.status != Ignored && prior.status != Killed ==>
              (CanBeReused(prior, tests, now) <==>
                forall t <- now.covering :: t in prior.coveredBy || t in prior.killedBy)
  {
    var kept := prior.killedBy * StillThere(prior, tests, now);
    forall t | t in prior.killedBy && (t in now.covering || (now.isStatic && t in tests.all))
      ensures t in kept
    {
    }
    if kept != {} {
      var t :| t in kept;
    }
  }

  /** With coverage, nothing but an ignored mutant is run again when its tests are unchanged. */
  lemma UnchangedIsReused(prior: OldMutant, tests: CurrentTests, now: MutantCover)
    requires tests.hasCoverage && prior.coveredBy == now.covering && prior.killedBy <= tests.all
    requires prior.status == Killed ==> prior.killedBy != {} && (now.isStatic || prior.killedBy <= prior.coveredBy)
    ensures CanBeReused(prior, tests, now) <==> prior.status != Ignored
  {
    ReusedIff(prior, tests, now);
    if prior.status == Killed {
      var t :| t in prior.killedBy;
    }
  }

  /** `mutantCanBeReused` */
  method MutantCanBeReused(prior: OldMutant, tests: CurrentTests, now: MutantCover) returns (reuse: bool)
    ensures !tests.hasCoverage ==> reuse
    ensures tests.hasCoverage && prior.status == Ignored ==> !reuse
    ensures tests.hasCoverage && prior.status == Killed ==>
              (reuse <==> exists t <- prior.killedBy :: t in now.covering || (now.isStatic && t in tests.all))
    ensures tests.hasCoverage && prior.status != Ignored && prior.status != Killed ==>
              (reuse <==> forall t <- now.covering :: t in prior.coveredBy || t in prior.killedBy)
    ensures reuse == CanBeReused(prior, tests, now)
  {
    ReusedIff(prior, tests, now);
    if !tests.hasCoverage {
      return true;
    }
    if prior.status == Ignored {
      return false;
    }
    var testsDiff := DiffTestCoverage(prior, tests, now);
    if prior.status == Killed {
      var todo := prior.killedBy;
      while todo != {}
        invariant todo <= prior.killedBy
        invariant forall k <- prior.killedBy - todo :: k !in StillThere(prior, tests, now)
        decreases |todo|
      {
        var killingTest :| killingTest in todo;
        if testsDiff[killingTest] == Same {
          assert killingTest in prior.killedBy * StillThere(prior, tests, now);
          return true;
        }
        todo := todo - {killingTest};
      }
      return false;
    }
    var todo := testsDiff.Keys;
    while todo != {}
      invariant todo <= testsDiff.Keys
      invariant forall k <- testsDiff.Keys - todo :: testsDiff[k] != Added
      decreases |todo|
    {
      var key :| key in todo;
      if testsDiff[key] == Added {
        return false;
      }
      todo := todo - {key};
    }
    return true;
  }

  // ----- agreement with a fresh run

  /** The tests that a fresh run would run for the mutant, and None when it would ignore it. */
  function FreshTests(tests: CurrentTests, now: MutantCover): Option<set<TestKey>> {
    if !tests.hasCoverage then Some(tests.all)
    else if !now.isStatic || (tests.ignoreStatic && now.covering != {}) then Some(now.covering)
    else if tests.ignoreStatic then None
    else Some(tests.all)
  }

  /** `kills` says which tests kill the mutant; it is the same now as in the previous run.  The result
      is true to it when every killing test it names kills, and when no test that was run kills a
      survivor. */
  ghost predicate TrueReport(prior: OldMutant, kills: TestKey -> bool) {
    match prior.status
    case Killed => forall t <- prior.killedBy :: kills(t)
    case _ => forall t <- prior.ran :: !kills(t)
  }

  ghost predicate FreshKills(tests: CurrentTests, now: MutantCover, kills: TestKey -> bool) {
    FreshTests(tests, now).Some? && exists t <- FreshTests(tests, now).value :: kills(t)
  }

  /** A reused result agrees with a fresh run whatever the outcomes are that the report is true to. */
  ghost predicate AlwaysAgrees(prior: OldMutant, tests: CurrentTests, now: MutantCover) {
    forall kills: TestKey -> bool :: TrueReport(prior, kills) ==>
      (FreshKills(tests, now, kills) <==> prior.status == Killed)
  }

  lemma InstanceAgrees(prior: OldMutant, tests: CurrentTests, now: MutantCover, kills: TestKey -> bool)
    requires AlwaysAgrees(prior, tests, now) && TrueReport(prior, kills)
    ensures FreshKills(tests, now, kills) <==> prior.status == Killed
  {
  }

  /** A kill agrees with every fresh run if and only if a test that killed is run again. */
  lemma KilledAgreesIff(prior: OldMutant, tests: CurrentTests, now: MutantCover)
    requires prior.status == Killed
    ensures AlwaysAgrees(prior, tests, now) <==>
            FreshTests(tests, now).Some? && prior.killedBy * FreshTests(tests, now).value != {}
  {
    if AlwaysAgrees(prior, tests, now) {
      var kills := (t: TestKey) => t in prior.killedBy;
      InstanceAgrees(prior, tests, now, kills);
      var t :| t in FreshTests(tests, now).value && kills(t);
      assert t in prior.killedBy * FreshTests(tests, now).value;
    }
    if t :| FreshTests(tests, now).Some? && t in prior.killedBy * FreshTests(tests, now).value {
      forall kills: TestKey -> bool | TrueReport(prior, kills)
        ensures FreshKills(tests, now, kills)
      {
        assert kills(t);
      }
    }
  }

  /** A survivor agrees with every fresh run if and only if that runs no test that was not run before. */
  lemma SurvivedAgreesIff(prior: OldMutant, tests: CurrentTests, now: MutantCover)
    requires prior.status != Killed
    ensures AlwaysAgrees(prior, tests, now) <==>
            FreshTests(tests, now).Some? ==> FreshTests(tests, now).value <= prior.ran
  {
    if AlwaysAgrees(prior, tests, now) {
      var kills := (t: TestKey) => t !in prior.ran;
      InstanceAgrees(prior, tests, now, kills);
      if FreshTests(tests, now).Some? {
        forall t | t in FreshTests(tests, now).value
          ensures t in prior.ran
        {
          assert !kills(t);
        }
      }
    }
  }

  /** With coverage, a reused kill is right if and only if it is not that of a static mutant under
      `ignoreStatic`, or a test that killed covers the mutant while it runs: otherwise no such test is run
      again, or the mutant is ignored. */
  lemma ReusedKillIsRightIff(prior: OldMutant, tests: CurrentTests, now: MutantCover)
    requires CanBeReused(prior, tests, now) && tests.hasCoverage && prior.status == Killed
    requires now.covering <= tests.all
    ensures AlwaysAgrees(prior, tests, now) <==>
            now.isStatic && tests.ignoreStatic ==> prior.killedBy * now.covering != {}
  {
    KilledAgreesIff(prior, tests, now);
    var t :| t in prior.killedBy * StillThere(prior, tests, now);
    if !(now.isStatic && tests.ignoreStatic) {
      assert t in prior.killedBy * FreshTests(tests, now).value;
    }
  }

  /** With coverage, a reused survivor is right if and only if it is not a static mutant for which a fresh
      run runs all tests, or all of them were run before. */
  lemma ReusedSurvivorIsRightIff(prior: OldMutant, tests: CurrentTests, now: MutantCover)
    requires CanBeReused(prior, tests, now) && tests.hasCoverage && prior.status != Killed
    requires prior.Row() <= prior.ran
    ensures AlwaysAgrees(prior, tests, now) <==>
            now.isStatic && !tests.ignoreStatic ==> tests.all <= prior.ran
  {
    SurvivedAgreesIff(prior, tests, now);
  }

  /** The previous run ran the tests that its planner selected, of which the unchanged ones are in
      `before.all`, and reported those that cover the mutant while they run. */
  predicate RanAsPlanned(prior: OldMutant, before: CurrentTests, was: MutantCover) {
    FreshTests(before, was) == Some(prior.ran) && prior.coveredBy == was.covering && was.covering <= before.all
  }

  /** In terms of the previous run: the result of a static mutant that survived is right, without
      `ignoreStatic`, if and only if the mutant was static then as well and no test is new, or the tests
      that covered it then are all tests there are now. */
  lemma StaticSurvivorIsRightIff(prior: OldMutant, before: CurrentTests, was: MutantCover, tests: CurrentTests,
                                 now: MutantCover)
    requires CanBeReused(prior, tests, now) && prior.status != Killed && prior.killedBy == {}
    requires tests.hasCoverage && before.hasCoverage && !tests.ignoreStatic && now.isStatic
    requires RanAsPlanned(prior, before, was)
    ensures AlwaysAgrees(prior, tests, now) <==>
            tests.all <= if was.isStatic && !before.ignoreStatic then before.all else was.covering
  {
    ReusedSurvivorIsRightIff(prior, tests, now);
  }

  /** A static mutant that survived is reused although a test that the previous run did not have, and that
      does not cover the mutant while it runs, would kill it in a fresh run. */
  lemma StaleStaticSurvivor()
    ensures var before, was := CurrentTests({"old"}, true, false), MutantCover({}, true);
            var prior := OldMutant(Survived, {}, {}, {"old"});
            var tests := CurrentTests({"old", "new"}, true, false);
            && RanAsPlanned(prior, before, was)
            && CanBeReused(prior, tests, was) && !AlwaysAgrees(prior, tests, was)
  {
    var before, was := CurrentTests({"old"}, true, false), MutantCover({}, true);
    var prior := OldMutant(Survived, {}, {}, {"old"});
    var tests := CurrentTests({"old", "new"}, true, false);
    StaticSurvivorIsRightIff(prior, before, was, tests, was);
    assert "new" in tests.all && "new" !in before.all;
  }

  /** A kill of a static mutant is reused under `ignoreStatic` although a fresh run would ignore it. */
  lemma StaleStaticKill()
    ensures var prior := OldMutant(Killed, {}, {"t"}, {"t"});
            var tests := CurrentTests({"t"}, true, true);
            var now := MutantCover({}, true);
            CanBeReused(prior, tests, now) && !AlwaysAgrees(prior, tests, now)
  {
    var prior := OldMutant(Killed, {}, {"t"}, {"t"});
    var tests := CurrentTests({"t"}, true, true);
    KilledAgreesIff(prior, tests, MutantCover({}, true));
    assert "t" in prior.killedBy * StillThere(prior, tests, MutantCover({}, true));
  }

  // ----- the incremental diff over all mutants

  datatype Mutant = Mutant(id: nat, key: MutantKey, status: Option<MutantStatus>, now: MutantCover)

  datatype DiffedMutant = Current(id: nat, status: Option<MutantStatus>) | Remembered(key: MutantKey, oldStatus: MutantStatus)

  function Reused(m: Mutant, report: map<MutantKey, OldMutant>, tests: CurrentTests, force: bool): bool {
    m.status.None? && !force && m.key in report && CanBeReused(report[m.key], tests, m.now)
  }

  function Diffed(m: Mutant, report: map<MutantKey, OldMutant>, tests: CurrentTests, force: bool): DiffedMutant {
    Current(m.id, if Reused(m, report, tests, force) then Some(report[m.key].status) else m.status)
  }

  function Keys(ms: seq<Mutant>): set<MutantKey> {
    set m <- ms :: m.key
  }

  method DiffCurrent(current: seq<Mutant>, report: map<MutantKey, OldMutant>, tests: CurrentTests, force: bool)
    returns (mutants: seq<DiffedMutant>, currentKeys: set<MutantKey>)
    ensures currentKeys == Keys(current) && |mutants| == |current|
    ensures forall i :: 0 <= i < |current| ==> mutants[i] == Diffed(current[i], report, tests, force)
  {
    mutants, currentKeys := [], {};
    for i := 0 to |current|
      invariant |mutants| == i && currentKeys == Keys(current[..i])
      invariant forall j :: 0 <= j < i ==> mutants[j] == Diffed(current[j], report, tests, force)
    {
      var mutant := current[i];
      assert current[..i + 1] == current[..i] + [mutant];
      currentKeys := currentKeys + {mutant.key};
      var status := mutant.status;
      if mutant.status.None? && !force && mutant.key in report {
        var reuse := MutantCanBeReused(report[mutant.key], tests, mutant.now);
        if reuse {
          status := Some(report[mutant.key].status);
        }
      }
      mutants := mutants + [Current(mutant.id, status)];
    }
    assert current[..|current|] == current;
  }

  /** The old results that are neither among the current mutants nor in the mutated scope, once each. */
  method Remember(report: map<MutantKey, OldMutant>, skip: set<MutantKey>) returns (mutants: seq<DiffedMutant>)
    ensures |mutants| == |report.Keys - skip|
    ensures forall k <- report.Keys - skip :: Remembered(k, report[k].status) in mutants
  {
    mutants := [];
    var todo := report.Keys - skip;
    while todo != {}
      invariant todo <= report.Keys - skip
      invariant |mutants| + |todo| == |report.Keys - skip|
      invariant forall k <- report.Keys - skip - todo :: Remembered(k, report[k].status) in mutants
      decreases |todo|
    {
      var key :| key in todo;
      todo := todo - {key};
      mutants := mutants + [Remembered(key, report[key].status)];
    }
  }

  /** `diff`: every current mutant is kept in place, with its old status when that is reused, which is never
      done when it has a status already or all mutants are forced to be run; every old mutant that is neither
      among the current ones nor in the mutated scope is remembered once. */
  method Diff(current: seq<Mutant>, report: map<MutantKey, OldMutant>, tests: CurrentTests, inScope: set<MutantKey>,
              force: bool)
    returns (mutants: seq<DiffedMutant>)
    ensures var gone := report.Keys - (Keys(current) + inScope);
            && |mutants| == |current| + |gone|
            && (forall i :: 0 <= i < |current| ==> mutants[i] == Diffed(current[i], report, tests, force))
            && forall k <- gone :: Remembered(k, report[k].status) in mutants[|current|..]
    ensures forall i | 0 <= i < |current| :: mutants[i].Current? && mutants[i].id == current[i].id
    ensures forall i | 0 <= i < |current| && (force || current[i].status.Some? || current[i].key !in report) ::
              mutants[i].status == current[i].status
    ensures forall i | 0 <= i < |current| && !force && current[i].status.None? && current[i].key in report ::
              mutants[i].status == if CanBeReused(report[current[i].key], tests, current[i].now)
                                   then Some(report[current[i].key].status) else None
  {
    var mapped, currentKeys := DiffCurrent(current, report, tests, force);
    var remembered := Remember(report, currentKeys + inScope);
    mutants := mapped + remembered;
    assert mutants[|current|..] == remembered;
  }
}
