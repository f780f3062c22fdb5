/** Mutation coverage: the counters that instrumented code updates, and what the planner reads off them. */
module Coverage {
  import opened Options
  import opened Semantics

  type MutantId = nat
  type TestId = string

  type CoverageData = map<MutantId, nat>

  datatype MutantCoverage = MutantCoverage(whileLoading: CoverageData, perTest: map<TestId, CoverageData>)

  function CountIn(data: CoverageData, m: MutantId): nat {
    if m in data then data[m] else 0
  }

  /** How often a run counted the mutant. */
  function Occurrences(log: seq<Event>, m: MutantId): nat {
    multiset(log)[Covered(m)]
  }

  function Slot(c: MutantCoverage, test: Option<TestId>): CoverageData {
    match test
    case None => c.whileLoading
    case Some(t) => if t in c.perTest then c.perTest[t] else map[]
  }

  function Counter(c: MutantCoverage, test: Option<TestId>, m: MutantId): nat {
    CountIn(Slot(c, test), m)
  }

  /** The test in whose slot counting goes: a test without a name counts as no test. */
  function Counting(test: Option<TestId>): Option<TestId> {
    if test == Some("") then None else test
  }

  /** The namespace object that the runtime header shares between all instrumented files. */
  class RuntimeHeader {
    var activeMutant: Option<MutantId>
    var currentTestId: Option<TestId>
    var mutantCoverage: MutantCoverage
    var hitCount: Option<nat>
    var hitLimit: nat

    constructor (active: Option<MutantId>, hits: Option<nat>, limit: nat)
      ensures activeMutant == active && currentTestId == None && hitCount == hits && hitLimit == limit
      ensures mutantCoverage == MutantCoverage(map[], map[])
    {
      activeMutant, currentTestId, hitCount, hitLimit := active, None, hits, limit;
      mutantCoverage := MutantCoverage(map[], map[]);
    }

    /** Adds one to the counter of every given mutant, in the slot of the current test, or in the
        static slot when no test runs. */
    method Count(ids: seq<MutantId>)
      modifies this`mutantCoverage
      ensures forall m :: CountIn(Slot(mutantCoverage, Counting(currentTestId)), m)
                          == CountIn(Slot(old(mutantCoverage), Counting(currentTestId)), m) + multiset(ids)[m]
      ensures forall t :: t != Counting(currentTestId) ==> Slot(mutantCoverage, t) == Slot(old(mutantCoverage), t)
    {
      var c: CoverageData := Slot(mutantCoverage, Counting(currentTestId));
      ghost var before := c;
      for i := 0 to |ids|
        invariant forall m :: CountIn(c, m) == CountIn(before, m) + multiset(ids[..i])[m]
      {
        assert ids[..i + 1] == ids[..i] + [ids[i]];
        c := c[ids[i] := CountIn(c, ids[i]) + 1];
      }
      assert ids[..|ids|] == ids;
      mutantCoverage := match Counting(currentTestId)
        case None => mutantCoverage.(whileLoading := c)
        case Some(t) => mutantCoverage.(perTest := mutantCoverage.perTest[t := c]);
    }

    /** What the cover calls of a run do to the counters. */
    method Replay(log: seq<Event>)
      modifies this`mutantCoverage
      ensures forall t, m :: Counter(mutantCoverage, t, m) ==
                Counter(old(mutantCoverage), t, m) + if t == Counting(currentTestId) then Occurrences(log, m) else 0
    {
      ghost var slot, before := Counting(currentTestId), mutantCoverage;
      assert log[..0] == [] && forall m :: Occurrences(log[..0], m) == 0;
      for i := 0 to |log|
        invariant forall t, m :: Counter(mutantCoverage, t, m) ==
                    Counter(before, t, m) + if t == slot then Occurrences(log[..i], m) else 0
      {
        assert log[..i + 1] == log[..i] + [log[i]];
        if log[i].Covered? {
          ghost var last := mutantCoverage;
          Count([log[i].id]);
          forall t, m
            ensures Counter(mutantCoverage, t, m) ==
                    Counter(last, t, m) + if t == slot && log[i] == Covered(m) then 1 else 0
          {
            assert multiset([log[i].id])[m] == if log[i].id == m then 1 else 0;
          }
        }
      }
      assert log[..|log|] == log;
    }

    /** Whether the mutant is active.  With a hit count, every positive answer counts as a hit, and
        the hit that exceeds the limit throws instead. */
    method IsMutantActive(id: MutantId) returns (active: bool, limitReached: bool)
      modifies this`hitCount
      ensures activeMutant != Some(id) ==> !active && !limitReached && hitCount == old(hitCount)
      ensures activeMutant == Some(id) ==>
                && hitCount == (if old(hitCount).None? then None else Some(old(hitCount).value + 1))
                && (limitReached <==> hitCount.Some? && hitCount.value > hitLimit)
                && active == !limitReached
    {
      active, limitReached := false, false;
      if activeMutant == Some(id) {
        if hitCount.Some? {
          hitCount := Some(hitCount.value + 1);
          limitReached := hitCount.value > hitLimit;
        }
        active := !limitReached;
      }
    }
  }

  // ----- TestCoverage

  datatype TestResult = TestResult(id: TestId, timeSpentMs: nat)

  /** Last one wins, as in a map that is filled from a list. */
  function TestsById(tests: seq<TestResult>): map<TestId, TestResult> {
    if tests == [] then map[] else TestsById(tests[..|tests| - 1])[tests[|tests| - 1].id := tests[|tests| - 1]]
  }

  lemma {:induction false} TestsByIdKeepsIds(tests: seq<TestResult>)
    ensures forall t <- TestsById(tests) :: TestsById(tests)[t].id == t && TestsById(tests)[t] in tests
    ensures forall t <- tests :: t.id in TestsById(tests)
  {
    if tests != [] {
      TestsByIdKeepsIds(tests[..|tests| - 1]);
      assert tests == tests[..|tests| - 1] + [tests[|tests| - 1]];
    }
  }

  /** The tests that cover a mutant according to the per-test counters. */
  ghost predicate CoversMutant(coverage: MutantCoverage, byId: map<TestId, TestResult>, m: MutantId, t: TestResult) {
    t.id in byId && byId[t.id] == t && t.id in coverage.perTest && CountIn(coverage.perTest[t.id], m) > 0
  }

  /** How often the entries of a set of tests hit a mutant. */
  ghost function AnyTest(perTest: map<TestId, CoverageData>): (t: TestId)
    requires |perTest| > 0
    ensures t in perTest
  {
    var t :| t in perTest; t
  }

  ghost function Hits(perTest: map<TestId, CoverageData>, m: MutantId): nat {
    if |perTest| == 0 then 0
    else
      var t := AnyTest(perTest);
      CountIn(perTest[t], m) + Hits(perTest - {t}, m)
  }

  lemma {:induction false} HitsWithout(perTest: map<TestId, CoverageData>, t: TestId, m: MutantId)
    requires t in perTest
    ensures Hits(perTest, m) == CountIn(perTest[t], m) + Hits(perTest - {t}, m)
    decreases |perTest|
  {
    var u := AnyTest(perTest);
    if u != t {
      assert t in perTest - {u} && u in perTest - {t};
      HitsWithout(perTest - {u}, t, m);
      HitsWithout(perTest - {t}, u, m);
      assert perTest - {u} - {t} == perTest - {t} - {u};
    }
  }

  ghost predicate IsListed(byMutant: map<MutantId, set<TestResult>>, m: MutantId, t: TestResult) {
    m in byMutant && t in byMutant[m]
  }

  class TestCoverage {
    var testsByMutantId: map<MutantId, set<TestResult>>
    var testsById: map<TestId, TestResult>
    var staticCoverage: Option<CoverageData>
    var hitsByMutantId: map<MutantId, nat>

    function ForMutant(m: MutantId): set<TestResult>
      reads this`testsByMutantId
    {
      if m in testsByMutantId then testsByMutantId[m] else {}
    }

    predicate HasCoverage()
      reads this`staticCoverage
    {
      staticCoverage.Some?
    }

    predicate HasStaticCoverage(m: MutantId)
      reads this`staticCoverage
    {
      staticCoverage.Some? && CountIn(staticCoverage.value, m) > 0
    }

    /** `TestCoverage.from`: a mutant is covered by exactly the known tests that counted it, and its
        hits are the counts of all tests and of loading. */
    constructor From(tests: seq<TestResult>, coverage: Option<MutantCoverage>)
      ensures testsById == TestsById(tests)
      ensures staticCoverage == if coverage.Some? then Some(coverage.value.whileLoading) else None
      ensures forall m, t :: t in ForMutant(m) <==>
                coverage.Some? && CoversMutant(coverage.value, TestsById(tests), m, t)
      ensures coverage.Some? ==> forall m ::
                CountIn(hitsByMutantId, m)
                == CountIn(coverage.value.whileLoading, m) + Hits(coverage.value.perTest, m)
    {
      var byId: map<TestId, TestResult> := map[];
      for i := 0 to |tests|
        invariant byId == TestsById(tests[..i])
      {
        assert tests[..i + 1][..i] == tests[..i];
        byId := byId[tests[i].id := tests[i]];
      }
      assert tests[..|tests|] == tests;
      TestsByIdKeepsIds(tests);
      testsById := byId;
      var byMutant: map<MutantId, set<TestResult>> := map[];
      var hits: map<MutantId, nat> := map[];
      if coverage.Some? {
        byMutant := CoveringTests(coverage.value, byId);
        assert forall m, t :: IsListed(byMutant, m, t) <==> CoversMutant(coverage.value, byId, m, t);
        hits := TotalHits(coverage.value);
      }
      testsByMutantId, hitsByMutantId := byMutant, hits;
      staticCoverage := if coverage.Some? then Some(coverage.value.whileLoading) else None;
    }

    static method CoveringTests(coverage: MutantCoverage, byId: map<TestId, TestResult>)
      returns (byMutant: map<MutantId, set<TestResult>>)
      requires forall t <- byId :: byId[t].id == t
      ensures forall m, t :: IsListed(byMutant, m, t) <==> CoversMutant(coverage, byId, m, t)
    {
      byMutant := map[];
      var todo := coverage.perTest.Keys;
      while todo != {}
        invariant todo <= coverage.perTest.Keys
        invariant forall m, t :: IsListed(byMutant, m, t) <==> CoversMutant(coverage, byId, m, t) && t.id !in todo
        decreases |todo|
      {
        var testId :| testId in todo;
        if testId in byId {
          byMutant := ListTest(byMutant, byId[testId], coverage.perTest[testId]);
        }
        todo := todo - {testId};
      }
    }

    static method ListTest(before: map<MutantId, set<TestResult>>, test: TestResult, data: CoverageData)
      returns (byMutant: map<MutantId, set<TestResult>>)
      ensures forall m, t :: IsListed(byMutant, m, t) <==> IsListed(before, m, t) || (t == test && CountIn(data, m) > 0)
    {
      byMutant := before;
      var ids := data.Keys;
      while ids != {}
        invariant ids <= data.Keys
        invariant forall m, t :: IsListed(byMutant, m, t) <==>
                    IsListed(before, m, t) || (t == test && CountIn(data, m) > 0 && m !in ids)
        decreases |ids|
      {
        var m :| m in ids;
        ghost var listed := byMutant;
        if data[m] > 0 {
          byMutant := byMutant[m := (if m in byMutant then byMutant[m] else {}) + {test}];
        }
        assert forall n, t :: IsListed(byMutant, n, t) <==>
                 IsListed(listed, n, t) || (n == m && t == test && CountIn(data, m) > 0);
        ids := ids - {m};
      }
    }

    static method TotalHits(coverage: MutantCoverage) returns (hits: map<MutantId, nat>)
      ensures forall m :: CountIn(hits, m) == CountIn(coverage.whileLoading, m) + Hits(coverage.perTest, m)
    {
      hits := AddCounts(map[], coverage.whileLoading);
      var todo := coverage.perTest;
      while |todo| > 0
        invariant forall m :: CountIn(hits, m) + Hits(todo, m) == CountIn(coverage.whileLoading, m) + Hits(coverage.perTest, m)
        decreases |todo|
      {
        var testId :| testId in todo;
        forall m {
          HitsWithout(todo, testId, m);
        }
        hits := AddCounts(hits, todo[testId]);
        todo := todo - {testId};
      }
    }

    static method AddCounts(hits: map<MutantId, nat>, data: CoverageData) returns (sum: map<MutantId, nat>)
      ensures forall m :: CountIn(sum, m) == CountIn(hits, m) + CountIn(data, m)
    {
      sum := hits;
      var ids := data.Keys;
      while ids != {}
        invariant ids <= data.Keys
        invariant forall m :: CountIn(sum, m) == CountIn(hits, m) + (if m in ids then 0 else CountIn(data, m))
        decreases |ids|
      {
        var m :| m in ids;
        ids := ids - {m};
        sum := sum[m := CountIn(sum, m) + data[m]];
      }
    }

    method AddTest(test: TestResult)
      modifies this`testsById
      ensures testsById == old(testsById)[test.id := test]
    {
      testsById := testsById[test.id := test];
    }

    /** Adds the known ones of the given tests to those that cover the mutant. */
    method AddCoverage(m: MutantId, testIds: seq<TestId>)
      modifies this`testsByMutantId
      ensures m in testsByMutantId
      ensures forall n :: n != m ==> ForMutant(n) == old(ForMutant(n))
      ensures forall t :: t in ForMutant(m) <==>
                t in old(ForMutant(m)) || exists id <- testIds :: id in testsById && testsById[id] == t
    {
      var tests := ForMutant(m);
      for i := 0 to |testIds|
        invariant forall t :: t in tests <==>
                    t in old(ForMutant(m)) || exists id <- testIds[..i] :: id in testsById && testsById[id] == t
      {
        assert testIds[..i + 1] == testIds[..i] + [testIds[i]];
        if testIds[i] in testsById {
          tests := tests + {testsById[testIds[i]]};
        }
      }
      assert testIds[..|testIds|] == testIds;
      testsByMutantId := testsByMutantId[m := tests];
    }
  }
}
