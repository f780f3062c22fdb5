/** Which tests are run for a mutant, and why running only those loses nothing. */
module Planner {
  import opened Ast
  import opened Options
  import opened Semantics
  import opened Placers
  import opened Instrumenter
  import opened Schemata
  import opened Coverage

  const HIT_LIMIT_FACTOR: nat := 100

  datatype MutantStatus =
    | Killed
    | Survived
    | NoCoverage
    | CompileError
    | RuntimeError
    | Timeout
    | Pending
    | Ignored

  datatype PlanOptions = PlanOptions(ignoreStatic: bool, timeoutMS: real, timeoutFactor: real, timeOverheadMS: real)

  datatype Activation = Runtime | Static

  datatype RunOptions = RunOptions(
    testFilter: Option<set<TestId>>,
    mutantActivation: Activation,
    timeout: real,
    hitLimit: Option<nat>,
    reloadEnvironment: bool)

  datatype Plan =
    | EarlyResult(id: MutantId, status: MutantStatus, isStatic: bool)
    | Run(id: MutantId, netTime: nat, runOptions: RunOptions)

  function TestIds(tests: set<TestResult>): set<TestId> {
    set t <- tests :: t.id
  }

  ghost function AnyResult(tests: set<TestResult>): (t: TestResult)
    requires tests != {}
    ensures t in tests
  {
    var t :| t in tests; t
  }

  ghost function TotalTime(tests: set<TestResult>): nat {
    if tests == {} then 0
    else
      var t := AnyResult(tests);
      t.timeSpentMs + TotalTime(tests - {t})
  }

  lemma {:induction false} TotalTimeWithout(tests: set<TestResult>, t: TestResult)
    requires t in tests
    ensures TotalTime(tests) == t.timeSpentMs + TotalTime(tests - {t})
    decreases |tests|
  {
    var u := AnyResult(tests);
    if u != t {
      assert t in tests - {u} && u in tests - {t};
      TotalTimeWithout(tests - {u}, t);
      TotalTimeWithout(tests - {t}, u);
      assert tests - {u} - {t} == tests - {t} - {u};
    }
  }

  /** What a total is: nothing for no tests, and the time of each test on top of that of the others. */
  lemma {:induction false} TotalTimeIsSum(tests: set<TestResult>, t: TestResult)
    ensures TotalTime({}) == 0
    ensures t !in tests ==> TotalTime(tests + {t}) == TotalTime(tests) + t.timeSpentMs
    ensures t in tests ==> TotalTime(tests) >= t.timeSpentMs
  {
    if t in tests {
      TotalTimeWithout(tests, t);
    } else {
      TotalTimeWithout(tests + {t}, t);
      assert tests + {t} - {t} == tests;
    }
  }

  method CalculateTotalTime(tests: set<TestResult>) returns (total: nat)
    ensures total == TotalTime(tests)
  {
    total := 0;
    var todo := tests;
    while todo != {}
      invariant total + TotalTime(todo) == TotalTime(tests)
      decreases |todo|
    {
      var t :| t in todo;
      TotalTimeWithout(todo, t);
      total := total + t.timeSpentMs;
      todo := todo - {t};
    }
  }

  class MutantTestPlanner {
    const options: PlanOptions
    const testCoverage: TestCoverage
    const timeSpentAllTests: nat

    constructor (options: PlanOptions, testCoverage: TestCoverage)
      ensures this.options == options && this.testCoverage == testCoverage
      ensures timeSpentAllTests == TotalTime(testCoverage.testsById.Values)
    {
      var total := CalculateTotalTime(testCoverage.testsById.Values);
      this.options, this.testCoverage, this.timeSpentAllTests := options, testCoverage, total;
    }

    /** The tests that a plan for a mutant without a result selects; None selects all tests. */
    ghost function Selected(m: MutantId): Option<set<TestId>>
      reads testCoverage
    {
      if !testCoverage.HasCoverage() then None
      else if !testCoverage.HasStaticCoverage(m) then Some(TestIds(testCoverage.ForMutant(m)))
      else if options.ignoreStatic && testCoverage.ForMutant(m) != {} then Some(TestIds(testCoverage.ForMutant(m)))
      else None
    }

    /** The time that the tests that a plan runs took in the dry run. */
    ghost function TimeOf(m: MutantId): nat
      reads testCoverage
    {
      if Selected(m).Some? then TotalTime(testCoverage.ForMutant(m)) else timeSpentAllTests
    }

    /** A mutant with a result keeps it; a static mutant that no test covers is ignored on request;
        every other mutant is run, at run time exactly when tests are selected for it, and with an
        environment that is reloaded otherwise.  It gets the time that these tests took, times the factor,
        and the constants; and a hundred times the hits of the dry run. */
    method PlanMutant(m: MutantId, status: Option<MutantStatus>) returns (plan: Plan)
      ensures plan.id == m
      ensures plan.EarlyResult? ==> plan.isStatic == testCoverage.HasStaticCoverage(m)
      ensures status.Some? ==> plan.EarlyResult? && plan.status == status.value
      ensures status.None? ==>
                (plan.EarlyResult? <==>
                   && testCoverage.HasCoverage() && testCoverage.HasStaticCoverage(m)
                   && options.ignoreStatic && testCoverage.ForMutant(m) == {})
      ensures status.None? && plan.EarlyResult? ==> plan.status == Ignored
      ensures plan.Run? ==>
                && plan.runOptions.testFilter == Selected(m)
                && plan.runOptions.mutantActivation == (if Selected(m).Some? then Runtime else Static)
                && plan.runOptions.reloadEnvironment == Selected(m).None?
      ensures plan.Run? ==>
                && plan.netTime == TimeOf(m)
                && plan.runOptions.timeout
                   == options.timeoutMS + options.timeOverheadMS + options.timeoutFactor * plan.netTime as real
      ensures plan.Run? && options.timeoutFactor >= 1.0 && options.timeoutMS + options.timeOverheadMS >= 0.0 ==>
                plan.runOptions.timeout >= plan.netTime as real
      ensures plan.Run? && m in testCoverage.hitsByMutantId ==>
                plan.runOptions.hitLimit == Some(100 * testCoverage.hitsByMutantId[m])
      ensures plan.Run? && m !in testCoverage.hitsByMutantId ==> plan.runOptions.hitLimit == None
    {
      var isStatic := testCoverage.HasStaticCoverage(m);
      if status.Some? {
        plan := EarlyResult(m, status.value, isStatic);
      } else if testCoverage.HasCoverage() {
        var tests := testCoverage.ForMutant(m);
        if !isStatic || (options.ignoreStatic && tests != {}) {
          var netTime := CalculateTotalTime(tests);
          plan := CreateMutantRunPlan(m, netTime, Some(TestIds(tests)));
        } else if options.ignoreStatic {
          plan := EarlyResult(m, Ignored, isStatic);
        } else {
          plan := CreateMutantRunPlan(m, timeSpentAllTests, None);
        }
      } else {
        plan := CreateMutantRunPlan(m, timeSpentAllTests, None);
      }
    }

    method CreateMutantRunPlan(m: MutantId, netTime: nat, testFilter: Option<set<TestId>>) returns (plan: Plan)
      ensures plan.Run? && plan.id == m && plan.netTime == netTime
      ensures plan.runOptions == RunOptions(
                testFilter, if testFilter.Some? then Runtime else Static,
                options.timeoutFactor * netTime as real + options.timeoutMS + options.timeOverheadMS,
                if m in testCoverage.hitsByMutantId then Some(HIT_LIMIT_FACTOR * testCoverage.hitsByMutantId[m]) else None,
                testFilter.None?)
    {
      var timeout := options.timeoutFactor * netTime as real + options.timeoutMS + options.timeOverheadMS;
      var hitLimit := if m in testCoverage.hitsByMutantId then Some(testCoverage.hitsByMutantId[m] * HIT_LIMIT_FACTOR) else None;
      plan := Run(m, netTime, RunOptions(
        testFilter, if testFilter.Some? then Runtime else Static, timeout, hitLimit, testFilter.None?));
    }
  }

  // ----- coverage-based selection is sound

  datatype Test = Test(id: TestId, code: Node)

  /** An instrumented project with a test suite: `load` is what loading the test environment runs. */
  datatype Suite = Suite(
    cfg: Config,
    files: seq<File>,
    host: (string, seq<Value>, Env) -> (Completion, Env),
    load: Node,
    tests: seq<Test>,
    fuel: nat,
    env: Env)
  {
    ghost predicate Valid() {
      && ProperProgram(cfg, files) && Clean(load) && WellFormed(load)
      && (forall t <- tests :: Clean(t.code) && WellFormed(t.code))
      && (forall i, j :: 0 <= i < j < |tests| ==> tests[i].id != tests[j].id)
    }

    function Instrumented(active: Option<nat>): World {
      World(host, Functions(Instrument(cfg, files, 0).files), active)
    }

    /** The project as a developer would have it after making mutant m by hand. */
    function Plain(m: Option<nat>): World {
      World(host, Functions(MutatedProgram(cfg, files, 0, m)), None)
    }

    function Load(w: World): Outcome {
      Eval(w, load, fuel, env)
    }

    /** Every test starts from the same loaded state. */
    function RunTest(w: World, t: Test): Outcome {
      Eval(w, t.code, fuel, Load(w).env)
    }

    predicate Fails(w: World, t: Test) {
      !RunTest(w, t).completion.Normal?
    }

    /** Running all tests in a freshly loaded environment finds the mutant. */
    ghost predicate KilledByAll(w: World) {
      !Load(w).completion.Normal? || exists t <- tests :: Fails(w, t)
    }

    ghost predicate DryRunPasses() {
      var w := Instrumented(None);
      Load(w).completion.Normal? && forall t <- tests :: !Fails(w, t)
    }

    /** The counters that the dry run leaves behind: each test has its own, except that tests without a
        name count as loading does. */
    ghost predicate CountedBy(c: MutantCoverage) {
      var w := Instrumented(None);
      && (forall m :: CountIn(c.whileLoading, m) == Occurrences(Load(w).log, m) + CountedIn(None, tests, m))
      && (forall t, m :: t in tests ==>
            CountIn(Slot(c, Some(t.id)), m) == if t.id == "" then 0 else Occurrences(RunTest(w, t).log, m))
    }

    /** How often these tests count the mutant in the slot. */
    function CountedIn(slot: Option<TestId>, ts: seq<Test>, m: nat): nat {
      if ts == [] then 0
      else
        var t := ts[|ts| - 1];
        CountedIn(slot, ts[..|ts| - 1], m) +
        if Counting(Some(t.id)) == slot then Occurrences(RunTest(Instrumented(None), t).log, m) else 0
    }

    /** The dry run covers the mutant outside of every test with a name. */
    ghost predicate CountsAsStatic(m: nat) {
      var w := Instrumented(None);
      Covered(m) in Load(w).log || exists t <- tests :: t.id == "" && Covered(m) in RunTest(w, t).log
    }

    /** The test finds the mutant when that is activated after loading. */
    ghost predicate FailsAtRuntime(m: nat, t: Test) {
      !Eval(Instrumented(Some(m)), t.code, fuel, Load(Instrumented(None)).env).completion.Normal?
    }

    /** The mutant is activated after loading, and only the tests of the filter are run. */
    ghost predicate KilledAtRuntime(m: nat, testFilter: set<TestId>) {
      exists t <- tests :: t.id in testFilter && FailsAtRuntime(m, t)
    }
  }

  lemma {:induction false} NamelessIff(s: Suite, ts: seq<Test>, m: nat)
    ensures s.CountedIn(None, ts, m) > 0 <==>
            exists t <- ts :: t.id == "" && Covered(m) in s.RunTest(s.Instrumented(None), t).log
    decreases |ts|
  {
    if ts != [] {
      var init, last := ts[..|ts| - 1], ts[|ts| - 1];
      assert ts == init + [last];
      NamelessIff(s, init, m);
    }
  }

  /** Only the test with that id counts in a slot. */
  lemma {:induction false} OneTestCounts(s: Suite, n: nat, k: nat, m: nat)
    requires n <= |s.tests| && k < |s.tests| && s.tests[k].id != ""
    requires forall i, j :: 0 <= i < j < |s.tests| ==> s.tests[i].id != s.tests[j].id
    ensures s.CountedIn(Some(s.tests[k].id), s.tests[..n], m) ==
            if k < n then Occurrences(s.RunTest(s.Instrumented(None), s.tests[k]).log, m) else 0
    decreases n
  {
    if n > 0 {
      OneTestCounts(s, n - 1, k, m);
      assert s.tests[..n][..n - 1] == s.tests[..n - 1];
    }
  }

  lemma {:induction false} NamelessCountsNowhere(s: Suite, ts: seq<Test>, m: nat)
    ensures s.CountedIn(Some(""), ts, m) == 0
    decreases |ts|
  {
    if ts != [] {
      NamelessCountsNowhere(s, ts[..|ts| - 1], m);
    }
  }

  /** The static counter of a mutant is zero exactly if the dry run covers it in tests with a name only. */
  lemma StaticIff(s: Suite, c: MutantCoverage, m: nat)
    requires s.CountedBy(c)
    ensures CountIn(c.whileLoading, m) > 0 <==> s.CountsAsStatic(m)
  {
    NamelessIff(s, s.tests, m);
  }

  lemma NothingCounted()
    ensures forall slot, m :: Counter(MutantCoverage(map[], map[]), slot, m) == 0
    ensures Counting(None) == None
  {
  }

  lemma {:induction false} CountedSnoc(s: Suite, slot: Option<TestId>, i: nat, m: nat)
    requires i < |s.tests|
    ensures s.CountedIn(slot, s.tests[..i + 1], m) ==
            s.CountedIn(slot, s.tests[..i], m) +
            if Counting(Some(s.tests[i].id)) == slot then Occurrences(s.RunTest(s.Instrumented(None), s.tests[i]).log, m)
            else 0
  {
    assert s.tests[..i + 1][..i] == s.tests[..i];
  }

  /** The dry run: the environment is loaded, and then every test runs, with its id set in the runtime
      header; the counters of the header are then as the selection needs them. */
  method DryRun(s: Suite) returns (c: MutantCoverage)
    requires s.Valid()
    ensures s.CountedBy(c)
  {
    hide Occurrences, Counting, Slot, CountIn;
    var header := new RuntimeHeader(None, None, 0);
    var w := s.Instrumented(None);
    NothingCounted();
    header.Replay(s.Load(w).log);
    for i := 0 to |s.tests|
      invariant forall slot, m :: Counter(header.mutantCoverage, slot, m) ==
                  (if slot == None then Occurrences(s.Load(w).log, m) else 0) + s.CountedIn(slot, s.tests[..i], m)
    {
      forall slot, m {
        CountedSnoc(s, slot, i, m);
      }
      header.currentTestId := Some(s.tests[i].id);
      header.Replay(s.RunTest(w, s.tests[i]).log);
    }
    assert s.tests[..|s.tests|] == s.tests;
    header.currentTestId := None;
    c := header.mutantCoverage;
    CountersAreRight(s, c);
  }

  lemma {:induction false} CountersAreRight(s: Suite, c: MutantCoverage)
    requires forall i, j :: 0 <= i < j < |s.tests| ==> s.tests[i].id != s.tests[j].id
    requires forall slot, m :: Counter(c, slot, m) ==
               (if slot == None then Occurrences(s.Load(s.Instrumented(None)).log, m) else 0) + s.CountedIn(slot, s.tests, m)
    ensures s.CountedBy(c)
  {
    var w := s.Instrumented(None);
    forall m
      ensures CountIn(c.whileLoading, m) == Occurrences(s.Load(w).log, m) + s.CountedIn(None, s.tests, m)
    {
      assert Counter(c, None, m) == CountIn(c.whileLoading, m);
    }
    forall t, m | t in s.tests
      ensures CountIn(Slot(c, Some(t.id)), m) == if t.id == "" then 0 else Occurrences(s.RunTest(w, t).log, m)
    {
      assert Counter(c, Some(t.id), m) == CountIn(Slot(c, Some(t.id)), m);
      if t.id == "" {
        NamelessCountsNowhere(s, s.tests, m);
      } else {
        var k :| 0 <= k < |s.tests| && s.tests[k] == t;
        assert s.tests[..|s.tests|] == s.tests;
        OneTestCounts(s, |s.tests|, k, m);
      }
    }
  }

  /** Loading does not touch a mutant that is not static. */
  lemma NonStaticLoads(s: Suite, c: MutantCoverage, m: nat)
    requires s.Valid() && s.CountedBy(c) && CountIn(c.whileLoading, m) == 0
    ensures SameEffect(s.Load(s.Instrumented(Some(m))), s.Load(s.Instrumented(None)))
  {
    UncoveredMutantHasNoEffect(s.cfg, s.files, m, s.load, s.host, s.fuel, s.env);
  }

  /** A test that did not count the mutant cannot tell that it is active. */
  lemma UncoveredTestPasses(s: Suite, c: MutantCoverage, m: nat, t: Test)
    requires s.Valid() && s.DryRunPasses() && s.CountedBy(c) && t in s.tests
    requires t.id != "" || CountIn(c.whileLoading, m) == 0
    requires CountIn(Slot(c, Some(t.id)), m) == 0
    ensures !s.FailsAtRuntime(m, t)
  {
    var w := s.Instrumented(None);
    assert !s.Fails(w, t);
    StaticIff(s, c, m);
    UncoveredMutantHasNoEffect(s.cfg, s.files, m, t.code, s.host, s.fuel, s.Load(w).env);
  }

  /** The filter holds the tests that count the mutant in their own slot. */
  ghost predicate FilterOf(s: Suite, c: MutantCoverage, m: nat, testFilter: set<TestId>) {
    forall t <- s.tests :: t.id in testFilter <==> CountIn(Slot(c, Some(t.id)), m) > 0
  }

  /** For a mutant that is not static, running the covering tests with the mutant switched on at run
      time gives the verdict of running all tests with the mutant active from the start. */
  lemma SelectionIsSound(s: Suite, c: MutantCoverage, m: nat, testFilter: set<TestId>)
    requires s.Valid() && s.DryRunPasses() && s.CountedBy(c)
    requires CountIn(c.whileLoading, m) == 0 && FilterOf(s, c, m, testFilter)
    ensures s.KilledAtRuntime(m, testFilter) <==> s.KilledByAll(s.Instrumented(Some(m)))
  {
    var w := s.Instrumented(Some(m));
    NonStaticLoads(s, c, m);
    if t :| t in s.tests && s.Fails(w, t) {
      if t.id !in testFilter {
        UncoveredTestPasses(s, c, m, t);
      }
    }
  }

  /** The verdict of the instrumented run is the verdict of the program with the mutant made by hand. */
  lemma VerdictIsReal(s: Suite, active: Option<nat>)
    requires s.Valid()
    ensures s.KilledByAll(s.Instrumented(active)) <==> s.KilledByAll(s.Plain(active))
  {
    InstrumentedBehavesLikeMutant(s.cfg, s.files, active, s.load, s.host, s.fuel, s.env);
    var env := s.Load(s.Plain(active)).env;
    forall t | t in s.tests
      ensures s.Fails(s.Instrumented(active), t) <==> s.Fails(s.Plain(active), t)
    {
      InstrumentedBehavesLikeMutant(s.cfg, s.files, active, t.code, s.host, s.fuel, env);
    }
  }

  /** The main result on test selection: the run that the planner orders for a non-static mutant kills
      it exactly when some test, or loading, fails in the program with that mutant made by hand. */
  lemma PlannedRunFindsMutant(s: Suite, c: MutantCoverage, m: nat, testFilter: set<TestId>)
    requires s.Valid() && s.DryRunPasses() && s.CountedBy(c)
    requires CountIn(c.whileLoading, m) == 0 && FilterOf(s, c, m, testFilter)
    ensures s.KilledAtRuntime(m, testFilter) <==> s.KilledByAll(s.Plain(Some(m)))
  {
    SelectionIsSound(s, c, m, testFilter);
    VerdictIsReal(s, Some(m));
  }

  /** With the mutant switched on after loading, running only the tests of the filter finds what running all
      tests with a name finds, also for a static mutant. */
  lemma FilterLosesNothing(s: Suite, c: MutantCoverage, m: nat, testFilter: set<TestId>)
    requires s.Valid() && s.DryRunPasses() && s.CountedBy(c) && FilterOf(s, c, m, testFilter)
    ensures s.KilledAtRuntime(m, testFilter) <==> exists t <- s.tests :: t.id != "" && s.FailsAtRuntime(m, t)
  {
    forall t | t in s.tests && t.id != "" && t.id !in testFilter
      ensures !s.FailsAtRuntime(m, t)
    {
      UncoveredTestPasses(s, c, m, t);
    }
  }

  lemma {:induction false} CoveringIsFilter(s: Suite, c: MutantCoverage, results: seq<TestResult>,
                                            covering: set<TestResult>, m: nat)
    requires forall t <- s.tests :: exists r <- results :: r.id == t.id
    requires forall t :: t in covering <==> CoversMutant(c, TestsById(results), m, t)
    ensures FilterOf(s, c, m, TestIds(covering))
  {
    TestsByIdKeepsIds(results);
    forall t | t in s.tests
      ensures t.id in TestIds(covering) <==> CountIn(Slot(c, Some(t.id)), m) > 0
    {
      var r :| r in results && r.id == t.id;
      var known := TestsById(results)[t.id];
      assert known in covering <==> CoversMutant(c, TestsById(results), m, known);
    }
  }

  lemma NothingKilled(s: Suite, m: nat)
    ensures !s.KilledAtRuntime(m, TestIds({}))
  {
  }

  /** What a planned run finds: with a filter, the mutant is switched on after loading. */
  ghost predicate RunFinds(s: Suite, m: nat, run: RunOptions) {
    match run.testFilter
    case Some(testFilter) => s.KilledAtRuntime(m, testFilter)
    case None => s.KilledByAll(s.Instrumented(Some(m)))
  }

  /** The tests that the runner runs, as the dry run reported them. */
  function TestsRun(results: seq<TestResult>, run: RunOptions): set<TestResult> {
    set r <- TestsById(results).Values | run.testFilter.None? || r.id in run.testFilter.value
  }

  lemma {:induction false} CoveringIsRun(c: MutantCoverage, results: seq<TestResult>, covering: set<TestResult>, m: nat,
                                         run: RunOptions)
    requires forall t :: t in covering <==> CoversMutant(c, TestsById(results), m, t)
    requires run.testFilter == None || run.testFilter == Some(TestIds(covering))
    ensures TestsRun(results, run) == if run.testFilter.None? then TestsById(results).Values else covering
  {
    TestsByIdKeepsIds(results);
    var byId := TestsById(results);
    if run.testFilter.Some? {
      forall r | r in byId.Values && r.id in TestIds(covering)
        ensures r in covering
      {
        var t :| t in covering && t.id == r.id;
        var k :| k in byId && byId[k] == r;
        assert byId[t.id] == t;
      }
      forall t | t in covering
        ensures t in byId.Values && t.id in TestIds(covering)
      {
        assert byId[t.id] == t;
      }
    }
  }

  /** From the dry run over the plan to the verdict: except for a static mutant under `ignoreStatic`, the
      planned run kills the mutant exactly if the program with that mutant made by hand is killed.  Such a
      mutant is judged by what the tests find when it is switched on after loading. */
  method PlanAndSelect(s: Suite, results: seq<TestResult>, options: PlanOptions, m: nat) returns (plan: Plan)
    requires s.Valid() && s.DryRunPasses()
    requires forall t <- s.tests :: exists r <- results :: r.id == t.id
    ensures !(s.CountsAsStatic(m) && options.ignoreStatic) ==>
              plan.Run? && (RunFinds(s, m, plan.runOptions) <==> s.KilledByAll(s.Plain(Some(m))))
    ensures s.CountsAsStatic(m) && options.ignoreStatic ==>
              (plan.Run? && RunFinds(s, m, plan.runOptions) <==>
                exists t <- s.tests :: t.id != "" && s.FailsAtRuntime(m, t))
    ensures !s.CountsAsStatic(m) ==> plan.Run? && plan.runOptions.testFilter.Some?
    ensures plan.Run? ==>
              (plan.runOptions.mutantActivation == Runtime <==> plan.runOptions.testFilter.Some?)
              && (plan.runOptions.reloadEnvironment <==> plan.runOptions.testFilter.None?)
    ensures plan.Run? ==> plan.netTime == TotalTime(TestsRun(results, plan.runOptions))
  {
    hide Suite.Valid, Suite.CountedBy, Suite.DryRunPasses, Suite.KilledAtRuntime, Suite.KilledByAll,
         Suite.FailsAtRuntime, Suite.CountsAsStatic, FilterOf, TestIds, TotalTime, TestsRun, TestsById, CoversMutant;
    var c := DryRun(s);
    StaticIff(s, c, m);
    var testCoverage := new TestCoverage.From(results, Some(c));
    var planner := new MutantTestPlanner(options, testCoverage);
    plan := planner.PlanMutant(m, None);
    CoveringIsFilter(s, c, results, testCoverage.ForMutant(m), m);
    if plan.Run? {
      CoveringIsRun(c, results, testCoverage.ForMutant(m), m, plan.runOptions);
    }
    if !s.CountsAsStatic(m) {
      PlannedRunFindsMutant(s, c, m, TestIds(testCoverage.ForMutant(m)));
    } else if options.ignoreStatic {
      FilterLosesNothing(s, c, m, TestIds(testCoverage.ForMutant(m)));
      if testCoverage.ForMutant(m) == {} {
        NothingKilled(s, m);
      }
    } else {
      VerdictIsReal(s, Some(m));
    }
  }

  /** A mutant without coverage survives whatever tests are run: reporting it without a run is right. */
  lemma NoCoverageMeansSurvival(s: Suite, c: MutantCoverage, m: nat)
    requires s.Valid() && s.DryRunPasses() && s.CountedBy(c)
    requires CountIn(c.whileLoading, m) == 0 && FilterOf(s, c, m, {})
    ensures !s.KilledByAll(s.Plain(Some(m)))
  {
    PlannedRunFindsMutant(s, c, m, {});
  }
}
