/** The test environment under the decorators of a test runner: what is loaded in the real process, and
    what `ReloadEnvironmentDecorator` believes to be loaded. */
module Environment {
  import opened Options

  // ----- the real process

  /** What is loaded in the process, and the mutant that was statically active while it was loaded. */
  datatype Env = Unloaded | LoadedUnder(mutant: Option<string>)

  datatype Activation = Runtime | Static

  /** What the process does with a request: it answers, it runs out of time, or the call is rejected. */
  datatype Outcome = Completes | Expires | Rejects

  /** A mutant run as the process saw it. */
  datatype Run = Run(mutant: string, activation: Activation, under: Option<string>, loadedInRun: bool)

  /** A runtime mutant sees an environment that was loaded without a mutant, a static one an environment
      that was loaded in the same run, under that mutant. */
  predicate Safe(r: Run) {
    match r.activation
    case Runtime => r.under == None
    case Static => r.loadedInRun && r.under == Some(r.mutant)
  }

  datatype Request = Request(mutant: string, activation: Activation)

  predicate Loads(env: Env, capable: bool, reload: bool) {
    env.Unloaded? || (reload && capable)
  }

  function UnderOf(q: Request): Option<string> {
    if q.activation == Static then Some(q.mutant) else None
  }

  /** The process loads its files in the first run, and again when it is asked to and able to. */
  function EnvAfter(env: Env, capable: bool, reload: bool, q: Request): (after: Env)
    ensures after.LoadedUnder?
  {
    if Loads(env, capable, reload) then LoadedUnder(UnderOf(q)) else env
  }

  function Observed(env: Env, capable: bool, reload: bool, q: Request): Run {
    Run(q.mutant, q.activation, EnvAfter(env, capable, reload, q).mutant, Loads(env, capable, reload))
  }

  // ----- the decorators, as functions of their state

  datatype TestEnvironment = Pristine | Loaded | LoadedStaticMutant

  datatype Config = Config(capable: bool, restartAfter: int)

  datatype State = State(testEnvironment: TestEnvironment, runs: nat, env: Env)

  const FRESH := State(Pristine, 0, Unloaded)

  predicate Restarts(c: Config, runs: nat) {
    c.restartAfter > 0 && runs + 1 > c.restartAfter
  }

  /** `MaxTestRunnerReuseDecorator` over `TimeoutDecorator` over the process. */
  function InnerRun(c: Config, s: State, q: Request, reload: bool, outcome: Outcome): (State, Run) {
    var env := if Restarts(c, s.runs) then Unloaded else s.env;
    (State(s.testEnvironment,
           if Restarts(c, s.runs) then 1 else s.runs + 1,
           if outcome == Expires then Unloaded else EnvAfter(env, c.capable, reload, q)),
     Observed(env, c.capable, reload, q))
  }

  datatype Attempt = Attempt(state: State, reloadEnvironment: bool, run: Run)

  /** Whether the decorator replaces everything below it before the run. */
  predicate Recovers(c: Config, s: State, reload: bool) {
    && !c.capable
    && (if reload then !s.testEnvironment.Pristine? else s.testEnvironment.LoadedStaticMutant?)
  }

  function FlagAfter(c: Config, s: State, reload: bool): bool {
    && c.capable
    && (if reload then !s.testEnvironment.Pristine? else s.testEnvironment.LoadedStaticMutant?)
  }

  lemma FlagMeans(c: Config, s: State, reload: bool)
    ensures reload ==> (FlagAfter(c, s, reload) <==> c.capable && !s.testEnvironment.Pristine?)
    ensures !reload ==> (FlagAfter(c, s, reload) <==> c.capable && s.testEnvironment.LoadedStaticMutant?)
  {
  }

  /** `ReloadEnvironmentDecorator.mutantRun`, with the flag of the options object before and after. */
  function ReloadRun(c: Config, s: State, q: Request, reload: bool, outcome: Outcome): Attempt {
    var before := if Recovers(c, s, reload) then State(s.testEnvironment, 0, Unloaded) else s;
    var flag := FlagAfter(c, s, reload);
    var (after, run) := InnerRun(c, before, q, flag, outcome);
    var next := if outcome == Rejects then s.testEnvironment else if reload then LoadedStaticMutant else Loaded;
    Attempt(after.(testEnvironment := next), flag, run)
  }

  function AfterDryRun(s: State, outcome: Outcome): State {
    State(Loaded, s.runs,
          if outcome == Expires then Unloaded else if s.env.Unloaded? then LoadedUnder(None) else s.env)
  }

  // ----- retries

  /** The planner asks for a reload exactly for static mutants. */
  predicate WantsReload(q: Request) {
    q.activation == Static
  }

  /** What the decorator believes never hides a static mutant. */
  predicate Consistent(s: State) {
    match s.testEnvironment
    case Pristine => s.env.Unloaded?
    case Loaded => s.env.Unloaded? || s.env.mutant == None
    case LoadedStaticMutant => true
  }

  /** `RetryRejectedDecorator.mutantRun`: after a rejection everything below is replaced, and the same
      options object, whose flag may have changed, is sent again. */
  function RetryRun(c: Config, s: State, q: Request, reload: bool, outcomes: seq<Outcome>): (State, seq<Run>)
    decreases |outcomes|
  {
    if outcomes == [] then (FRESH, [])
    else
      var a := ReloadRun(c, s, q, reload, outcomes[0]);
      if outcomes[0] != Rejects then (a.state, [a.run])
      else
        var (after, runs) := RetryRun(c, FRESH, q, a.reloadEnvironment, outcomes[1..]);
        (after, [a.run] + runs)
  }

  lemma {:induction false} RetryUnfolded(c: Config, s: State, q: Request, reload: bool, outcomes: seq<Outcome>)
    ensures RetryRun(c, s, q, reload, outcomes) ==
            if outcomes == [] then (FRESH, [])
            else
              var a := ReloadRun(c, s, q, reload, outcomes[0]);
              if outcomes[0] != Rejects then (a.state, [a.run])
              else
                var (after, runs) := RetryRun(c, FRESH, q, a.reloadEnvironment, outcomes[1..]);
                (after, [a.run] + runs)
  {
  }

  /** The same for a dry run, which changes no flag. */
  function RetryDryRun(s: State, outcomes: seq<Outcome>): State
    decreases |outcomes|
  {
    if outcomes == [] then FRESH
    else if outcomes[0] != Rejects then AfterDryRun(s, outcomes[0])
    else RetryDryRun(FRESH, outcomes[1..])
  }

  /** Every attempt itself is safe, also a retry with a flag that an earlier attempt has changed. */
  lemma {:induction false} RetriesAreSafe(c: Config, s: State, q: Request, reload: bool, outcomes: seq<Outcome>)
    requires Consistent(s) && (reload == WantsReload(q) || s == FRESH)
    ensures forall r <- RetryRun(c, s, q, reload, outcomes).1 :: Safe(r)
    decreases |outcomes|
  {
    if outcomes != [] && outcomes[0] == Rejects {
      RetriesAreSafe(c, FRESH, q, ReloadRun(c, s, q, reload, Rejects).reloadEnvironment, outcomes[1..]);
    }
  }

  /** What the decorator believes afterwards is right, except when the first attempt of a static mutant
      cleared the flag and was rejected, and the second one completed. */
  lemma {:induction false} RetryIsConsistentIff(c: Config, s: State, q: Request, o1: Outcome, o2: Outcome)
    requires Consistent(s)
    ensures Consistent(RetryRun(c, s, q, WantsReload(q), [o1, o2]).0) <==>
            !(&& q.activation == Static && o1 == Rejects && o2 == Completes
              && (s.testEnvironment.Pristine? || !c.capable))
  {
    var a := ReloadRun(c, s, q, WantsReload(q), o1);
    var b := ReloadRun(c, FRESH, q, a.reloadEnvironment, o2);
    assert [o1, o2][1..] == [o2] && [o2][1..] == [];
    assert RetryRun(c, FRESH, q, a.reloadEnvironment, [o2]).0 == if o2 == Rejects then FRESH else b.state;
  }

  /** After such a retry the next runtime mutant runs in the environment of the static mutant, unless the
      process is restarted first. */
  lemma {:induction false} AfterBadRetry(c: Config, s: State, q: Request, m: string)
    requires Consistent(s) && q.activation == Static && (s.testEnvironment.Pristine? || !c.capable)
    ensures var after := RetryRun(c, s, q, true, [Rejects, Completes]).0;
            Safe(ReloadRun(c, after, Request(m, Runtime), false, Completes).run) <==> Restarts(c, 1)
  {
    var a := ReloadRun(c, s, q, true, Rejects);
    var b := ReloadRun(c, FRESH, q, a.reloadEnvironment, Completes);
    assert [Rejects, Completes][1..] == [Completes];
    assert RetryRun(c, FRESH, q, a.reloadEnvironment, [Completes]).0 == b.state;
  }

  // ----- safety over whole runs

  /** What a worker sends to its runner, with the outcomes of the two attempts that a retry allows. */
  datatype Call =
    | DryRunCall(first: Outcome, second: Outcome)
    | MutantRunCall(request: Request, first: Outcome, second: Outcome)

  function Step(c: Config, s: State, call: Call): (State, seq<Run>) {
    match call
    case DryRunCall(o1, o2) => (RetryDryRun(s, [o1, o2]), [])
    case MutantRunCall(q, o1, o2) => RetryRun(c, s, q, WantsReload(q), [o1, o2])
  }

  function Runs(c: Config, s: State, calls: seq<Call>): seq<Run>
    decreases |calls|
  {
    if calls == [] then []
    else
      var (next, runs) := Step(c, s, calls[0]);
      runs + Runs(c, next, calls[1..])
  }

  function FinalState(c: Config, s: State, calls: seq<Call>): State
    decreases |calls|
  {
    if calls == [] then s else FinalState(c, Step(c, s, calls[0]).0, calls[1..])
  }

  /** What a caller can tell from the calls alone: which kind of call was answered last, how many mutant runs
      the present process has had, and whether a static mutant is still loaded in it. */
  datatype Last = Nothing | Plain | StaticMutant

  datatype Watch = Watch(last: Last, runs: nat, holds: bool)

  const NEW_WATCH := Watch(Nothing, 0, false)

  /** A mutant that must not share the environment of the call before it. */
  predicate Reloads(w: Watch, q: Request) {
    if q.activation == Static then w.last != Nothing else w.last == StaticMutant
  }

  /** A runtime mutant that is not known to follow a static one, in a process that still holds one and is
      not about to be restarted. */
  predicate Unsafe(c: Config, w: Watch, q: Request) {
    q.activation == Runtime && w.last == Plain && w.holds && !Restarts(c, w.runs)
  }

  function AfterMutant(c: Config, w: Watch, q: Request, o: Outcome): Watch {
    var runs := if Reloads(w, q) && !c.capable then 0 else w.runs;
    Watch(if q.activation == Static then StaticMutant else Plain,
          if Restarts(c, runs) then 1 else runs + 1,
          o == Completes && (q.activation == Static || Unsafe(c, w, q)))
  }

  /** The one attempt after a rejection runs in a new process.  Its flag is the one that the first attempt
      left behind, so the runner takes the mutant for a static one only if it had to be reloaded in place. */
  function AfterRetry(c: Config, w: Watch, q: Request, o: Outcome): Watch {
    if o == Rejects then NEW_WATCH
    else Watch(if Reloads(w, q) && c.capable then StaticMutant else Plain, 1, o == Completes && q.activation == Static)
  }

  function Watched(c: Config, w: Watch, call: Call): Watch {
    match call
    case DryRunCall(o1, o2) =>
      if o1 != Rejects then Watch(Plain, w.runs, w.holds && o1 == Completes)
      else if o2 != Rejects then Watch(Plain, 0, false)
      else NEW_WATCH
    case MutantRunCall(q, o1, o2) =>
      if o1 != Rejects then AfterMutant(c, w, q, o1) else AfterRetry(c, w, q, o2)
  }

  /** Somewhere in the sequence there is an unsafe request. */
  predicate Hazard(c: Config, w: Watch, calls: seq<Call>)
    decreases |calls|
  {
    && calls != []
    && (|| (calls[0].MutantRunCall? && Unsafe(c, w, calls[0].request))
        || Hazard(c, Watched(c, w, calls[0]), calls[1..]))
  }

  function WatchOf(s: State): Watch {
    Watch(match s.testEnvironment
          case Pristine => Nothing
          case Loaded => Plain
          case LoadedStaticMutant => StaticMutant,
          s.runs, s.env.LoadedUnder? && s.env.mutant.Some?)
  }

  predicate PristineIsUnloaded(s: State) {
    s.testEnvironment.Pristine? ==> s.env.Unloaded?
  }

  lemma {:induction false} TwoAttempts(c: Config, s: State, q: Request, o1: Outcome, o2: Outcome)
    ensures var a := ReloadRun(c, s, q, WantsReload(q), o1);
            var b := ReloadRun(c, FRESH, q, a.reloadEnvironment, o2);
            RetryRun(c, s, q, WantsReload(q), [o1, o2]) ==
            if o1 != Rejects then (a.state, [a.run])
            else if o2 != Rejects then (b.state, [a.run, b.run])
            else (FRESH, [a.run, b.run])
  {
    hide ReloadRun, RetryRun;
    var a := ReloadRun(c, s, q, WantsReload(q), o1);
    var b := ReloadRun(c, FRESH, q, a.reloadEnvironment, o2);
    assert [o1, o2][1..] == [o2] && [o2][1..] == [];
    RetryUnfolded(c, s, q, WantsReload(q), [o1, o2]);
    RetryUnfolded(c, FRESH, q, a.reloadEnvironment, [o2]);
    RetryUnfolded(c, FRESH, q, b.reloadEnvironment, []);
    assert [a.run] + ([b.run] + []) == [a.run, b.run] && [b.run] + [] == [b.run];
  }

  lemma MutantIsWatched(c: Config, s: State, q: Request, o: Outcome)
    requires PristineIsUnloaded(s)
    ensures var a := ReloadRun(c, s, q, WantsReload(q), o);
            && (Safe(a.run) <==> !Unsafe(c, WatchOf(s), q))
            && (o != Rejects ==> WatchOf(a.state) == AfterMutant(c, WatchOf(s), q, o) && PristineIsUnloaded(a.state))
            && (a.reloadEnvironment <==> Reloads(WatchOf(s), q) && c.capable)
  {
  }

  lemma RetryIsWatched(c: Config, w: Watch, q: Request, flag: bool, o: Outcome)
    requires flag <==> Reloads(w, q) && c.capable
    ensures var b := ReloadRun(c, FRESH, q, flag, o);
            && Safe(b.run)
            && (o != Rejects ==> WatchOf(b.state) == AfterRetry(c, w, q, o) && PristineIsUnloaded(b.state))
  {
  }

  lemma {:induction false} StepIsWatched(c: Config, s: State, call: Call)
    requires PristineIsUnloaded(s)
    ensures var (next, runs) := Step(c, s, call);
            && WatchOf(next) == Watched(c, WatchOf(s), call) && PristineIsUnloaded(next)
            && ((forall r <- runs :: Safe(r)) <==> !(call.MutantRunCall? && Unsafe(c, WatchOf(s), call.request)))
  {
    match call
    case DryRunCall(o1, o2) =>
      assert [o1, o2][1..] == [o2] && [o2][1..] == [];
      assert RetryDryRun(FRESH, [o2]) == if o2 != Rejects then AfterDryRun(FRESH, o2) else FRESH;
    case MutantRunCall(q, o1, o2) =>
      hide ReloadRun, Unsafe, Reloads, RetryRun;
      var a := ReloadRun(c, s, q, WantsReload(q), o1);
      TwoAttempts(c, s, q, o1, o2);
      MutantIsWatched(c, s, q, o1);
      RetryIsWatched(c, WatchOf(s), q, a.reloadEnvironment, o2);
      assert a.run in [a.run];
      assert a.run in Step(c, s, call).1;
  }

  lemma {:induction false} RunsAreSafeFromIff(c: Config, s: State, calls: seq<Call>)
    requires PristineIsUnloaded(s)
    ensures (forall r <- Runs(c, s, calls) :: Safe(r)) <==> !Hazard(c, WatchOf(s), calls)
    ensures PristineIsUnloaded(FinalState(c, s, calls))
    decreases |calls|
  {
    if calls != [] {
      hide Step, Watched, Unsafe, WatchOf, PristineIsUnloaded, Safe;
      var (next, runs) := Step(c, s, calls[0]);
      StepIsWatched(c, s, calls[0]);
      RunsAreSafeFromIff(c, next, calls[1..]);
      var all := Runs(c, s, calls);
      assert all == runs + Runs(c, next, calls[1..]);
      assert (forall r <- all :: Safe(r)) <==>
             (forall r <- runs :: Safe(r)) && (forall r <- Runs(c, next, calls[1..]) :: Safe(r));
    }
  }

  /** Exactly when a whole run is safe: for every sequence of calls and all their outcomes, every attempt sees
      the environment it should see if and only if the sequence has no unsafe request. */
  lemma {:induction false} RunsAreSafeIff(c: Config, calls: seq<Call>)
    ensures (forall r <- Runs(c, FRESH, calls) :: Safe(r)) <==> !Hazard(c, NEW_WATCH, calls)
    ensures PristineIsUnloaded(FinalState(c, FRESH, calls))
  {
    RunsAreSafeFromIff(c, FRESH, calls);
  }

  /** No first attempt is rejected, and no dry run follows the run of a static mutant. */
  predicate Regular(calls: seq<Call>, afterStatic: bool) {
    calls == []
    || (&& calls[0].first != Rejects
        && match calls[0]
           case DryRunCall(_, _) => !afterStatic && Regular(calls[1..], false)
           case MutantRunCall(q, _, _) => Regular(calls[1..], q.activation == Static))
  }

  lemma {:induction false} RegularHasNoHazard(c: Config, w: Watch, calls: seq<Call>)
    requires Regular(calls, w.last == StaticMutant) && (w.holds ==> w.last == StaticMutant)
    ensures !Hazard(c, w, calls)
    decreases |calls|
  {
    if calls != [] {
      RegularHasNoHazard(c, Watched(c, w, calls[0]), calls[1..]);
    }
  }

  /** Every run of every regular sequence is safe, and what the decorator believes stays right. */
  lemma {:induction false} EveryRunIsSafe(c: Config, s: State, calls: seq<Call>)
    requires Consistent(s) && Regular(calls, s.testEnvironment.LoadedStaticMutant?)
    ensures forall r <- Runs(c, s, calls) :: Safe(r)
    ensures Consistent(FinalState(c, s, calls))
  {
    RunsAreSafeFromIff(c, s, calls);
    RegularHasNoHazard(c, WatchOf(s), calls);
    RegularStaysConsistent(c, s, calls);
  }

  lemma {:induction false} RegularStaysConsistent(c: Config, s: State, calls: seq<Call>)
    requires Consistent(s) && Regular(calls, s.testEnvironment.LoadedStaticMutant?)
    ensures Consistent(FinalState(c, s, calls))
    decreases |calls|
  {
    if calls != [] {
      StepIsWatched(c, s, calls[0]);
      RegularStaysConsistent(c, Step(c, s, calls[0]).0, calls[1..]);
    }
  }

  function AfterDryRuns(s: State, outcomes: seq<Outcome>): State
    decreases |outcomes|
  {
    if outcomes == [] then s else AfterDryRuns(AfterDryRun(s, outcomes[0]), outcomes[1..])
  }

  /** Dry runs after a static mutant make the decorator forget it.  The next runtime mutant is then unsafe
      exactly when the static mutant is still loaded, no dry run has expired and the process is not restarted
      first. */
  lemma {:induction false} DryRunsForgetIff(c: Config, s: State, outcomes: seq<Outcome>, m: string)
    requires !s.testEnvironment.Pristine? && (s.testEnvironment.LoadedStaticMutant? ==> outcomes != [])
    ensures Safe(ReloadRun(c, AfterDryRuns(s, outcomes), Request(m, Runtime), false, Completes).run) <==>
            s.env.Unloaded? || s.env.mutant == None || Restarts(c, s.runs) || Expires in outcomes
    decreases |outcomes|
  {
    if outcomes != [] {
      hide ReloadRun;
      var next := AfterDryRun(s, outcomes[0]);
      DryRunsForgetIff(c, next, outcomes[1..], m);
      assert outcomes == [outcomes[0]] + outcomes[1..];
    }
  }

  /** A static mutant, a dry run, and a runtime mutant that runs under the static one: this happens with every
      setting except a restart after every single run, and with that one no sequence at all is unsafe. */
  lemma {:induction false} EverySequenceIsSafeIff(c: Config)
    ensures (forall calls :: forall r <- Runs(c, FRESH, calls) :: Safe(r)) <==> c.restartAfter == 1
  {
    if c.restartAfter == 1 {
      forall calls ensures forall r <- Runs(c, FRESH, calls) :: Safe(r) {
        RestartsPreventHazards(c, NEW_WATCH, calls);
        RunsAreSafeIff(c, calls);
      }
    } else {
      DryRunAfterStaticIsUnsafe(c);
    }
  }

  lemma {:induction false} RestartsPreventHazards(c: Config, w: Watch, calls: seq<Call>)
    requires c.restartAfter == 1 && (w.holds ==> w.runs > 0)
    ensures !Hazard(c, w, calls)
    decreases |calls|
  {
    if calls != [] {
      RestartsPreventHazards(c, Watched(c, w, calls[0]), calls[1..]);
    }
  }

  lemma {:induction false} DryRunAfterStaticIsUnsafe(c: Config)
    requires c.restartAfter != 1
    ensures exists calls: seq<Call> ::
      && (forall call <- calls :: call.first == Completes)
      && exists r <- Runs(c, FRESH, calls) :: !Safe(r)
  {
    var held := MutantRunCall(Request("1", Static), Completes, Completes);
    var dry := DryRunCall(Completes, Completes);
    var plain := MutantRunCall(Request("2", Runtime), Completes, Completes);
    var calls := [held, dry, plain];
    var w1 := Watched(c, NEW_WATCH, held);
    var w2 := Watched(c, w1, dry);
    assert w2 == Watch(Plain, 1, true) && Unsafe(c, w2, plain.request);
    assert calls[1..] == [dry, plain] && [dry, plain][1..] == [plain];
    assert Hazard(c, w2, [plain]);
    assert Hazard(c, w1, [dry, plain]);
    assert Hazard(c, NEW_WATCH, calls);
    RunsAreSafeIff(c, calls);
  }

  // ----- the classes

  /** The child process with the real test runner. */
  class TestRunnerProcess {
    const capable: bool
    var env: Env
    ghost var executed: nat

    constructor (capable: bool)
      ensures this.capable == capable && env == Unloaded && executed == 0
    {
      this.capable := capable;
      env := Unloaded;
      executed := 0;
    }

    method Capabilities() returns (reloadEnvironment: bool)
      ensures reloadEnvironment == capable
    {
      reloadEnvironment := capable;
    }

    method DryRun()
      modifies this
      ensures env == (if old(env).Unloaded? then LoadedUnder(None) else old(env)) && executed == old(executed)
    {
      if env.Unloaded? {
        env := LoadedUnder(None);
      }
    }

    method MutantRun(options: MutantRunOptions) returns (run: Run)
      modifies this
      ensures env == EnvAfter(old(env), capable, options.reloadEnvironment, options.request)
      ensures run == Observed(old(env), capable, options.reloadEnvironment, options.request)
      ensures run.mutant == options.request.mutant && run.activation == options.request.activation
      ensures run.loadedInRun <==> old(env).Unloaded? || (options.reloadEnvironment && capable)
      ensures run.loadedInRun && run.activation == Static ==> run.under == Some(run.mutant)
      ensures run.loadedInRun && run.activation == Runtime ==> run.under == None
      ensures env == LoadedUnder(run.under) && (run.loadedInRun || env == old(env))
      ensures executed == old(executed) + 1
    {
      var loads := env.Unloaded? || (options.reloadEnvironment && capable);
      if loads {
        env := LoadedUnder(UnderOf(options.request));
      }
      executed := executed + 1;
      run := Run(options.request.mutant, options.request.activation, env.mutant, loads);
    }
  }

  /** The options of one run: an object that is passed down through all decorators. */
  class MutantRunOptions {
    const request: Request
    var reloadEnvironment: bool

    constructor (request: Request)
      ensures this.request == request && reloadEnvironment == WantsReload(request)
    {
      this.request := request;
      reloadEnvironment := request.activation == Static;
    }
  }

  class TimeoutDecorator {
    const capable: bool
    var innerResource: TestRunnerProcess

    ghost predicate Valid()
      reads this, innerResource
    {
      innerResource.capable == capable
    }

    constructor (capable: bool)
      ensures this.capable == capable && Valid() && fresh(innerResource)
      ensures innerResource.env == Unloaded && innerResource.executed == 0
    {
      this.capable := capable;
      innerResource := new TestRunnerProcess(capable);
    }

    method Recover()
      modifies this
      ensures Valid() && fresh(innerResource) && innerResource.env == Unloaded && innerResource.executed == 0
    {
      innerResource := new TestRunnerProcess(capable);
    }

    method DryRun(outcome: Outcome)
      requires Valid()
      modifies this, innerResource
      ensures Valid() && (innerResource == old(innerResource) || fresh(innerResource))
      ensures innerResource.env == AfterDryRun(State(Pristine, 0, old(innerResource.env)), outcome).env
      ensures innerResource.executed <= old(innerResource.executed)
    {
      innerResource.DryRun();
      if outcome == Expires {
        Recover();
      }
    }

    method MutantRun(options: MutantRunOptions, outcome: Outcome) returns (run: Run)
      requires Valid()
      modifies this, innerResource
      ensures Valid() && (innerResource == old(innerResource) || fresh(innerResource))
      ensures innerResource.env ==
              if outcome == Expires then Unloaded
              else EnvAfter(old(innerResource.env), capable, options.reloadEnvironment, options.request)
      ensures run == Observed(old(innerResource.env), capable, options.reloadEnvironment, options.request)
      ensures innerResource.executed <= old(innerResource.executed) + 1
    {
      run := innerResource.MutantRun(options);
      if outcome == Expires {
        Recover();
      }
    }
  }

  class MaxTestRunnerReuseDecorator {
    const capable: bool
    const restartAfter: int
    var innerResource: TimeoutDecorator
    var runs: nat

    ghost function Objects(): set<object>
      reads this, innerResource
    {
      {this, innerResource, innerResource.innerResource}
    }

    /** No process ever executes more mutant runs than allowed. */
    ghost predicate Valid()
      reads Objects()
    {
      && innerResource.Valid() && innerResource.capable == capable
      && innerResource.innerResource.executed <= runs
      && (restartAfter > 0 ==> innerResource.innerResource.executed <= restartAfter)
    }

    ghost function Env(): Env
      reads Objects()
    {
      innerResource.innerResource.env
    }

    constructor (capable: bool, restartAfter: int)
      ensures this.capable == capable && this.restartAfter == restartAfter && Valid() && fresh(Objects())
      ensures runs == 0 && Env() == Unloaded
    {
      this.capable, this.restartAfter := capable, restartAfter;
      innerResource := new TimeoutDecorator(capable);
      runs := 0;
    }

    method Recover()
      requires Valid()
      modifies this
      ensures Valid() && fresh(Objects() - {this}) && runs == 0 && Env() == Unloaded
      ensures innerResource.innerResource.executed == 0
    {
      innerResource := new TimeoutDecorator(capable);
      runs := 0;
    }

    method DryRun(outcome: Outcome)
      requires Valid()
      modifies Objects()
      ensures Valid() && fresh(Objects() - old(Objects())) && runs == old(runs)
      ensures Env() == AfterDryRun(State(Pristine, 0, old(Env())), outcome).env
    {
      innerResource.DryRun(outcome);
    }

    method MutantRun(options: MutantRunOptions, outcome: Outcome, ghost c: Config, ghost s: State) returns (run: Run)
      requires Valid() && c == Config(capable, restartAfter) && s.runs == runs && s.env == Env()
      modifies Objects()
      ensures Valid() && fresh(Objects() - old(Objects()))
      ensures (State(s.testEnvironment, runs, Env()), run) ==
              InnerRun(c, s, options.request, options.reloadEnvironment, outcome)
      ensures runs == if restartAfter > 0 && old(runs) >= restartAfter then 1 else old(runs) + 1
    {
      runs := runs + 1;
      if restartAfter > 0 && runs > restartAfter {
        Recover();
        runs := 1;
      }
      run := innerResource.MutantRun(options, outcome);
    }
  }

  class ReloadEnvironmentDecorator {
    const capable: bool
    const restartAfter: int
    var innerResource: MaxTestRunnerReuseDecorator
    var capabilities: Option<bool>
    var testEnvironment: TestEnvironment

    ghost function Objects(): set<object>
      reads this, innerResource, innerResource.innerResource
    {
      {this} + innerResource.Objects()
    }

    ghost predicate Valid()
      reads Objects()
    {
      && innerResource.Valid() && innerResource.capable == capable && innerResource.restartAfter == restartAfter
      && (capabilities.Some? ==> capabilities.value == capable)
    }

    ghost function Settings(): Config {
      Config(capable, restartAfter)
    }

    ghost function Abstraction(): State
      reads Objects()
    {
      State(testEnvironment, innerResource.runs, innerResource.Env())
    }

    constructor (capable: bool, restartAfter: int)
      ensures this.capable == capable && this.restartAfter == restartAfter
      ensures Valid() && fresh(Objects()) && Abstraction() == FRESH
    {
      this.capable, this.restartAfter := capable, restartAfter;
      innerResource := new MaxTestRunnerReuseDecorator(capable, restartAfter);
      capabilities := None;
      testEnvironment := Pristine;
    }

    method Recover()
      requires Valid()
      modifies this
      ensures Valid() && fresh(Objects() - {this})
      ensures Abstraction() == State(old(testEnvironment), 0, Unloaded)
    {
      innerResource := new MaxTestRunnerReuseDecorator(capable, restartAfter);
    }

    method TestRunnerIsCapableOfReload() returns (able: bool)
      requires Valid()
      modifies this`capabilities
      ensures Valid() && able == capable
    {
      if capabilities.None? {
        var asked := innerResource.innerResource.innerResource.Capabilities();
        capabilities := Some(asked);
      }
      able := capabilities.value;
    }

    method DryRun(outcome: Outcome)
      requires Valid()
      modifies Objects()
      ensures Valid() && fresh(Objects() - old(Objects()))
      ensures Abstraction() == AfterDryRun(old(Abstraction()), outcome)
    {
      testEnvironment := Loaded;
      innerResource.DryRun(outcome);
    }

    /** The part before the run: the new state, the flag for the layers below, and a new process if the
        runner cannot reload. */
    method Prepare(options: MutantRunOptions) returns (newState: TestEnvironment)
      requires Valid()
      modifies this, options
      ensures Valid() && fresh(Objects() - old(Objects()))
      ensures newState == if old(options.reloadEnvironment) then LoadedStaticMutant else Loaded
      ensures options.reloadEnvironment == FlagAfter(Settings(), old(Abstraction()), old(options.reloadEnvironment))
      ensures Abstraction() == if Recovers(Settings(), old(Abstraction()), old(options.reloadEnvironment))
                               then State(old(testEnvironment), 0, Unloaded) else old(Abstraction())
    {
      if options.reloadEnvironment {
        newState := LoadedStaticMutant;
        options.reloadEnvironment := testEnvironment != Pristine;
        if options.reloadEnvironment {
          var able := TestRunnerIsCapableOfReload();
          if !able {
            Recover();
            options.reloadEnvironment := false;
          }
        }
      } else {
        newState := Loaded;
        if testEnvironment == LoadedStaticMutant {
          var able := TestRunnerIsCapableOfReload();
          if able {
            options.reloadEnvironment := true;
          } else {
            Recover();
          }
        }
      }
    }

    method MutantRun(options: MutantRunOptions, outcome: Outcome) returns (run: Run)
      requires Valid()
      modifies Objects(), options
      ensures Valid() && fresh(Objects() - old(Objects()))
      ensures Attempt(Abstraction(), options.reloadEnvironment, run) ==
              ReloadRun(Settings(), old(Abstraction()), options.request, old(options.reloadEnvironment), outcome)
      ensures outcome == Rejects ==> testEnvironment == old(testEnvironment)
      ensures outcome != Rejects && old(options.reloadEnvironment) ==> testEnvironment.LoadedStaticMutant?
      ensures outcome != Rejects && !old(options.reloadEnvironment) ==> testEnvironment.Loaded?
      ensures old(options.reloadEnvironment) ==>
                (options.reloadEnvironment <==> capable && !old(testEnvironment).Pristine?)
      ensures !old(options.reloadEnvironment) ==>
                (options.reloadEnvironment <==> capable && old(testEnvironment).LoadedStaticMutant?)
    {
      FlagMeans(Settings(), Abstraction(), options.reloadEnvironment);
      hide FlagAfter, Recovers, InnerRun;
      var newState := Prepare(options);
      ghost var before := Abstraction();
      run := innerResource.MutantRun(options, outcome, Settings(), before);
      if outcome != Rejects {
        testEnvironment := newState;
      }
    }
  }

  const MAX_RETRIES := 2

  class RetryRejectedDecorator {
    const capable: bool
    const restartAfter: int
    var innerResource: ReloadEnvironmentDecorator

    ghost predicate Valid()
      reads this, innerResource, innerResource.innerResource, innerResource.innerResource.innerResource,
            innerResource.Objects()
    {
      && innerResource.Valid() && innerResource.capable == capable && innerResource.restartAfter == restartAfter
      && this !in innerResource.Objects()
    }

    constructor (capable: bool, restartAfter: int)
      ensures this.capable == capable && this.restartAfter == restartAfter
      ensures Valid() && fresh(innerResource.Objects()) && innerResource.Abstraction() == FRESH
    {
      this.capable, this.restartAfter := capable, restartAfter;
      innerResource := new ReloadEnvironmentDecorator(capable, restartAfter);
    }

    method Recover()
      modifies this
      ensures Valid() && fresh(innerResource.Objects()) && innerResource.Abstraction() == FRESH
    {
      innerResource := new ReloadEnvironmentDecorator(capable, restartAfter);
    }

    method DryRun(attempts: seq<Outcome>)
      requires Valid() && |attempts| <= MAX_RETRIES
      modifies this, innerResource.Objects()
      ensures Valid() && fresh(innerResource.Objects() - old(innerResource.Objects()))
      ensures innerResource.Abstraction() == RetryDryRun(old(innerResource.Abstraction()), attempts)
      decreases |attempts|
    {
      hide AfterDryRun, ReloadEnvironmentDecorator.Objects, MaxTestRunnerReuseDecorator.Objects;
      if |attempts| > 0 {
        innerResource.DryRun(attempts[0]);
        if attempts[0] == Rejects {
          label Rejected:
          Recover();
          ghost var recovered := innerResource.Objects();
          DryRun(attempts[1..]);
          forall o: object | o in innerResource.Objects()
            ensures !old(allocated(o))
          {
            assert o in recovered || !old@Rejected(allocated(o));
          }
        }
      } else {
        Recover();
      }
    }

    /** The runs of all attempts; the outcome of each is given. */
    method Run(options: MutantRunOptions, attempts: seq<Outcome>) returns (ghost runs: seq<Run>)
      requires Valid() && |attempts| <= MAX_RETRIES
      modifies this, innerResource.Objects(), options
      ensures Valid() && fresh(innerResource.Objects() - old(innerResource.Objects()))
      ensures (innerResource.Abstraction(), runs) ==
              RetryRun(innerResource.Settings(), old(innerResource.Abstraction()), options.request,
                       old(options.reloadEnvironment), attempts)
      decreases |attempts|
    {
      hide ReloadRun, RetryRun, ReloadEnvironmentDecorator.Objects, MaxTestRunnerReuseDecorator.Objects;
      RetryUnfolded(innerResource.Settings(), innerResource.Abstraction(), options.request,
                    options.reloadEnvironment, attempts);
      if |attempts| > 0 {
        var run := innerResource.MutantRun(options, attempts[0]);
        runs := [run];
        if attempts[0] == Rejects {
          label Rejected:
          Recover();
          ghost var recovered := innerResource.Objects();
          ghost var more := Run(options, attempts[1..]);
          forall o: object | o in innerResource.Objects()
            ensures !old(allocated(o))
          {
            assert o in recovered || !old@Rejected(allocated(o));
          }
          runs := runs + more;
        }
      } else {
        Recover();
        runs := [];
      }
    }
  }
}
