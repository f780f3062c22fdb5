/** The resource pool as a transition system: tokens create resources, scheduled items are paired with
    resources that are ready, and initialisation, work and disposal end at any time. */
module Pool {

  const MAX_CONCURRENT_INIT := 2

  datatype Settlement = Output | TaskError | PoolError | Empty

  /** An item on a resource; done once its task has ended and the resource is not yet recycled. */
  datatype Job = Job(item: nat, done: bool)

  /** Resources and items are numbered in the order of their creation.  `accepted` counts the items that
      are scheduled before disposal. */
  datatype State = State(
    tokens: nat,
    created: nat,
    initialising: set<nat>,
    idle: seq<nat>,
    busy: map<nat, Job>,
    failed: set<nat>,
    retired: set<nat>,
    disposedResources: set<nat>,
    scheduled: nat,
    accepted: nat,
    waiting: seq<nat>,
    started: seq<nat>,
    settled: map<nat, Settlement>,
    hasFailed: bool,
    isDisposed: bool)

  const EMPTY := State(0, 0, {}, [], map[], {}, {}, {}, 0, 0, [], [], map[], false, false)

  datatype Event =
    | Token(factoryWorks: bool)
    | InitResolved(resource: nat, factoryWorks: bool)
    | InitRejected(resource: nat)
    | Schedule
    | Finish(resource: nat, succeeds: bool)
    | Recycle(resource: nat)
    | Dispose

  predicate Open(s: State) {
    !s.hasFailed && !s.isDisposed
  }

  predicate Enabled(s: State, e: Event) {
    match e
    case InitResolved(r, _) => r in s.initialising
    case InitRejected(r) => r in s.initialising
    case Finish(r, _) => r in s.busy && !s.busy[r].done
    case Recycle(r) => r in s.busy && s.busy[r].done
    case _ => true
  }

  // ----- the steps

  function UpTo(n: nat): (all: set<nat>)
    ensures forall i: nat :: i in all <==> i < n
  {
    if n == 0 then {} else UpTo(n - 1) + {n - 1}
  }

  /** Settling is final: only the first settlement of an item has an effect. */
  function Settle(settled: map<nat, Settlement>, item: nat, how: Settlement): map<nat, Settlement> {
    if item in settled then settled else settled[item := how]
  }

  function SettleAll(settled: map<nat, Settlement>, accepted: nat, how: Settlement): map<nat, Settlement> {
    map i <- settled.Keys + UpTo(accepted) :: if i in settled then settled[i] else how
  }

  lemma SettleNext(settled: map<nat, Settlement>, n: nat, how: Settlement)
    ensures Settle(SettleAll(settled, n, how), n, how) == SettleAll(settled, n + 1, how)
  {
    assert settled.Keys + UpTo(n + 1) == (settled.Keys + UpTo(n)) + {n};
  }

  lemma SettleNone(settled: map<nat, Settlement>, how: Settlement)
    ensures SettleAll(settled, 0, how) == settled
  {
  }

  /** A resource is ready: it takes the item that waits longest. */
  function Offer(s: State, r: nat): State {
    if s.waiting == [] then s.(idle := s.idle + [r])
    else s.(busy := s.busy[r := Job(s.waiting[0], false)], started := s.started + [s.waiting[0]], waiting := s.waiting[1..])
  }

  /** An item is scheduled: it takes the resource that is ready longest. */
  function Queue(s: State, item: nat): State {
    if s.idle == [] then s.(waiting := s.waiting + [item])
    else s.(busy := s.busy[s.idle[0] := Job(item, false)], started := s.started + [item], idle := s.idle[1..])
  }

  /** A resource cannot be created or initialised: all items that are not settled are rejected, and no
      token is used any more. */
  function Fail(s: State): State {
    s.(hasFailed := true, tokens := 0, waiting := [], settled := SettleAll(s.settled, s.accepted, PoolError))
  }

  function Create(s: State, factoryWorks: bool): State {
    if factoryWorks then s.(initialising := s.initialising + {s.created}, created := s.created + 1)
    else Fail(s)
  }

  function UseToken(s: State, factoryWorks: bool): State {
    if s.tokens > 0 then Create(s.(tokens := s.tokens - 1), factoryWorks) else s
  }

  function Step(s: State, e: Event): State
    requires Enabled(s, e)
  {
    match e
    case Token(works) =>
      if !Open(s) then s
      else if |s.initialising| < MAX_CONCURRENT_INIT then Create(s, works)
      else s.(tokens := s.tokens + 1)
    case InitResolved(r, works) =>
      var t := s.(initialising := s.initialising - {r});
      if Open(s) then UseToken(Offer(t, r), works) else t.(retired := s.retired + {r}, tokens := 0)
    case InitRejected(r) =>
      var t := s.(initialising := s.initialising - {r}, failed := s.failed + {r});
      if Open(s) then Fail(t) else t.(tokens := 0)
    case Schedule =>
      var t := s.(scheduled := s.scheduled + 1);
      if s.isDisposed then t
      else if s.hasFailed then t.(accepted := s.scheduled + 1, settled := Settle(s.settled, s.scheduled, PoolError))
      else Queue(t.(accepted := s.scheduled + 1), s.scheduled)
    case Finish(r, succeeds) =>
      var item := s.busy[r].item;
      s.(busy := s.busy[r := Job(item, true)],
         settled := Settle(s.settled, item, if succeeds then Output else TaskError))
    case Recycle(r) =>
      var t := s.(busy := s.busy - {r});
      if Open(s) then Offer(t, r) else t.(retired := s.retired + {r})
    case Dispose =>
      if s.isDisposed then s
      else s.(isDisposed := true, waiting := [], settled := SettleAll(s.settled, s.accepted, Empty),
              disposedResources := s.disposedResources + UpTo(s.created))
  }

  // ----- the invariant

  ghost predicate NoDuplicates(xs: seq<nat>) {
    forall i, j :: 0 <= i < j < |xs| ==> xs[i] != xs[j]
  }

  function In(b: bool): nat {
    if b then 1 else 0
  }

  /** The number of places in which a resource is. */
  function Places(s: State, r: nat): nat {
    In(r in s.initialising) + In(r in s.idle) + In(r in s.busy) + In(r in s.failed) + In(r in s.retired)
  }

  /** Every created resource is in exactly one place; the loose ones are just between two places. */
  ghost predicate Placed(s: State, loose: set<nat>) {
    && NoDuplicates(s.idle)
    && (forall r: nat :: Places(s, r) == if r < s.created && r !in loose then 1 else 0)
    && (forall r <- loose :: r < s.created)
  }

  /** At most two resources initialise at once, and tokens wait only while two do. */
  ghost predicate Throttled(s: State) {
    && |s.initialising| <= MAX_CONCURRENT_INIT
    && (s.tokens > 0 && Open(s) ==> |s.initialising| == MAX_CONCURRENT_INIT)
  }

  /** Items start in the order in which they are scheduled, and none waits while a resource idles. */
  ghost predicate InOrder(s: State) {
    && |s.started| + |s.waiting| <= s.accepted <= s.scheduled
    && (forall k :: 0 <= k < |s.started| ==> s.started[k] == k)
    && (forall k :: 0 <= k < |s.waiting| ==> s.waiting[k] == |s.started| + k)
    && (Open(s) ==> |s.started| + |s.waiting| == s.accepted && (s.idle == [] || s.waiting == []))
    && (!Open(s) ==> s.waiting == [])
    && (!s.isDisposed ==> s.accepted == s.scheduled)
  }

  /** Every item runs on at most one resource, and every started item is settled or running. */
  ghost predicate Running(s: State) {
    && (forall r <- s.busy :: s.busy[r].item < |s.started| && (s.busy[r].done ==> s.busy[r].item in s.settled))
    && (forall q, r :: q in s.busy && r in s.busy && s.busy[q].item == s.busy[r].item ==> q == r)
    && (forall i <- s.settled :: i < s.accepted)
    && (Open(s) ==> forall i <- s.settled :: i < |s.started|)
    && (Open(s) ==> forall i: nat | i < |s.started| && i !in s.settled :: Runs(s, i))
    && (!Open(s) ==> forall i: nat | i < s.accepted :: i in s.settled)
  }

  ghost predicate Runs(s: State, item: nat) {
    exists r <- s.busy :: s.busy[r] == Job(item, false)
  }

  ghost predicate Disposed(s: State) {
    && (!s.isDisposed ==> s.disposedResources == {})
    && (s.isDisposed ==> forall r: nat :: r in s.disposedResources <==> r < s.created)
  }

  ghost predicate Invariant(s: State) {
    Placed(s, {}) && Throttled(s) && InOrder(s) && Running(s) && Disposed(s)
  }

  lemma InvariantInitially()
    ensures Invariant(EMPTY)
  {
  }

  // ----- every step keeps the invariant

  lemma OfferKept(s: State, r: nat)
    requires Open(s) && Placed(s, {r}) && InOrder(s) && Running(s) && Disposed(s)
    ensures var t := Offer(s, r); Open(t) && Placed(t, {}) && InOrder(t) && Running(t) && Disposed(t)
  {
    hide Running, Placed, Runs, NoDuplicates, Places;
    OfferPlaces(s, r);
    OfferRuns(s, r);
  }

  lemma OfferPlaces(s: State, r: nat)
    requires Placed(s, {r})
    ensures Placed(Offer(s, r), {})
  {
    var t := Offer(s, r);
    assert Places(s, r) == 0;
    forall q: nat
      ensures Places(t, q) == if q < s.created then 1 else 0
    {
      assert Places(s, q) == if q < s.created && q != r then 1 else 0;
    }
  }

  /** The next item starts on a free resource. */
  lemma JobStarts(s: State, t: State, r: nat)
    requires Running(s) && r !in s.busy && Open(s) && Open(t)
    requires t.busy == s.busy[r := Job(|s.started|, false)] && t.settled == s.settled
    requires |t.started| == |s.started| + 1 && t.accepted >= s.accepted
    ensures Running(t)
  {
    assert forall q <- s.busy :: t.busy[q] == s.busy[q];
    assert t.busy[r] == Job(|s.started|, false);
    forall i: nat | i < |t.started| && i !in t.settled
      ensures Runs(t, i)
    {
      if i < |s.started| {
        assert Runs(s, i);
        var q :| q in s.busy && s.busy[q] == Job(i, false);
        assert t.busy[q] == Job(i, false);
      }
    }
  }

  lemma OfferRuns(s: State, r: nat)
    requires Open(s) && Placed(s, {r}) && InOrder(s) && Running(s)
    ensures Running(Offer(s, r))
  {
    var t := Offer(s, r);
    if s.waiting == [] {
      assert forall i: nat :: Runs(t, i) <==> Runs(s, i);
    } else {
      hide Running;
      assert Places(s, r) == 0;
      assert s.waiting[0] == |s.started|;
      JobStarts(s, t, r);
    }
  }

  lemma FailKept(s: State)
    requires Open(s) && Placed(s, {}) && InOrder(s) && Running(s) && Disposed(s)
             && |s.initialising| <= MAX_CONCURRENT_INIT
    ensures Invariant(Fail(s))
  {
  }

  lemma CreateKept(s: State, works: bool)
    requires Open(s) && Placed(s, {}) && InOrder(s) && Running(s) && Disposed(s)
             && |s.initialising| < MAX_CONCURRENT_INIT
    requires s.tokens > 0 ==> |s.initialising| == MAX_CONCURRENT_INIT - 1
    ensures Invariant(Create(s, works))
  {
    hide Placed, Running;
    if works {
      CreatePlaces(s);
      SameRunning(s, Create(s, works));
    } else {
      FailKept(s);
    }
  }

  lemma CreatePlaces(s: State)
    requires Open(s) && Placed(s, {})
    ensures Placed(Create(s, true), {}) && s.created !in s.initialising
  {
    var t := Create(s, true);
    assert Places(s, s.created) == 0;
    forall r: nat
      ensures Places(t, r) == if r < t.created then 1 else 0
    {
      assert Places(s, r) == if r < s.created then 1 else 0;
    }
  }

  lemma TokenKept(s: State, works: bool)
    requires Invariant(s)
    ensures Invariant(Step(s, Token(works)))
  {
    hide Running, Placed, Runs;
    if Open(s) {
      if |s.initialising| < MAX_CONCURRENT_INIT {
        CreateKept(s, works);
      } else {
        SameResources(s, Step(s, Token(works)));
      }
    }
  }

  /** The parts of the invariant about resources and items do not depend on the tokens. */
  lemma SameResources(s: State, t: State)
    requires t == s.(tokens := t.tokens)
    ensures Running(s) <==> Running(t)
    ensures forall loose :: Placed(s, loose) <==> Placed(t, loose)
  {
    assert forall r: nat :: Places(s, r) == Places(t, r);
    assert forall i: nat :: Runs(s, i) <==> Runs(t, i);
  }

  lemma InitResolvedKept(s: State, r: nat, works: bool)
    requires Invariant(s) && r in s.initialising
    ensures Invariant(Step(s, InitResolved(r, works)))
  {
    hide Running, Placed, Runs;
    var t := s.(initialising := s.initialising - {r});
    assert |t.initialising| == |s.initialising| - 1;
    MoveOut(s, t, r);
    if Open(s) {
      OfferKept(t, r);
      var u := Offer(t, r);
      if u.tokens > 0 {
        SameResources(u, u.(tokens := u.tokens - 1));
        CreateKept(u.(tokens := u.tokens - 1), works);
      }
    } else {
      Retire(t, t.(retired := s.retired + {r}, tokens := 0), r);
    }
  }

  /** A resource leaves the place in which it is. */
  lemma MoveOut(s: State, t: State, r: nat)
    requires Placed(s, {}) && Running(s)
    requires (r in s.initialising && t == s.(initialising := s.initialising - {r}))
             || (r in s.busy && s.busy[r].done && t == s.(busy := s.busy - {r}))
    ensures Placed(t, {r}) && Running(t)
  {
    hide Running, Runs, NoDuplicates;
    assert Places(s, r) == if r < s.created then 1 else 0;
    forall q: nat
      ensures Places(t, q) == if q < s.created && q != r then 1 else 0
    {
      assert Places(s, q) == if q < s.created then 1 else 0;
    }
    assert Running(t) by {
      if r in s.initialising {
        SameRunning(s, t);
      } else {
        DoneLeaves(s, t, r);
      }
    }
  }

  lemma SameRunning(s: State, t: State)
    requires Running(s) && t.busy == s.busy && t.started == s.started && t.settled == s.settled
             && t.accepted == s.accepted
    requires t.hasFailed == s.hasFailed && t.isDisposed == s.isDisposed
    ensures Running(t)
  {
    assert forall i: nat :: Runs(t, i) <==> Runs(s, i);
  }

  lemma DoneLeaves(s: State, t: State, r: nat)
    requires Running(s) && r in s.busy && s.busy[r].done && t == s.(busy := s.busy - {r})
    ensures Running(t)
  {
    forall i: nat | Runs(s, i)
      ensures Runs(t, i)
    {
      var q :| q in s.busy && s.busy[q] == Job(i, false);
      assert t.busy[q] == Job(i, false);
    }
  }

  lemma Retire(s: State, t: State, r: nat)
    requires Placed(s, {r}) && Running(s) && !Open(s)
    requires t == s.(retired := s.retired + {r}, tokens := t.tokens) || t == s.(failed := s.failed + {r}, tokens := t.tokens)
    ensures Placed(t, {}) && Running(t)
  {
    assert Places(s, r) == 0;
    forall q: nat
      ensures Places(t, q) == if q < s.created then 1 else 0
    {
      assert Places(s, q) == if q < s.created && q != r then 1 else 0;
    }
  }

  lemma InitRejectedKept(s: State, r: nat)
    requires Invariant(s) && r in s.initialising
    ensures Invariant(Step(s, InitRejected(r)))
  {
    hide Running, Placed, Runs;
    var t := s.(initialising := s.initialising - {r});
    var u := t.(failed := s.failed + {r});
    assert |t.initialising| == |s.initialising| - 1;
    MoveOut(s, t, r);
    if Open(s) {
      Fails(t, r);
      FailKept(u);
    } else {
      Retire(t, u.(tokens := 0), r);
    }
  }

  lemma Fails(s: State, r: nat)
    requires Placed(s, {r}) && Running(s)
    ensures var t := s.(failed := s.failed + {r}); Placed(t, {}) && Running(t)
  {
    var t := s.(failed := s.failed + {r});
    assert Places(s, r) == 0;
    forall q: nat
      ensures Places(t, q) == if q < s.created then 1 else 0
    {
      assert Places(s, q) == if q < s.created && q != r then 1 else 0;
    }
    assert forall i: nat :: Runs(t, i) <==> Runs(s, i);
  }

  lemma ScheduleKept(s: State)
    requires Invariant(s)
    ensures Invariant(Step(s, Schedule))
  {
    hide Running, Placed, Runs;
    var t := Step(s, Schedule);
    if s.isDisposed {
      SameItems(s, t);
    } else if s.hasFailed {
      RejectsNew(s, t);
    } else if s.idle == [] {
      SameItems(s, t);
    } else {
      QueueRuns(s);
    }
  }

  lemma SameItems(s: State, t: State)
    requires Placed(s, {}) && Running(s) && InOrder(s)
    requires s.isDisposed || (Open(s) && s.idle == [])
    requires t == Step(s, Schedule)
    ensures Placed(t, {}) && Running(t)
  {
    assert forall r: nat :: Places(s, r) == Places(t, r);
    assert forall i: nat :: Runs(s, i) <==> Runs(t, i);
  }

  lemma RejectsNew(s: State, t: State)
    requires Placed(s, {}) && Running(s) && InOrder(s) && s.hasFailed && !s.isDisposed
    requires t == Step(s, Schedule)
    ensures Placed(t, {}) && Running(t)
  {
    assert forall r: nat :: Places(s, r) == Places(t, r);
  }

  /** The item is paired with the resource that is ready longest. */
  lemma QueueRuns(s: State)
    requires Placed(s, {}) && Running(s) && InOrder(s) && Open(s) && s.idle != []
    ensures var t := Step(s, Schedule); Placed(t, {}) && Running(t)
  {
    hide Running;
    var t := Step(s, Schedule);
    var r := s.idle[0];
    assert Places(s, r) == if r < s.created then 1 else 0;
    forall q: nat
      ensures Places(t, q) == if q < s.created then 1 else 0
    {
      assert Places(s, q) == if q < s.created then 1 else 0;
      assert q in s.idle <==> q == r || q in s.idle[1..];
    }
    assert r !in s.busy;
    JobStarts(s, t, r);
  }

  lemma FinishKept(s: State, r: nat, succeeds: bool)
    requires Invariant(s) && r in s.busy && !s.busy[r].done
    ensures Invariant(Step(s, Finish(r, succeeds)))
  {
    hide Placed, Places, Running, Runs;
    FinishRunning(s, r, succeeds);
    SamePlaces(s, Step(s, Finish(r, succeeds)));
  }

  lemma FinishRunning(s: State, r: nat, succeeds: bool)
    requires Running(s) && InOrder(s) && r in s.busy && !s.busy[r].done
    ensures Running(Step(s, Finish(r, succeeds)))
  {
    var t := Step(s, Finish(r, succeeds));
    var item := s.busy[r].item;
    forall i: nat | Runs(s, i) && i != item
      ensures Runs(t, i)
    {
      var q :| q in s.busy && s.busy[q] == Job(i, false);
      assert t.busy[q] == Job(i, false);
    }
  }

  lemma SamePlaces(s: State, t: State)
    requires Placed(s, {}) && t.created == s.created && t.initialising == s.initialising && t.idle == s.idle
    requires t.busy.Keys == s.busy.Keys && t.failed == s.failed && t.retired == s.retired
    ensures Placed(t, {})
  {
    assert forall r: nat :: Places(s, r) == Places(t, r);
  }

  lemma RecycleKept(s: State, r: nat)
    requires Invariant(s) && r in s.busy && s.busy[r].done
    ensures Invariant(Step(s, Recycle(r)))
  {
    hide Running, Placed, Runs;
    var t := s.(busy := s.busy - {r});
    MoveOut(s, t, r);
    if Open(s) {
      OfferKept(t, r);
    } else {
      Retire(t, t.(retired := s.retired + {r}), r);
    }
  }

  lemma DisposeInOrder(s: State)
    requires InOrder(s)
    ensures InOrder(Step(s, Dispose))
  {
  }

  lemma DisposeKept(s: State)
    requires Invariant(s)
    ensures Invariant(Step(s, Dispose))
  {
    hide Placed, Runs, InOrder;
    SamePlaces(s, Step(s, Dispose));
    assert InOrder(Step(s, Dispose)) by {
      DisposeInOrder(s);
    }
  }

  /** Every step keeps the invariant. */
  lemma InvariantKept(s: State, e: Event)
    requires Invariant(s) && Enabled(s, e)
    ensures Invariant(Step(s, e))
  {
    hide Invariant, Step;
    match e
    case Token(works) => TokenKept(s, works);
    case InitResolved(r, works) => InitResolvedKept(s, r, works);
    case InitRejected(r) => InitRejectedKept(s, r);
    case Schedule => ScheduleKept(s);
    case Finish(r, succeeds) => FinishKept(s, r, succeeds);
    case Recycle(r) => RecycleKept(s, r);
    case Dispose => DisposeKept(s);
  }

  // ----- whole runs

  predicate IsRun(s: State, es: seq<Event>)
    decreases |es|
  {
    es == [] || (Enabled(s, es[0]) && IsRun(Step(s, es[0]), es[1..]))
  }

  function After(s: State, es: seq<Event>): State
    requires IsRun(s, es)
    decreases |es|
  {
    if es == [] then s else After(Step(s, es[0]), es[1..])
  }

  /** In every interleaving of events, the invariant holds and no settlement is ever changed. */
  lemma {:induction false} EveryRunKeeps(s: State, es: seq<Event>)
    requires Invariant(s) && IsRun(s, es)
    ensures Invariant(After(s, es))
    ensures forall i <- s.settled :: i in After(s, es).settled && After(s, es).settled[i] == s.settled[i]
    ensures s.started <= After(s, es).started
    ensures s.isDisposed ==> After(s, es).created == s.created && After(s, es).started == s.started
                             && After(s, es).settled.Keys == s.settled.Keys
    decreases |es|
  {
    hide Invariant, Step, Enabled;
    if es != [] {
      InvariantKept(s, es[0]);
      StepGrows(s, es[0]);
      EveryRunKeeps(Step(s, es[0]), es[1..]);
    }
  }

  lemma StepGrows(s: State, e: Event)
    requires Invariant(s) && Enabled(s, e)
    ensures forall i <- s.settled :: i in Step(s, e).settled && Step(s, e).settled[i] == s.settled[i]
    ensures s.started <= Step(s, e).started
    ensures s.isDisposed ==> Step(s, e).isDisposed && Step(s, e).created == s.created && Step(s, e).started == s.started
                             && Step(s, e).settled.Keys == s.settled.Keys
  {
    hide Placed, Runs, Throttled;
  }

  /** What holds after every run of a new pool, in the terms of its users. */
  lemma {:induction false} PoolIsSafe(es: seq<Event>)
    requires IsRun(EMPTY, es)
    ensures var s := After(EMPTY, es);
            && (forall r: nat :: Places(s, r) == if r < s.created then 1 else 0)
            && |s.initialising| <= 2 && (s.tokens > 0 && Open(s) ==> |s.initialising| == 2)
            && (forall k :: 0 <= k < |s.started| ==> s.started[k] == k)
            && (forall q, r :: q in s.busy && r in s.busy && s.busy[q].item == s.busy[r].item ==> q == r)
            && (Open(s) ==> s.idle == [] || s.waiting == [])
            && (!Open(s) ==> forall i: nat | i < s.accepted :: i in s.settled)
            && (s.isDisposed ==> forall r: nat :: r in s.disposedResources <==> r < s.created)
            && (forall i: nat | s.accepted <= i :: i !in s.settled)
  {
    hide Step, Enabled;
    InvariantInitially();
    EveryRunKeeps(EMPTY, es);
  }

  /** Nothing gets stuck: with a resource, and with nothing in progress, every item is settled. */
  lemma NothingIsStuck(s: State, i: nat)
    requires Invariant(s) && Open(s) && s.busy == map[] && s.idle != [] && i < s.scheduled
    ensures i in s.settled
  {
    assert i in s.settled || Runs(s, i);
  }

  /** An item that is scheduled after disposal is never settled, however the run goes on. */
  lemma {:induction false} ScheduledTooLate(s: State, es: seq<Event>)
    requires Invariant(s) && s.isDisposed && IsRun(Step(s, Schedule), es)
    ensures s.scheduled !in After(Step(s, Schedule), es).settled
  {
    InvariantKept(s, Schedule);
    EveryRunKeeps(Step(s, Schedule), es);
  }

  // ----- which settlement an item gets

  /** The task of the item ends on its resource. */
  ghost predicate Ends(s: State, e: Event, item: nat, succeeds: bool) {
    e.Finish? && e.succeeds == succeeds && e.resource in s.busy && s.busy[e.resource].item == item
  }

  /** A resource cannot be created or initialised while the pool is in use. */
  ghost predicate Breaks(s: State, e: Event) {
    && !s.hasFailed && !s.isDisposed
    && match e
       case Token(factoryWorks) => !factoryWorks && |s.initialising| < 2
       case InitResolved(_, factoryWorks) => !factoryWorks && s.tokens > 0
       case InitRejected(_) => true
       case _ => false
  }

  /** The event that settles an item which is not settled: the end of its own task, a failure of the pool,
      scheduling it on a pool that has failed, or the disposal. */
  ghost predicate Settles(s: State, e: Event, item: nat, how: Settlement) {
    match how
    case Output => Ends(s, e, item, true)
    case TaskError => Ends(s, e, item, false)
    case PoolError => (Breaks(s, e) && item < s.accepted)
                      || (e.Schedule? && s.hasFailed && !s.isDisposed && item == s.scheduled)
    case Empty => e.Dispose? && !s.isDisposed && item < s.accepted
  }

  lemma SettlesIff(s: State, e: Event, item: nat, how: Settlement)
    requires Enabled(s, e) && item !in s.settled
    ensures item in Step(s, e).settled && Step(s, e).settled[item] == how <==> Settles(s, e, item, how)
  {
  }

  /** The first event that settles the item settles it in this way. */
  ghost predicate FirstSettled(s: State, es: seq<Event>, item: nat, how: Settlement)
    requires IsRun(s, es)
    decreases |es|
  {
    && es != []
    && (|| Settles(s, es[0], item, how)
        || ((forall other :: !Settles(s, es[0], item, other)) && FirstSettled(Step(s, es[0]), es[1..], item, how)))
  }

  /** In every run the settlement of an item is that of the first event that settles it, and it is settled
      only by such an event. */
  lemma {:induction false} SettledByFirst(s: State, es: seq<Event>, item: nat, how: Settlement)
    requires Invariant(s) && IsRun(s, es) && item !in s.settled
    ensures item in After(s, es).settled && After(s, es).settled[item] == how <==> FirstSettled(s, es, item, how)
    decreases |es|
  {
    hide Invariant, Step, Enabled, Settles;
    if es != [] {
      InvariantKept(s, es[0]);
      forall other
        ensures var t := Step(s, es[0]);
                item in t.settled && t.settled[item] == other <==> Settles(s, es[0], item, other)
      {
        SettlesIff(s, es[0], item, other);
      }
      if item in Step(s, es[0]).settled {
        EveryRunKeeps(Step(s, es[0]), es[1..]);
        assert Settles(s, es[0], item, Step(s, es[0]).settled[item]);
      } else {
        SettledByFirst(Step(s, es[0]), es[1..], item, how);
      }
    }
  }

  /** How many tokens arrive. */
  function Tokens(es: seq<Event>): nat {
    multiset(es)[Token(true)] + multiset(es)[Token(false)]
  }

  /** In a pool that is in use every token has led to a resource or waits, and every resource works. */
  lemma {:induction false} TokensAreUsed(s: State, es: seq<Event>)
    requires IsRun(s, es) && Open(After(s, es)) && s.failed == {} && s.retired == {}
    ensures var t := After(s, es);
            t.created + t.tokens == s.created + s.tokens + Tokens(es) && t.failed == {} && t.retired == {}
    decreases |es|
  {
    hide Step, Enabled;
    if es != [] {
      assert es == [es[0]] + es[1..];
      assert Open(Step(s, es[0])) by {
        OpenBefore(Step(s, es[0]), es[1..]);
      }
      TokenIsUsed(s, es[0]);
      TokensAreUsed(Step(s, es[0]), es[1..]);
    }
  }

  lemma TokenIsUsed(s: State, e: Event)
    requires Enabled(s, e) && Open(Step(s, e))
    ensures var t := Step(s, e);
            t.created + t.tokens == s.created + s.tokens + (if e.Token? then 1 else 0)
            && t.failed == s.failed && t.retired == s.retired
  {
  }

  lemma {:induction false} OpenBefore(s: State, es: seq<Event>)
    requires IsRun(s, es) && Open(After(s, es))
    ensures Open(s)
    decreases |es|
  {
    hide Step, Enabled;
    if es != [] {
      OpenBefore(Step(s, es[0]), es[1..]);
      OnlyOpensOnce(s, es[0]);
    }
  }

  lemma OnlyOpensOnce(s: State, e: Event)
    requires Enabled(s, e) && Open(Step(s, e))
    ensures Open(s)
  {
  }

  /** A pool with a token does all its work: once it comes to rest, it has a ready resource for every token,
      and every item that was scheduled is settled by the end of its own task. */
  lemma {:induction false} PoolDoesItsWork(es: seq<Event>)
    requires IsRun(EMPTY, es)
    requires var s := After(EMPTY, es); Open(s) && s.busy == map[] && s.initialising == {}
    ensures var s := After(EMPTY, es);
            && |s.idle| == Tokens(es)
            && (Tokens(es) > 0 ==> forall item: nat | item < s.scheduled ::
                  item in s.settled && (s.settled[item].Output? || s.settled[item].TaskError?))
  {
    hide Step, Enabled;
    var s := After(EMPTY, es);
    InvariantInitially();
    EveryRunKeeps(EMPTY, es);
    TokensAreUsed(EMPTY, es);
    AllIdle(s);
    forall item: nat | Tokens(es) > 0 && item < s.scheduled
      ensures item in s.settled && (s.settled[item].Output? || s.settled[item].TaskError?)
    {
      NothingIsStuck(s, item);
      OpenSettlements(EMPTY, es, item);
    }
  }

  lemma AllIdle(s: State)
    requires Invariant(s) && s.busy == map[] && s.initialising == {} && s.failed == {} && s.retired == {}
    ensures |s.idle| == s.created
  {
    hide InOrder, Running, Throttled, Disposed;
    forall r: nat
      ensures r in s.idle <==> r < s.created
    {
      assert Places(s, r) == if r < s.created then 1 else 0;
    }
    LengthOfAll(s.idle, s.created);
  }

  /** A list of all numbers below `n`, each once, has length `n`. */
  lemma {:induction false} LengthOfAll(xs: seq<nat>, n: nat)
    requires NoDuplicates(xs) && forall r: nat :: r in xs <==> r < n
    ensures |xs| == n
    decreases n
  {
    if xs == [] {
      assert n > 0 ==> n - 1 in xs;
    } else {
      assert xs[0] in xs;
      assert n - 1 in xs;
      var k :| 0 <= k < |xs| && xs[k] == n - 1;
      var rest := xs[..k] + xs[k + 1..];
      forall r: nat
        ensures r in rest <==> r < n - 1
      {
        assert r in xs <==> r < n;
        assert xs == xs[..k] + [xs[k]] + xs[k + 1..];
      }
      LengthOfAll(rest, n - 1);
    }
  }

  /** No item of a pool in use is settled otherwise than by its task. */
  lemma {:induction false} OpenSettlements(s: State, es: seq<Event>, item: nat)
    requires IsRun(s, es) && Open(After(s, es)) && item in After(s, es).settled
    requires item in s.settled ==> s.settled[item].Output? || s.settled[item].TaskError?
    ensures After(s, es).settled[item].Output? || After(s, es).settled[item].TaskError?
    decreases |es|
  {
    hide Step, Enabled;
    if es != [] {
      OpenBefore(Step(s, es[0]), es[1..]);
      OpenStepSettles(s, es[0], item);
      OpenSettlements(Step(s, es[0]), es[1..], item);
    }
  }

  lemma OpenStepSettles(s: State, e: Event, item: nat)
    requires Enabled(s, e) && Open(Step(s, e))
    requires item in s.settled ==> s.settled[item].Output? || s.settled[item].TaskError?
    ensures var t := Step(s, e).settled; item in t ==> t[item].Output? || t[item].TaskError?
  {
  }

  // ----- the class

  class Pool {
    var tokens: nat
    var createdResources: nat
    var initialising: set<nat>
    var readyResources: seq<nat>
    var ongoing: map<nat, Job>
    var failedResources: set<nat>
    var retired: set<nat>
    var disposedResources: set<nat>
    var scheduled: nat
    var todo: nat
    var waiting: seq<nat>
    ghost var started: seq<nat>
    var results: map<nat, Settlement>
    var hasFailed: bool
    var isDisposed: bool

    ghost function Abstraction(): State
      reads this
    {
      State(tokens, createdResources, initialising, readyResources, ongoing, failedResources, retired, disposedResources,
            scheduled, todo, waiting, started, results, hasFailed, isDisposed)
    }

    constructor ()
      ensures Abstraction() == EMPTY
    {
      tokens, createdResources, scheduled, todo := 0, 0, 0, 0;
      initialising, failedResources, retired, disposedResources := {}, {}, {}, {};
      readyResources, waiting, started := [], [], [];
      ongoing, results := map[], map[];
      hasFailed, isDisposed := false, false;
    }

    /** The `zip` of ready resources and scheduled items. */
    method ResourceReady(resource: nat)
      modifies this
      ensures Abstraction() == Offer(old(Abstraction()), resource)
    {
      if waiting == [] {
        readyResources := readyResources + [resource];
      } else {
        Execute(resource, waiting[0]);
        waiting := waiting[1..];
      }
    }

    method Execute(resource: nat, item: nat)
      modifies this
      ensures Abstraction() == old(Abstraction()).(busy := old(ongoing)[resource := Job(item, false)], started := old(started) + [item])
    {
      ongoing := ongoing[resource := Job(item, false)];
      started := started + [item];
    }

    /** The error handler of the stream of ongoing work: reject every item that is not settled yet. */
    method RejectAll()
      modifies this
      ensures Abstraction() == Fail(old(Abstraction()))
    {
      hasFailed := true;
      tokens := 0;
      waiting := [];
      SettleTodo(PoolError);
    }

    /** Replay all scheduled items, also those picked up earlier. */
    method SettleTodo(how: Settlement)
      modifies this`results
      ensures Abstraction() == old(Abstraction()).(settled := SettleAll(old(results), old(todo), how))
    {
      hide SettleAll, Settle;
      SettleNone(results, how);
      for i := 0 to todo
        invariant Abstraction() == old(Abstraction()).(settled := results)
        invariant results == SettleAll(old(results), i, how)
      {
        SettleNext(old(results), i, how);
        results := Settle(results, i, how);
      }
    }

    method CreateResource(factoryWorks: bool)
      modifies this
      ensures Abstraction() == Create(old(Abstraction()), factoryWorks)
    {
      if factoryWorks {
        initialising := initialising + {createdResources};
        createdResources := createdResources + 1;
      } else {
        RejectAll();
      }
    }

    method OnToken(factoryWorks: bool)
      modifies this
      ensures Abstraction() == Step(old(Abstraction()), Token(factoryWorks))
    {
      if hasFailed || isDisposed {
        return;
      }
      if |initialising| < MAX_CONCURRENT_INIT {
        CreateResource(factoryWorks);
      } else {
        tokens := tokens + 1;
      }
    }

    method OnInitResolved(resource: nat, factoryWorks: bool)
      requires resource in initialising
      modifies this
      ensures Abstraction() == Step(old(Abstraction()), InitResolved(resource, factoryWorks))
      ensures old(Open(Abstraction()) && waiting != []) ==>
                resource in ongoing && ongoing[resource] == Job(old(waiting)[0], false) && waiting <= old(waiting)[1..]
      ensures old(Open(Abstraction()) && waiting == []) ==> readyResources == old(readyResources) + [resource]
      ensures old(Open(Abstraction()) && tokens > 0) && factoryWorks ==>
                tokens == old(tokens) - 1 && createdResources == old(createdResources) + 1
    {
      initialising := initialising - {resource};
      if hasFailed || isDisposed {
        retired := retired + {resource};
        tokens := 0;
        return;
      }
      ResourceReady(resource);
      if tokens > 0 {
        tokens := tokens - 1;
        CreateResource(factoryWorks);
      }
    }

    method OnInitRejected(resource: nat)
      requires resource in initialising
      modifies this
      ensures Abstraction() == Step(old(Abstraction()), InitRejected(resource))
      ensures old(Open(Abstraction())) ==> hasFailed && waiting == [] && tokens == 0
      ensures old(Open(Abstraction())) ==> forall i: nat | i < todo && i !in old(results) ::
                  i in results && results[i] == PoolError
    {
      initialising := initialising - {resource};
      failedResources := failedResources + {resource};
      if hasFailed || isDisposed {
        tokens := 0;
      } else {
        RejectAll();
      }
    }

    method Schedule() returns (item: nat)
      modifies this
      ensures item == old(scheduled)
      ensures Abstraction() == Step(old(Abstraction()), Event.Schedule)
      ensures old(Open(Abstraction()) && readyResources == []) ==> waiting == old(waiting) + [item]
      ensures old(Open(Abstraction()) && readyResources != []) ==>
                readyResources == old(readyResources)[1..]
                && ongoing == old(ongoing)[old(readyResources)[0] := Job(item, false)]
      ensures old(isDisposed) ==> results == old(results) && ongoing == old(ongoing) && waiting == old(waiting)
    {
      item := scheduled;
      scheduled := scheduled + 1;
      if isDisposed {
        return;
      }
      todo := scheduled;
      if hasFailed {
        results := Settle(results, item, PoolError);
      } else if readyResources == [] {
        waiting := waiting + [item];
      } else {
        Execute(readyResources[0], item);
        readyResources := readyResources[1..];
      }
    }

    method OnFinish(resource: nat, succeeds: bool)
      requires resource in ongoing && !ongoing[resource].done
      modifies this
      ensures Abstraction() == Step(old(Abstraction()), Finish(resource, succeeds))
      ensures ongoing == old(ongoing)[resource := Job(old(ongoing[resource].item), true)]
      ensures old(ongoing[resource].item !in results) ==>
                results == old(results)[old(ongoing[resource].item) := if succeeds then Output else TaskError]
    {
      var item := ongoing[resource].item;
      results := Settle(results, item, if succeeds then Output else TaskError);
      ongoing := ongoing[resource := Job(item, true)];
    }

    method OnRecycle(resource: nat)
      requires resource in ongoing && ongoing[resource].done
      modifies this
      ensures Abstraction() == Step(old(Abstraction()), Recycle(resource))
      ensures old(Open(Abstraction()) && waiting != []) ==>
                ongoing == old(ongoing)[resource := Job(old(waiting)[0], false)] && waiting == old(waiting)[1..]
      ensures old(Open(Abstraction()) && waiting == []) ==>
                ongoing == old(ongoing) - {resource} && readyResources == old(readyResources) + [resource]
    {
      ongoing := ongoing - {resource};
      if hasFailed || isDisposed {
        retired := retired + {resource};
      } else {
        ResourceReady(resource);
      }
    }

    method Dispose()
      modifies this
      ensures Abstraction() == Step(old(Abstraction()), Event.Dispose)
      ensures isDisposed && (old(isDisposed) ==> results == old(results))
      ensures !old(isDisposed) ==> forall i: nat | i < todo && i !in old(results) :: i in results && results[i] == Empty
      ensures !old(isDisposed) ==> forall r: nat | r < createdResources :: r in disposedResources
    {
      if isDisposed {
        return;
      }
      isDisposed := true;
      waiting := [];
      SettleTodo(Empty);
      DisposeCreated();
    }

    method DisposeCreated()
      modifies this`disposedResources
      ensures disposedResources == old(disposedResources) + UpTo(createdResources)
    {
      for r := 0 to createdResources
        invariant disposedResources == old(disposedResources) + UpTo(r)
      {
        disposedResources := disposedResources + {r};
      }
    }
  }
}
