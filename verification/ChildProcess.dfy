/** Calls to an object in a child process: the parent with its pending tasks, the worker, and the two
    message queues between them, in every interleaving. */
module ChildProcess {
  import opened Options

  // ----- the messages

  /** What the worker computed, with the request for which it did. */
  datatype Answer = Answer(request: string, value: string)

  datatype WorkerMessage = Init | Call(correlationId: nat, request: string) | Dispose

  datatype ParentMessage =
    | Ready
    | Initialized
    | InitError
    | CallResult(correlationId: nat, answer: Answer)
    | CallRejection(correlationId: nat)
    | DisposeCompleted

  // ----- the parent

  datatype Error = InitFailed | Crashed | ProcessError | FromWorker

  datatype InitTask = Pending | Resolved | Rejected(error: Error)

  datatype Settlement = Success(answer: Answer) | Failure(error: Error)

  /** `calls` and `settled` are the promises that were handed out; `unsent` are the calls that still wait
      for the init task. */
  datatype Parent = Parent(
    initTask: InitTask,
    fatalError: Option<Error>,
    workerTasks: set<nat>,
    workerTaskCounter: nat,
    calls: map<nat, string>,
    settled: map<nat, Settlement>,
    unsent: set<nat>,
    isDisposed: bool,
    listensToClose: bool,
    refused: nat,
    unknownReplies: nat)

  const NEW_PARENT := Parent(Pending, None, {}, 0, map[], map[], {}, false, true, 0, 0)

  /** Only the first settlement of a promise counts. */
  function Settle(settled: map<nat, Settlement>, id: nat, how: Settlement): map<nat, Settlement> {
    if id in settled then settled else settled[id := how]
  }

  function SettleAll(settled: map<nat, Settlement>, ids: set<nat>, how: Settlement): map<nat, Settlement> {
    map id <- settled.Keys + ids :: if id in settled then settled[id] else how
  }

  lemma SettleMore(settled: map<nat, Settlement>, ids: set<nat>, id: nat, how: Settlement)
    ensures Settle(SettleAll(settled, ids, how), id, how) == SettleAll(settled, ids + {id}, how)
  {
    if id in SettleAll(settled, ids, how) {
      assert settled.Keys + (ids + {id}) == settled.Keys + ids;
    } else {
      assert settled.Keys + (ids + {id}) == (settled.Keys + ids) + {id};
    }
  }

  lemma SettleNone(settled: map<nat, Settlement>, how: Settlement)
    ensures SettleAll(settled, {}, how) == settled
  {
  }

  /** `reportError` */
  function Report(p: Parent, e: Error): Parent {
    p.(settled := SettleAll(p.settled, p.workerTasks, Failure(e)),
       initTask := if p.initTask.Pending? then Rejected(e) else p.initTask)
  }

  function ForwardCall(p: Parent, request: string): Parent {
    if p.fatalError.Some? then p.(refused := p.refused + 1)
    else
      p.(workerTaskCounter := p.workerTaskCounter + 1,
         calls := p.calls[p.workerTaskCounter := request],
         workerTasks := p.workerTasks + {p.workerTaskCounter},
         unsent := p.unsent + {p.workerTaskCounter})
  }

  /** The continuation of a call on the init task. */
  function Flush(p: Parent, id: nat): (Parent, seq<WorkerMessage>)
    requires id in p.unsent && id in p.calls && !p.initTask.Pending?
  {
    var q := p.(unsent := p.unsent - {id});
    if p.initTask.Resolved? then (q, [Call(id, p.calls[id])])
    else (q.(settled := Settle(p.settled, id, Failure(p.initTask.error))), [])
  }

  function DisposeParent(p: Parent): (Parent, seq<WorkerMessage>) {
    if p.isDisposed then (p, []) else (p.(isDisposed := true, listensToClose := false), [Dispose])
  }

  function Reply(p: Parent, id: nat, how: Settlement): Parent {
    if id !in p.workerTasks then p.(unknownReplies := p.unknownReplies + 1)
    else p.(settled := Settle(p.settled, id, how), workerTasks := p.workerTasks - {id})
  }

  function OnMessage(p: Parent, m: ParentMessage): (Parent, seq<WorkerMessage>) {
    match m
    case Ready => (p, [Init])
    case Initialized => (p.(initTask := if p.initTask.Pending? then Resolved else p.initTask), [])
    case CallResult(id, answer) => (Reply(p, id, Success(answer)), [])
    case CallRejection(id) => (Reply(p, id, Failure(FromWorker)), [])
    case DisposeCompleted => (p, [])
    case InitError => DisposeParent(Report(p.(fatalError := Some(InitFailed)), InitFailed))
  }

  function UnexpectedExit(p: Parent): Parent {
    Report(p.(isDisposed := true, fatalError := Some(Crashed)), Crashed)
  }

  // ----- the worker

  datatype Phase = Forked | Started | Initialising | Initialised | NotInitialised

  datatype Worker = Worker(phase: Phase, running: map<nat, string>, exited: bool)

  const NEW_WORKER := Worker(Forked, map[], false)

  /** A call without the real subject fails, and is answered with a rejection. */
  function HandleWorkerMessage(w: Worker, m: WorkerMessage): (Worker, seq<ParentMessage>) {
    match m
    case Init => (w.(phase := Initialising), [])
    case Call(id, request) =>
      if w.phase.Initialised? then (w.(running := w.running[id := request]), []) else (w, [CallRejection(id)])
    case Dispose => (w, [DisposeCompleted])
  }

  function InitEnds(w: Worker, works: bool): (Worker, seq<ParentMessage>) {
    if works then (w.(phase := Initialised), [Initialized]) else (w.(phase := NotInitialised), [InitError])
  }

  function CallEnds(w: Worker, id: nat, value: Option<string>): (Worker, seq<ParentMessage>)
    requires id in w.running
  {
    (w.(running := w.running - {id}),
     [match value case Some(v) => CallResult(id, Answer(w.running[id], v)) case None => CallRejection(id)])
  }

  // ----- the system

  datatype System = System(parent: Parent, worker: Worker, toWorker: seq<WorkerMessage>, toParent: seq<ParentMessage>)

  const NEW_SYSTEM := System(NEW_PARENT, NEW_WORKER, [], [])

  datatype Event =
    | Forward(request: string)
    | FlushCall(id: nat)
    | DeliverToParent
    | Close
    | ErrorEvent
    | DisposeProxy
    | Start
    | DeliverToWorker
    | InitDone(works: bool)
    | CallDone(id: nat, value: Option<string>)
    | Exit

  predicate Enabled(s: System, e: Event) {
    match e
    case Forward(_) => true
    case FlushCall(id) => id in s.parent.unsent && id in s.parent.calls && !s.parent.initTask.Pending?
    case DeliverToParent => s.toParent != []
    case Close => s.worker.exited && s.parent.listensToClose
    case ErrorEvent => true
    case DisposeProxy => true
    case Start => !s.worker.exited && s.worker.phase.Forked?
    case DeliverToWorker => !s.worker.exited && s.toWorker != []
    case InitDone(_) => !s.worker.exited && s.worker.phase.Initialising?
    case CallDone(id, _) => !s.worker.exited && id in s.worker.running
    case Exit => true
  }

  function Step(s: System, e: Event): System
    requires Enabled(s, e)
  {
    match e
    case Forward(request) => s.(parent := ForwardCall(s.parent, request))
    case FlushCall(id) =>
      var (p, sent) := Flush(s.parent, id);
      s.(parent := p, toWorker := s.toWorker + sent)
    case DeliverToParent =>
      var (p, sent) := OnMessage(s.parent, s.toParent[0]);
      s.(parent := p, toParent := s.toParent[1..], toWorker := s.toWorker + sent)
    case Close => s.(parent := UnexpectedExit(s.parent))
    case ErrorEvent => s.(parent := Report(s.parent, ProcessError))
    case DisposeProxy =>
      var (p, sent) := DisposeParent(s.parent);
      s.(parent := p, toWorker := s.toWorker + sent)
    case Start => s.(worker := s.worker.(phase := Started), toParent := s.toParent + [Ready])
    case DeliverToWorker =>
      var (w, sent) := HandleWorkerMessage(s.worker, s.toWorker[0]);
      s.(worker := w, toWorker := s.toWorker[1..], toParent := s.toParent + sent)
    case InitDone(works) =>
      var (w, sent) := InitEnds(s.worker, works);
      s.(worker := w, toParent := s.toParent + sent)
    case CallDone(id, value) =>
      var (w, sent) := CallEnds(s.worker, id, value);
      s.(worker := w, toParent := s.toParent + sent)
    case Exit => s.(worker := s.worker.(exited := true))
  }

  // ----- the invariant

  function Count<T>(ms: seq<T>, p: T -> bool): nat {
    if ms == [] then 0 else Count(ms[..|ms| - 1], p) + (if p(ms[|ms| - 1]) then 1 else 0)
  }

  lemma {:induction false} CountSnoc<T>(ms: seq<T>, m: T, p: T -> bool)
    ensures Count(ms + [m], p) == Count(ms, p) + (if p(m) then 1 else 0)
  {
    assert (ms + [m])[..|ms|] == ms;
  }

  lemma {:induction false} CountHead<T>(ms: seq<T>, p: T -> bool)
    requires ms != []
    ensures Count(ms, p) == (if p(ms[0]) then 1 else 0) + Count(ms[1..], p)
    decreases |ms|
  {
    if |ms| > 1 {
      CountHead(ms[..|ms| - 1], p);
      assert ms[..|ms| - 1][1..] == ms[1..][..|ms| - 2];
    }
  }

  function CallOf(id: nat): WorkerMessage -> bool {
    (m: WorkerMessage) => m.Call? && m.correlationId == id
  }

  function ReplyTo(id: nat): ParentMessage -> bool {
    (m: ParentMessage) => (m.CallResult? || m.CallRejection?) && m.correlationId == id
  }

  function One(b: bool): nat {
    if b then 1 else 0
  }

  /** In how many places a call is: waiting for the init task, on its way, executed, or on its way back. */
  function Flights(s: System, id: nat): nat {
    One(id in s.parent.unsent) + Count(s.toWorker, CallOf(id)) + One(id in s.worker.running) + Count(s.toParent, ReplyTo(id))
  }

  ghost predicate Numbered(p: Parent) {
    && (forall id: nat :: id in p.calls <==> id < p.workerTaskCounter)
    && p.workerTasks <= p.calls.Keys && p.unsent <= p.calls.Keys && p.settled.Keys <= p.calls.Keys
  }

  /** A call that is not settled is in exactly one place, and a call in flight has a task for its reply. */
  ghost predicate Flying(s: System) {
    && s.parent.unknownReplies == 0
    && (forall id: nat :: Flights(s, id) <= 1)
    && (forall id: nat :: Flights(s, id) == 1 ==> id in s.parent.workerTasks)
    && (forall id <- s.parent.calls :: id !in s.parent.settled ==> Flights(s, id) == 1)
  }

  /** Every message about a call is about the request of that call. */
  ghost predicate Faithful(s: System) {
    && (forall m <- s.toWorker :: m.Call? ==> m.correlationId in s.parent.calls && s.parent.calls[m.correlationId] == m.request)
    && (forall id <- s.worker.running :: id in s.parent.calls && s.parent.calls[id] == s.worker.running[id])
    && (forall m <- s.toParent :: m.CallResult? ==>
          m.correlationId in s.parent.calls && s.parent.calls[m.correlationId] == m.answer.request)
    && (forall id <- s.parent.settled :: id in s.parent.calls
          && (s.parent.settled[id].Success? ==> s.parent.settled[id].answer.request == s.parent.calls[id]))
  }

  const IS_READY: ParentMessage -> bool := (m: ParentMessage) => m.Ready?
  const IS_INIT: WorkerMessage -> bool := (m: WorkerMessage) => m.Init?

  /** The worker is initialised once, and gets calls only afterwards. */
  ghost predicate Booted(s: System) {
    && One(s.worker.phase.Forked?) + Count(s.toParent, IS_READY) + Count(s.toWorker, IS_INIT)
       + One(!s.worker.phase.Forked? && !s.worker.phase.Started?) == 1
    && (Initialized in s.toParent ==> s.worker.phase.Initialised?)
    && (s.parent.initTask.Resolved? ==> s.worker.phase.Initialised?)
    && (forall m <- s.toWorker :: m.Call? ==> s.worker.phase.Initialised?)
    && (s.worker.running != map[] ==> s.worker.phase.Initialised?)
  }

  /** After a fatal error no call is pending; without a working process only calls that still wait are. */
  ghost predicate Reported(p: Parent) {
    && (p.fatalError.Some? ==> p.calls.Keys == p.settled.Keys && !p.initTask.Pending?)
    && (p.initTask.Rejected? ==> forall id <- p.calls :: id in p.settled || id in p.unsent)
  }

  ghost predicate Invariant(s: System) {
    Numbered(s.parent) && Flying(s) && Faithful(s) && Booted(s) && Reported(s.parent)
  }

  lemma InvariantInitially()
    ensures Invariant(NEW_SYSTEM)
  {
  }

  // ----- every step keeps the invariant

  lemma ForwardKept(s: System, request: string)
    requires Invariant(s)
    ensures Invariant(Step(s, Forward(request)))
  {
    hide Booted, Flying, Faithful, Flights;
    var t := Step(s, Forward(request));
    ForwardFlies(s, request);
    assert Faithful(t) by {
      ForwardFaithful(s, request);
    }
    SameBoot(s, t);
  }

  /** The new call waits to be sent, and every other call stays where it is. */
  lemma ForwardFlies(s: System, request: string)
    requires Flying(s) && Numbered(s.parent)
    ensures Flying(Step(s, Forward(request)))
  {
    hide Count;
    var t := Step(s, Forward(request));
    var n := s.parent.workerTaskCounter;
    assert n !in s.parent.unsent && n !in s.parent.workerTasks && Flights(s, n) != 1;
    forall id: nat
      ensures Flights(t, id) == Flights(s, id) + One(s.parent.fatalError.None? && id == n)
    {
    }
  }

  lemma ForwardFaithful(s: System, request: string)
    requires Faithful(s) && Numbered(s.parent)
    ensures Faithful(Step(s, Forward(request)))
  {
    assert s.parent.workerTaskCounter !in s.parent.calls;
  }

  lemma SameBoot(s: System, t: System)
    requires Booted(s) && t.worker == s.worker && t.toWorker == s.toWorker && t.toParent == s.toParent
    requires t.parent.initTask.Resolved? ==> s.parent.initTask.Resolved?
    ensures Booted(t)
  {
  }

  /** Reporting an error settles every call and the init task. */
  lemma ReportKept(s: System, t: System, e: Error)
    requires Invariant(s)
    requires t == s.(parent := Report(s.parent, e).(fatalError := t.parent.fatalError, isDisposed := t.parent.isDisposed,
                                                    listensToClose := t.parent.listensToClose))
    ensures Invariant(t) && t.parent.settled.Keys == t.parent.calls.Keys && !t.parent.initTask.Pending?
  {
    hide Booted;
    assert forall id: nat :: Flights(t, id) == Flights(s, id);
    forall id | id in t.parent.calls
      ensures id in t.parent.settled
    {
      assert id in s.parent.settled || Flights(s, id) == 1;
    }
    assert Booted(t) by {
      SameBoot(s, t);
    }
  }

  lemma FlushKept(s: System, id: nat)
    requires Invariant(s) && Enabled(s, FlushCall(id))
    ensures Invariant(Step(s, FlushCall(id)))
  {
    hide Count;
    var t := Step(s, FlushCall(id));
    var call := Call(id, s.parent.calls[id]);
    assert s.toWorker + [] == s.toWorker;
    forall x: nat
      ensures Flights(t, x) == Flights(s, x) - One(s.parent.initTask.Rejected? && x == id)
    {
      CountSnoc(s.toWorker, call, CallOf(x));
    }
    CountSnoc(s.toWorker, call, IS_INIT);
    assert Flights(s, id) == 1;
  }

  /** The parent takes the first message; nothing else changes. */
  function Taken(s: System): System
    requires s.toParent != []
  {
    s.(toParent := s.toParent[1..])
  }

  lemma TakenCounts(s: System)
    requires s.toParent != []
    ensures forall id: nat :: Flights(s, id) == Flights(Taken(s), id) + One(ReplyTo(id)(s.toParent[0]))
    ensures Count(s.toParent, IS_READY) == Count(Taken(s).toParent, IS_READY) + One(s.toParent[0].Ready?)
  {
    hide Count;
    forall id: nat
      ensures Flights(s, id) == Flights(Taken(s), id) + One(ReplyTo(id)(s.toParent[0]))
    {
      CountHead(s.toParent, ReplyTo(id));
    }
    CountHead(s.toParent, IS_READY);
  }

  lemma ReplyKept(s: System, id: nat, how: Settlement)
    requires Invariant(s) && s.toParent != [] && ReplyTo(id)(s.toParent[0])
    requires how.Success? ==> s.toParent[0] == CallResult(id, how.answer)
    ensures Invariant(Taken(s).(parent := Reply(s.parent, id, how)))
  {
    hide Count;
    var t := Taken(s).(parent := Reply(s.parent, id, how));
    TakenCounts(s);
    assert Flights(s, id) == 1;
    assert s.toParent[0] in s.toParent && forall m <- t.toParent :: m in s.toParent;
    forall x: nat
      ensures Flights(t, x) == Flights(s, x) - One(x == id)
    {
      assert Flights(t, x) == Flights(Taken(s), x);
    }
  }

  lemma ReadyKept(s: System)
    requires Invariant(s) && s.toParent != [] && s.toParent[0].Ready?
    ensures Invariant(Step(s, DeliverToParent))
  {
    hide Count;
    var t := Step(s, DeliverToParent);
    TakenCounts(s);
    assert forall m <- t.toParent :: m in s.toParent;
    forall x: nat
      ensures Flights(t, x) == Flights(s, x)
    {
      CountSnoc(s.toWorker, Init, CallOf(x));
    }
    CountSnoc(s.toWorker, Init, IS_INIT);
  }

  /** A message that is no reply changes no call. */
  lemma OtherKept(s: System)
    requires Invariant(s) && s.toParent != []
             && (s.toParent[0].Initialized? || s.toParent[0].DisposeCompleted? || s.toParent[0].InitError?)
    ensures Invariant(Taken(s).(parent := s.parent.(initTask :=
              if s.toParent[0].Initialized? && s.parent.initTask.Pending? then Resolved else s.parent.initTask)))
  {
    hide Count;
    var t := Taken(s).(parent := s.parent.(initTask :=
      if s.toParent[0].Initialized? && s.parent.initTask.Pending? then Resolved else s.parent.initTask));
    TakenCounts(s);
    assert s.toParent[0] in s.toParent && forall m <- t.toParent :: m in s.toParent;
    assert forall x: nat :: Flights(t, x) == Flights(Taken(s), x);
  }

  /** A dispose message is about no call. */
  lemma DisposeSent(s: System, t: System)
    requires Invariant(s) && t.worker == s.worker && t.toParent == s.toParent && t.toWorker == s.toWorker + [Dispose]
    requires t.parent == s.parent.(isDisposed := t.parent.isDisposed, listensToClose := t.parent.listensToClose)
    ensures Invariant(t)
  {
    hide Count;
    forall x: nat
      ensures Flights(t, x) == Flights(s, x)
    {
      CountSnoc(s.toWorker, Dispose, CallOf(x));
    }
    CountSnoc(s.toWorker, Dispose, IS_INIT);
  }

  lemma InitErrorKept(s: System)
    requires Invariant(s) && s.toParent != [] && s.toParent[0].InitError?
    ensures Invariant(Step(s, DeliverToParent))
  {
    hide Invariant;
    OtherKept(s);
    var taken := Taken(s);
    assert taken == taken.(parent := s.parent.(initTask := s.parent.initTask));
    var failed := taken.(parent := Report(s.parent.(fatalError := Some(InitFailed)), InitFailed));
    ReportKept(taken, failed, InitFailed);
    if !s.parent.isDisposed {
      DisposeSent(failed, Step(s, DeliverToParent));
    } else {
      assert s.toWorker + [] == s.toWorker;
    }
  }

  lemma DeliverToParentKept(s: System)
    requires Invariant(s) && s.toParent != []
    ensures Invariant(Step(s, DeliverToParent))
  {
    hide Invariant;
    assert s.toWorker + [] == s.toWorker;
    match s.toParent[0]
    case Ready => ReadyKept(s);
    case Initialized => OtherKept(s);
    case InitError => InitErrorKept(s);
    case CallResult(id, answer) => ReplyKept(s, id, Success(answer));
    case CallRejection(id) => ReplyKept(s, id, Failure(FromWorker));
    case DisposeCompleted =>
      OtherKept(s);
      assert s.parent == s.parent.(initTask := s.parent.initTask);
  }

  lemma DisposeKept(s: System)
    requires Invariant(s)
    ensures Invariant(Step(s, DisposeProxy))
  {
    hide Invariant;
    assert s.toWorker + [] == s.toWorker;
    if !s.parent.isDisposed {
      DisposeSent(s, Step(s, DisposeProxy));
    }
  }

  lemma StartKept(s: System)
    requires Invariant(s) && Enabled(s, Start)
    ensures Invariant(Step(s, Start))
  {
    hide Count;
    var t := Step(s, Start);
    forall x: nat
      ensures Flights(t, x) == Flights(s, x)
    {
      CountSnoc(s.toParent, Ready, ReplyTo(x));
    }
    CountSnoc(s.toParent, Ready, IS_READY);
  }

  lemma InitDoneKept(s: System, works: bool)
    requires Invariant(s) && Enabled(s, InitDone(works))
    ensures Invariant(Step(s, InitDone(works)))
  {
    hide Count;
    var t := Step(s, InitDone(works));
    var m := if works then Initialized else InitError;
    forall x: nat
      ensures Flights(t, x) == Flights(s, x)
    {
      CountSnoc(s.toParent, m, ReplyTo(x));
    }
    CountSnoc(s.toParent, m, IS_READY);
  }

  lemma CallDoneKept(s: System, id: nat, value: Option<string>)
    requires Invariant(s) && Enabled(s, CallDone(id, value))
    ensures Invariant(Step(s, CallDone(id, value)))
  {
    hide Count;
    var t := Step(s, CallDone(id, value));
    var m := t.toParent[|s.toParent|];
    forall x: nat
      ensures Flights(t, x) == Flights(s, x)
    {
      CountSnoc(s.toParent, m, ReplyTo(x));
    }
    CountSnoc(s.toParent, m, IS_READY);
  }

  lemma DeliverToWorkerKept(s: System)
    requires Invariant(s) && Enabled(s, DeliverToWorker)
    ensures Invariant(Step(s, DeliverToWorker))
  {
    hide Count;
    var t := Step(s, DeliverToWorker);
    var m := s.toWorker[0];
    assert m in s.toWorker && forall x <- t.toWorker :: x in s.toWorker;
    assert s.toParent + [] == s.toParent;
    forall x: nat
      ensures Flights(t, x) == Flights(s, x)
    {
      CountHead(s.toWorker, CallOf(x));
      CountSnoc(s.toParent, DisposeCompleted, ReplyTo(x));
      assert Flights(s, x) <= 1;
    }
    CountHead(s.toWorker, IS_INIT);
    CountSnoc(s.toParent, DisposeCompleted, IS_READY);
  }

  lemma ExitKept(s: System)
    requires Invariant(s)
    ensures Invariant(Step(s, Exit))
  {
    var t := Step(s, Exit);
    assert forall x: nat :: Flights(t, x) == Flights(s, x);
  }

  lemma InvariantKept(s: System, e: Event)
    requires Invariant(s) && Enabled(s, e)
    ensures Invariant(Step(s, e))
  {
    hide Invariant;
    match e
    case Forward(request) => ForwardKept(s, request);
    case FlushCall(id) => FlushKept(s, id);
    case DeliverToParent => DeliverToParentKept(s);
    case Close => ReportKept(s, Step(s, Close), Crashed);
    case ErrorEvent => ReportKept(s, Step(s, ErrorEvent), ProcessError);
    case DisposeProxy => DisposeKept(s);
    case Start => StartKept(s);
    case DeliverToWorker => DeliverToWorkerKept(s);
    case InitDone(works) => InitDoneKept(s, works);
    case CallDone(id, value) => CallDoneKept(s, id, value);
    case Exit => ExitKept(s);
  }

  // ----- whole runs

  predicate IsRun(s: System, es: seq<Event>)
    decreases |es|
  {
    es == [] || (Enabled(s, es[0]) && IsRun(Step(s, es[0]), es[1..]))
  }

  function After(s: System, es: seq<Event>): System
    requires IsRun(s, es)
    decreases |es|
  {
    if es == [] then s else After(Step(s, es[0]), es[1..])
  }

  /** No settlement ever changes, and after a fatal error no call is accepted. */
  ghost predicate Grows(p: Parent, q: Parent) {
    && (forall id <- p.settled :: id in q.settled && q.settled[id] == p.settled[id])
    && (p.fatalError.Some? ==> q.fatalError.Some? && q.calls == p.calls)
  }

  lemma StepGrows(s: System, e: Event)
    requires Enabled(s, e)
    ensures Grows(s.parent, Step(s, e).parent)
  {
    if e.DeliverToParent? {
      MessageGrows(s.parent, s.toParent[0]);
    }
  }

  lemma MessageGrows(p: Parent, m: ParentMessage)
    ensures Grows(p, OnMessage(p, m).0)
  {
  }

  lemma {:induction false} EveryRunKeeps(s: System, es: seq<Event>)
    requires Invariant(s) && IsRun(s, es)
    ensures var t := After(s, es);
            && Invariant(t)
            && (forall id <- s.parent.settled :: id in t.parent.settled && t.parent.settled[id] == s.parent.settled[id])
            && (s.parent.fatalError.Some? ==> t.parent.calls == s.parent.calls && t.parent.settled == s.parent.settled)
    decreases |es|
  {
    hide Invariant, Step, Enabled;
    if es != [] {
      InvariantKept(s, es[0]);
      StepGrows(s, es[0]);
      EveryRunKeeps(Step(s, es[0]), es[1..]);
      if s.parent.fatalError.Some? {
        NoMoreCalls(s, After(s, es));
      }
    }
  }

  lemma NoMoreCalls(s: System, t: System)
    requires Invariant(s) && Invariant(t) && s.parent.fatalError.Some? && t.parent.calls == s.parent.calls
    requires forall id <- s.parent.settled :: id in t.parent.settled && t.parent.settled[id] == s.parent.settled[id]
    ensures t.parent.settled == s.parent.settled
  {
    hide Flying, Faithful, Booted, Count;
    assert t.parent.settled.Keys == s.parent.settled.Keys;
  }

  /** What holds after every run, in the terms of the callers. */
  lemma {:induction false} ProtocolIsSafe(es: seq<Event>)
    requires IsRun(NEW_SYSTEM, es)
    ensures var s := After(NEW_SYSTEM, es);
            && s.parent.unknownReplies == 0
            && (forall id <- s.parent.settled :: id in s.parent.calls
                  && (s.parent.settled[id].Success? ==> s.parent.settled[id].answer.request == s.parent.calls[id]))
            && (forall m <- s.toWorker :: m.Call? ==> s.worker.phase.Initialised?)
            && (forall id <- s.parent.calls :: id !in s.parent.settled ==> Flights(s, id) == 1)
            && (s.parent.fatalError.Some? ==> s.parent.settled.Keys == s.parent.calls.Keys)
  {
    hide Step, Enabled, Count;
    InvariantInitially();
    EveryRunKeeps(NEW_SYSTEM, es);
  }

  /** After an unexpected exit, or a failed initialisation, no call is pending and every later call is refused. */
  lemma {:induction false} NothingPendsAfter(s: System, e: Event, es: seq<Event>, request: string)
    requires Invariant(s) && Enabled(s, e) && IsRun(Step(s, e), es)
    requires e.Close? || (e.DeliverToParent? && s.toParent[0].InitError?)
    ensures var t := After(Step(s, e), es);
            && t.parent.settled.Keys == t.parent.calls.Keys == s.parent.calls.Keys
            && ForwardCall(t.parent, request) == t.parent.(refused := t.parent.refused + 1)
  {
    hide Count;
    InvariantKept(s, e);
    EveryRunKeeps(Step(s, e), es);
    FatalStays(Step(s, e), es);
  }

  lemma {:induction false} FatalStays(s: System, es: seq<Event>)
    requires Invariant(s) && IsRun(s, es) && s.parent.fatalError.Some?
    ensures After(s, es).parent.fatalError.Some?
    decreases |es|
  {
    hide Invariant, Step, Enabled;
    if es != [] {
      InvariantKept(s, es[0]);
      StepGrows(s, es[0]);
      FatalStays(Step(s, es[0]), es[1..]);
    }
  }

  /** The worker has exited after the proxy was disposed, so that nothing is sent back any more. */
  ghost predicate Killed(s: System) {
    s.worker.exited && s.parent.isDisposed && !s.parent.listensToClose && InitError !in s.toParent
  }

  /** A call without an answer: it waits to be sent, is on its way to the worker, or is executed. */
  ghost predicate Unanswered(s: System, id: nat) {
    && id in s.parent.calls && id !in s.parent.settled && Count(s.toParent, ReplyTo(id)) == 0
    && (id in s.parent.unsent ==> !s.parent.initTask.Rejected?)
  }

  /** Disposing does not settle the calls in progress: a call that has no answer when the disposed process
      ends is settled exactly if the process object reports an error later. */
  lemma {:induction false} KilledCallIsSettledIff(s: System, id: nat, es: seq<Event>)
    requires Invariant(s) && Killed(s) && Unanswered(s, id) && IsRun(s, es)
    ensures id in After(s, es).parent.settled <==> ErrorEvent in es
    decreases |es|
  {
    hide Invariant, Step, Enabled, Killed, Unanswered;
    if es == [] {
      assert id !in s.parent.settled by {
        NotSettled(s, id);
      }
    } else {
      var t := Step(s, es[0]);
      InvariantKept(s, es[0]);
      assert es == [es[0]] + es[1..];
      if es[0] == ErrorEvent {
        ErrorSettles(s, id);
        EveryRunKeeps(t, es[1..]);
      } else {
        KilledStep(s, id, es[0]);
        KilledCallIsSettledIff(t, id, es[1..]);
      }
    }
  }

  lemma NotSettled(s: System, id: nat)
    requires Unanswered(s, id)
    ensures id !in s.parent.settled
  {
  }

  lemma ErrorSettles(s: System, id: nat)
    requires Invariant(s) && Unanswered(s, id)
    ensures id in Step(s, ErrorEvent).parent.settled
  {
    hide Count, Faithful, Booted;
    assert Flights(s, id) == 1;
  }

  lemma KilledStep(s: System, id: nat, e: Event)
    requires Invariant(s) && Killed(s) && Unanswered(s, id) && Enabled(s, e) && e != ErrorEvent
    ensures Killed(Step(s, e)) && Unanswered(Step(s, e), id)
  {
    hide Count, Faithful, Booted;
    assert Flights(s, id) == 1;
    if e == DeliverToParent {
      assert s.toParent[0] in s.toParent;
      TakenCounts(s);
      CountHead(s.toParent, ReplyTo(id));
    }
  }

  /** In particular a call that the worker executes, or that is still on its way to it. */
  lemma {:induction false} CallAtWorkerIsUnanswered(s: System, id: nat)
    requires Invariant(s) && id !in s.parent.settled
    requires id in s.worker.running || Count(s.toWorker, CallOf(id)) > 0
    ensures Unanswered(s, id)
  {
    hide Count, Booted;
    assert Flights(s, id) == 1;
  }

  // ----- the classes

  method RejectAll(settled: map<nat, Settlement>, tasks: set<nat>, error: Error) returns (after: map<nat, Settlement>)
    ensures after == SettleAll(settled, tasks, Failure(error))
  {
    hide SettleAll, Settle;
    after := settled;
    var ongoing := tasks;
    assert tasks - ongoing == {};
    SettleNone(settled, Failure(error));
    while ongoing != {}
      invariant ongoing <= tasks && after == SettleAll(settled, tasks - ongoing, Failure(error))
      decreases |ongoing|
    {
      var id :| id in ongoing;
      SettleMore(settled, tasks - ongoing, id, Failure(error));
      assert tasks - (ongoing - {id}) == (tasks - ongoing) + {id};
      ongoing := ongoing - {id};
      after := Settle(after, id, Failure(error));
    }
    assert tasks - ongoing == tasks;
  }

  class ChildProcessProxy {
    var initTask: InitTask
    var fatalError: Option<Error>
    var workerTasks: set<nat>
    var workerTaskCounter: nat
    var calls: map<nat, string>
    var settled: map<nat, Settlement>
    var unsent: set<nat>
    var isDisposed: bool
    var listensToClose: bool
    var refused: nat
    var unknownReplies: nat

    ghost function Abstraction(): Parent
      reads this
    {
      Parent(initTask, fatalError, workerTasks, workerTaskCounter, calls, settled, unsent, isDisposed, listensToClose, refused, unknownReplies)
    }

    constructor ()
      ensures Abstraction() == NEW_PARENT
    {
      initTask, fatalError := Pending, None;
      workerTasks, unsent := {}, {};
      workerTaskCounter, refused, unknownReplies := 0, 0, 0;
      calls, settled := map[], map[];
      isDisposed, listensToClose := false, true;
    }

    /** None is a promise that is rejected with the fatal error at once. */
    method Forward(request: string) returns (correlationId: Option<nat>)
      modifies this
      ensures Abstraction() == ForwardCall(old(Abstraction()), request)
      ensures correlationId == if old(fatalError).Some? then None else Some(old(workerTaskCounter))
    {
      if fatalError.Some? {
        refused := refused + 1;
        return None;
      }
      var id := workerTaskCounter;
      workerTaskCounter := workerTaskCounter + 1;
      workerTasks := workerTasks + {id};
      calls := calls[id := request];
      unsent := unsent + {id};
      correlationId := Some(id);
    }

    method InitTaskSettled(id: nat) returns (sent: seq<WorkerMessage>)
      requires id in unsent && id in calls && !initTask.Pending?
      modifies this
      ensures (Abstraction(), sent) == Flush(old(Abstraction()), id)
      ensures sent == if initTask.Resolved? then [Call(id, calls[id])] else []
      ensures initTask.Rejected? && id !in old(settled) ==> settled == old(settled)[id := Failure(initTask.error)]
    {
      unsent := unsent - {id};
      if initTask.Resolved? {
        sent := [Call(id, calls[id])];
      } else {
        settled := Settle(settled, id, Failure(initTask.error));
        sent := [];
      }
    }

    method SettleTask(id: nat, how: Settlement)
      modifies this
      ensures Abstraction() == Reply(old(Abstraction()), id, how)
    {
      if id !in workerTasks {
        unknownReplies := unknownReplies + 1;
      } else {
        settled := Settle(settled, id, how);
        workerTasks := workerTasks - {id};
      }
    }

    method ReportError(error: Error)
      modifies this`settled, this`initTask
      ensures Abstraction() == Report(old(Abstraction()), error)
      ensures forall id <- workerTasks ::
        id in settled && settled[id] == if id in old(settled) then old(settled)[id] else Failure(error)
      ensures forall id :: id !in workerTasks ==> (id in settled <==> id in old(settled))
      ensures initTask == if old(initTask).Pending? then Rejected(error) else old(initTask)
    {
      settled := RejectAll(settled, workerTasks, error);
      if initTask.Pending? {
        initTask := Rejected(error);
      }
    }

    method HandleMessage(message: ParentMessage) returns (sent: seq<WorkerMessage>)
      modifies this
      ensures (Abstraction(), sent) == OnMessage(old(Abstraction()), message)
      ensures message.CallResult? && message.correlationId in old(workerTasks)
              && message.correlationId !in old(settled) ==>
                settled == old(settled)[message.correlationId := Success(message.answer)]
      ensures message.CallRejection? && message.correlationId in old(workerTasks)
              && message.correlationId !in old(settled) ==>
                settled == old(settled)[message.correlationId := Failure(FromWorker)]
      ensures message.Initialized? && old(initTask).Pending? ==> initTask.Resolved?
      ensures message.InitError? ==> fatalError == Some(InitFailed) && isDisposed && workerTasks <= settled.Keys
      ensures fatalError != old(fatalError) ==> message.InitError?
      ensures message.InitError? && old(initTask).Pending? ==> initTask == Rejected(InitFailed)
      ensures sent == if message.Ready? then [Init]
                      else if message.InitError? && !old(isDisposed) then [WorkerMessage.Dispose] else []
    {
      sent := [];
      match message {
        case Ready => sent := [Init];
        case Initialized =>
          if initTask.Pending? {
            initTask := Resolved;
          }
        case CallResult(id, answer) => SettleTask(id, Success(answer));
        case CallRejection(id) => SettleTask(id, Failure(FromWorker));
        case DisposeCompleted =>
        case InitError =>
          fatalError := Some(InitFailed);
          ReportError(InitFailed);
          sent := Dispose();
      }
    }

    method HandleUnexpectedExit()
      modifies this
      ensures Abstraction() == UnexpectedExit(old(Abstraction()))
      ensures fatalError == Some(Crashed) && !initTask.Pending?
      ensures forall id <- workerTasks ::
        id in settled && settled[id] == if id in old(settled) then old(settled)[id] else Failure(Crashed)
    {
      isDisposed := true;
      fatalError := Some(Crashed);
      ReportError(Crashed);
    }

    method HandleError()
      modifies this
      ensures Abstraction() == Report(old(Abstraction()), ProcessError)
    {
      ReportError(ProcessError);
    }

    method Dispose() returns (sent: seq<WorkerMessage>)
      modifies this
      ensures (Abstraction(), sent) == DisposeParent(old(Abstraction()))
      ensures isDisposed && sent == if old(isDisposed) then [] else [WorkerMessage.Dispose]
      ensures settled == old(settled) && workerTasks == old(workerTasks) && initTask == old(initTask)
    {
      sent := [];
      if !isDisposed {
        listensToClose := false;
        isDisposed := true;
        sent := [WorkerMessage.Dispose];
      }
    }
  }

  class ChildProcessProxyWorker {
    var phase: Phase
    var running: map<nat, string>
    ghost var exited: bool

    ghost function Abstraction(): Worker
      reads this
    {
      Worker(phase, running, exited)
    }

    constructor ()
      ensures Abstraction() == NEW_WORKER
    {
      phase, running, exited := Forked, map[], false;
    }

    method Start() returns (sent: seq<ParentMessage>)
      modifies this
      ensures Abstraction() == old(Abstraction()).(phase := Started) && sent == [Ready]
    {
      phase := Started;
      sent := [Ready];
    }

    method HandleMessage(message: WorkerMessage) returns (sent: seq<ParentMessage>)
      modifies this
      ensures (Abstraction(), sent) == HandleWorkerMessage(old(Abstraction()), message)
      ensures message.Call? && old(phase).Initialised? ==>
                running == old(running)[message.correlationId := message.request] && sent == []
      ensures message.Call? && !old(phase).Initialised? ==>
                running == old(running) && sent == [CallRejection(message.correlationId)]
      ensures message.Init? ==> phase.Initialising? && sent == []
      ensures message.Dispose? ==> sent == [DisposeCompleted]
    {
      sent := [];
      match message {
        case Init => phase := Initialising;
        case Call(id, request) =>
          if phase.Initialised? {
            running := running[id := request];
          } else {
            sent := [CallRejection(id)];
          }
        case Dispose => sent := [DisposeCompleted];
      }
    }

    method HandleInit(works: bool) returns (sent: seq<ParentMessage>)
      modifies this
      ensures (Abstraction(), sent) == InitEnds(old(Abstraction()), works)
      ensures sent == (if works then [Initialized] else [InitError]) && (phase.Initialised? <==> works)
    {
      phase := if works then Initialised else NotInitialised;
      sent := [if works then Initialized else InitError];
    }

    method HandleCall(id: nat, value: Option<string>) returns (sent: seq<ParentMessage>)
      requires id in running
      modifies this
      ensures (Abstraction(), sent) == CallEnds(old(Abstraction()), id, value)
      ensures value.Some? ==> sent == [CallResult(id, Answer(old(running)[id], value.value))]
      ensures value.None? ==> sent == [CallRejection(id)]
    {
      sent := [if value.Some? then CallResult(id, Answer(running[id], value.value)) else CallRejection(id)];
      running := running - {id};
    }
  }
}
