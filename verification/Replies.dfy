/** Which settlement a call gets, read off the events of the run: the outcome that the worker computed for it,
    or an error that was reported. */
module Replies {
  import opened Options
  import opened ChildProcess

  /** What can have led to an error that is not the answer of the worker. */
  ghost predicate ErrorIn(es: seq<Event>, e: Error) {
    match e
    case InitFailed => InitDone(false) in es
    case Crashed => Close in es
    case ProcessError => ErrorEvent in es
    case FromWorker => false
  }

  /** A success is a value that the worker computed for this call, a failure that the worker answers with one
      that it ended with, and any other failure a reported error. */
  ghost predicate CausedBy(es: seq<Event>, id: nat, how: Settlement) {
    match how
    case Success(answer) => CallDone(id, Some(answer.value)) in es
    case Failure(e) => if e == FromWorker then CallDone(id, None) in es else ErrorIn(es, e)
  }

  /** How a call is settled by the outcome of the worker. */
  function Outcome(request: string, value: Option<string>): Settlement {
    match value
    case Some(v) => Success(Answer(request, v))
    case None => Failure(FromWorker)
  }

  function ReplyOf(id: nat, request: string, value: Option<string>): ParentMessage {
    match value
    case Some(v) => CallResult(id, Answer(request, v))
    case None => CallRejection(id)
  }

  /** Every message of the worker tells of an event. */
  ghost predicate Tells(es: seq<Event>, m: ParentMessage) {
    match m
    case CallResult(id, answer) => CallDone(id, Some(answer.value)) in es
    case CallRejection(id) => CallDone(id, None) in es
    case InitError => InitDone(false) in es
    case Initialized => InitDone(true) in es
    case Ready => true
    case DisposeCompleted => true
  }

  /** The call is with the parent again: its reply is on the way, or it is settled. */
  ghost predicate Back(s: System, id: nat, value: Option<string>) {
    && id in s.parent.calls && id !in s.worker.running && id !in s.parent.unsent
    && Count(s.toWorker, CallOf(id)) == 0
    && (id in s.parent.settled || ReplyOf(id, s.parent.calls[id], value) in s.toParent)
  }

  ghost predicate Told(s: System, es: seq<Event>) {
    && (forall id <- s.parent.settled :: CausedBy(es, id, s.parent.settled[id]))
    && (forall m <- s.toParent :: Tells(es, m))
    && (s.parent.initTask.Rejected? ==> ErrorIn(es, s.parent.initTask.error))
    && (s.parent.initTask.Resolved? ==> InitDone(true) in es)
    && (InitDone(true) in es ==> Initialized in s.toParent || !s.parent.initTask.Pending?)
  }

  ghost predicate Answered(s: System, es: seq<Event>) {
    forall id, value | CallDone(id, value) in es :: Back(s, id, value)
  }

  ghost predicate OnceDone(es: seq<Event>) {
    forall id, v, w :: CallDone(id, v) in es && CallDone(id, w) in es ==> v == w
  }

  // ----- one step

  lemma CauseStays(es: seq<Event>, e: Event, id: nat, how: Settlement)
    requires CausedBy(es, id, how)
    ensures CausedBy(es + [e], id, how)
  {
  }

  lemma ToldLater(s: System, es: seq<Event>, e: Event)
    requires Told(s, es) && e != InitDone(true)
    ensures Told(s, es + [e])
  {
    forall id | id in s.parent.settled
      ensures CausedBy(es + [e], id, s.parent.settled[id])
    {
      CauseStays(es, e, id, s.parent.settled[id]);
    }
  }

  lemma ReportTold(s: System, p: Parent, es: seq<Event>, e: Error)
    requires Told(s, es) && ErrorIn(es, e) && p.settled == SettleAll(s.parent.settled, s.parent.workerTasks, Failure(e))
    requires p.initTask == if s.parent.initTask.Pending? then Rejected(e) else s.parent.initTask
    ensures Told(s.(parent := p), es)
  {
  }

  lemma {:induction false} StepTold(s: System, es: seq<Event>, e: Event)
    requires Invariant(s) && Enabled(s, e) && Told(s, es)
    ensures Told(Step(s, e), es + [e])
  {
    hide Count;
    var t, later := Step(s, e), es + [e];
    if e != InitDone(true) {
      ToldLater(s, es, e);
    }
    match e
    case Close => ReportTold(s, UnexpectedExit(s.parent), later, Crashed);
    case ErrorEvent => ReportTold(s, Report(s.parent, ProcessError), later, ProcessError);
    case DeliverToParent => MessageTold(s, later);
    case DeliverToWorker => assert s.toWorker[0] in s.toWorker;
    case InitDone(works) => InitTold(s, es, works);
    case _ =>
  }

  lemma {:induction false} InitTold(s: System, es: seq<Event>, works: bool)
    requires Invariant(s) && Enabled(s, InitDone(works)) && Told(s, es)
    ensures Told(Step(s, InitDone(works)), es + [InitDone(works)])
  {
    hide Count;
    forall id | id in s.parent.settled
      ensures CausedBy(es + [InitDone(works)], id, s.parent.settled[id])
    {
      CauseStays(es, InitDone(works), id, s.parent.settled[id]);
    }
  }

  lemma {:induction false} MessageTold(s: System, es: seq<Event>)
    requires Invariant(s) && s.toParent != [] && Told(s, es)
    ensures Told(Step(s, DeliverToParent), es)
  {
    hide Invariant, Told, Report, Reply;
    HeadTells(s, es);
    match s.toParent[0]
    case CallResult(id, answer) =>
      assert CausedBy(es, id, Success(answer));
      ReplyTold(s, es, id, Success(answer), s.toWorker + []);
    case CallRejection(id) =>
      assert CausedBy(es, id, Failure(FromWorker));
      ReplyTold(s, es, id, Failure(FromWorker), s.toWorker + []);
    case InitError => InitErrorTold(s, es, s.toWorker + OnMessage(s.parent, InitError).1);
    case Initialized => InitializedTold(s, es, s.toWorker + []);
    case Ready => TailTold(s, es, s.toWorker + [Init]);
    case DisposeCompleted => TailTold(s, es, s.toWorker + []);
  }

  lemma HeadTells(s: System, es: seq<Event>)
    requires s.toParent != [] && Told(s, es)
    ensures Tells(es, s.toParent[0])
  {
    assert s.toParent[0] in s.toParent;
  }

  /** `Told` does not depend on what is sent to the worker. */
  lemma TailTold(s: System, es: seq<Event>, sent: seq<WorkerMessage>)
    requires s.toParent != [] && Told(s, es) && !s.toParent[0].Initialized?
    ensures Told(Taken(s).(toWorker := sent), es)
  {
    assert s.toParent == [s.toParent[0]] + s.toParent[1..];
  }

  lemma ReplyTold(s: System, es: seq<Event>, id: nat, how: Settlement, sent: seq<WorkerMessage>)
    requires s.toParent != [] && Told(s, es) && !s.toParent[0].Initialized? && CausedBy(es, id, how)
    ensures Told(Taken(s).(parent := Reply(s.parent, id, how), toWorker := sent), es)
  {
    hide CausedBy, ErrorIn, Tells;
    assert s.toParent == [s.toParent[0]] + s.toParent[1..];
  }

  lemma InitializedTold(s: System, es: seq<Event>, sent: seq<WorkerMessage>)
    requires s.toParent != [] && Told(s, es) && s.toParent[0].Initialized?
    ensures Told(Taken(s).(parent := OnMessage(s.parent, Initialized).0, toWorker := sent), es)
  {
    hide CausedBy, ErrorIn;
    assert s.toParent[0] in s.toParent && Tells(es, s.toParent[0]);
  }

  lemma InitErrorTold(s: System, es: seq<Event>, sent: seq<WorkerMessage>)
    requires s.toParent != [] && Told(s, es) && s.toParent[0].InitError?
    ensures Told(Taken(s).(parent := OnMessage(s.parent, InitError).0, toWorker := sent), es)
  {
    HeadTells(s, es);
    TailTold(s, es, sent);
    var p := Report(s.parent.(fatalError := Some(InitFailed)), InitFailed);
    ReportTold(Taken(s).(toWorker := sent), p, es, InitFailed);
  }

  lemma {:induction false} StepAnswered(s: System, es: seq<Event>, e: Event)
    requires Invariant(s) && Enabled(s, e) && Answered(s, es)
    ensures Answered(Step(s, e), es + [e])
  {
    hide Step, Enabled, Back;
    forall id, value | CallDone(id, value) in es + [e]
      ensures Back(Step(s, e), id, value)
    {
      if CallDone(id, value) in es {
        StaysBack(s, e, id, value);
      } else {
        assert e == CallDone(id, value);
        ComesBack(s, id, value);
      }
    }
  }

  lemma ComesBack(s: System, id: nat, value: Option<string>)
    requires Invariant(s) && Enabled(s, CallDone(id, value))
    ensures Back(Step(s, CallDone(id, value)), id, value)
  {
    hide Count, Booted;
    assert Flights(s, id) <= 1;
  }

  lemma {:induction false} StaysBack(s: System, e: Event, id: nat, value: Option<string>)
    requires Invariant(s) && Enabled(s, e) && Back(s, id, value)
    ensures Back(Step(s, e), id, value)
  {
    hide Count, Invariant;
    match e
    case FlushCall(x) =>
      CountSnoc(s.toWorker, Call(x, s.parent.calls[x]), CallOf(id));
      assert s.toWorker + [] == s.toWorker;
    case DeliverToParent => StaysBackAtParent(s, id, value);
    case DisposeProxy =>
      CountSnoc(s.toWorker, Dispose, CallOf(id));
      assert s.toWorker + [] == s.toWorker;
    case DeliverToWorker => CountHead(s.toWorker, CallOf(id));
    case Forward(_) => NewIdIsNew(s);
    case _ =>
  }

  lemma NewIdIsNew(s: System)
    requires Invariant(s)
    ensures s.parent.workerTaskCounter !in s.parent.calls
  {
    hide Flying, Faithful, Booted;
  }

  lemma {:induction false} StaysBackAtParent(s: System, id: nat, value: Option<string>)
    requires Invariant(s) && s.toParent != [] && Back(s, id, value)
    ensures Back(Step(s, DeliverToParent), id, value)
  {
    TaskOfReply(s, id, value);
    hide Count, Invariant, Back, Reply, Report;
    CountSnoc(s.toWorker, Init, CallOf(id));
    CountSnoc(s.toWorker, Dispose, CallOf(id));
    assert s.toWorker + [] == s.toWorker;
    ParentKeeps(s.parent, s.toParent[0]);
    ReplyArrives(s, id, value);
    BackKept(s, Step(s, DeliverToParent), id, value);
  }

  lemma ParentKeeps(p: Parent, m: ParentMessage)
    ensures OnMessage(p, m).0.calls == p.calls && OnMessage(p, m).0.unsent == p.unsent
    ensures p.settled.Keys <= OnMessage(p, m).0.settled.Keys
    ensures OnMessage(p, m).1 == [] || OnMessage(p, m).1 == [Init] || OnMessage(p, m).1 == [Dispose]
  {
  }

  /** Only the reply itself leaves the queue, and it settles the call. */
  lemma ReplyArrives(s: System, id: nat, value: Option<string>)
    requires s.toParent != [] && id in s.parent.calls && (id !in s.parent.settled ==> id in s.parent.workerTasks)
    ensures var reply := ReplyOf(id, s.parent.calls[id], value);
            reply in s.toParent ==> reply in s.toParent[1..] || id in OnMessage(s.parent, s.toParent[0]).0.settled
  {
    assert s.toParent == [s.toParent[0]] + s.toParent[1..];
  }

  lemma BackKept(s: System, t: System, id: nat, value: Option<string>)
    requires Back(s, id, value) && t.worker == s.worker && t.parent.calls == s.parent.calls
    requires t.parent.unsent == s.parent.unsent && s.parent.settled.Keys <= t.parent.settled.Keys
    requires Count(t.toWorker, CallOf(id)) == 0
    requires var reply := ReplyOf(id, s.parent.calls[id], value);
             reply in s.toParent ==> reply in t.toParent || id in t.parent.settled
    ensures Back(t, id, value)
  {
    hide Count;
  }

  /** A call whose reply is on the way has its task. */
  lemma TaskOfReply(s: System, id: nat, value: Option<string>)
    requires Invariant(s) && Back(s, id, value)
    ensures id in s.parent.calls && Count(s.toWorker, CallOf(id)) == 0
    ensures id !in s.parent.settled ==> id in s.parent.workerTasks
  {
    hide Count, Booted, Faithful;
    assert id !in s.parent.settled ==> Flights(s, id) == 1;
  }

  lemma NotDoneYet(s: System, es: seq<Event>, id: nat, value: Option<string>)
    requires Answered(s, es) && id in s.worker.running
    ensures CallDone(id, value) !in es
  {
  }

  lemma StepOnce(s: System, es: seq<Event>, e: Event)
    requires Enabled(s, e) && Answered(s, es) && OnceDone(es)
    ensures OnceDone(es + [e])
  {
    hide Answered;
    forall id, v, w | CallDone(id, v) in es + [e] && CallDone(id, w) in es + [e]
      ensures v == w
    {
      if e.CallDone? && e.id == id {
        NotDoneYet(s, es, id, v);
        NotDoneYet(s, es, id, w);
      }
    }
  }

  // ----- whole runs

  lemma {:induction false} RunTold(s: System, past: seq<Event>, es: seq<Event>)
    requires Invariant(s) && IsRun(s, es) && Told(s, past) && Answered(s, past) && OnceDone(past)
    ensures Told(After(s, es), past + es) && Answered(After(s, es), past + es) && OnceDone(past + es)
    ensures Invariant(After(s, es))
    decreases |es|
  {
    hide Invariant, Step, Enabled, Told, Answered, OnceDone;
    if es == [] {
      assert past + es == past;
    } else {
      InvariantKept(s, es[0]);
      StepTold(s, past, es[0]);
      StepAnswered(s, past, es[0]);
      StepOnce(s, past, es[0]);
      RunTold(Step(s, es[0]), past + [es[0]], es[1..]);
      assert past + [es[0]] + es[1..] == past + es;
    }
  }

  /** After every run: each settlement is explained by an event.  A call that the worker has completed is
      settled as soon as its reply is delivered, with the outcome that the worker computed and its own
      request, unless an error was reported before; and the init task is resolved as soon as the worker has
      said so, with the same exception. */
  lemma {:induction false} RepliesSettleCalls(es: seq<Event>)
    requires IsRun(NEW_SYSTEM, es)
    ensures var s := After(NEW_SYSTEM, es);
            && (forall id <- s.parent.settled :: CausedBy(es, id, s.parent.settled[id]))
            && (forall id, value | CallDone(id, value) in es ::
                  && id in s.parent.calls
                  && (Count(s.toParent, ReplyTo(id)) == 0 ==> id in s.parent.settled)
                  && (id in s.parent.settled ==>
                        || s.parent.settled[id] == Outcome(s.parent.calls[id], value)
                        || (s.parent.settled[id].Failure? && ErrorIn(es, s.parent.settled[id].error))))
            && (InitDone(true) in es && Initialized !in s.toParent ==>
                  || s.parent.initTask.Resolved?
                  || (s.parent.initTask.Rejected? && ErrorIn(es, s.parent.initTask.error)))
  {
    hide Step, Enabled, Count, Booted, Flying;
    InvariantInitially();
    assert Told(NEW_SYSTEM, []) && Answered(NEW_SYSTEM, []) && OnceDone([]);
    RunTold(NEW_SYSTEM, [], es);
    assert [] + es == es;
    var s := After(NEW_SYSTEM, es);
    forall id, value | CallDone(id, value) in es
      ensures id in s.parent.calls && (Count(s.toParent, ReplyTo(id)) == 0 ==> id in s.parent.settled)
      ensures id in s.parent.settled ==>
                || s.parent.settled[id] == Outcome(s.parent.calls[id], value)
                || (s.parent.settled[id].Failure? && ErrorIn(es, s.parent.settled[id].error))
    {
      assert Back(s, id, value);
      if ReplyOf(id, s.parent.calls[id], value) in s.toParent {
        CountsOne(s.toParent, ReplyOf(id, s.parent.calls[id], value), ReplyTo(id));
      }
      if id in s.parent.settled {
        assert CausedBy(es, id, s.parent.settled[id]);
      }
    }
  }

  lemma {:induction false} CountsOne<T>(ms: seq<T>, m: T, p: T -> bool)
    requires m in ms && p(m)
    ensures Count(ms, p) > 0
    decreases |ms|
  {
    if ms[|ms| - 1] != m {
      CountsOne(ms[..|ms| - 1], m, p);
    }
  }

  /** The moment at which a reply is delivered. */
  lemma ReplySettles(s: System)
    requires Invariant(s) && s.toParent != []
    ensures var (m, p) := (s.toParent[0], Step(s, DeliverToParent).parent);
            && (m.CallResult? && m.correlationId !in s.parent.settled ==>
                  && m.correlationId in p.settled && p.settled[m.correlationId] == Success(m.answer)
                  && m.answer.request == s.parent.calls[m.correlationId])
            && (m.CallRejection? && m.correlationId !in s.parent.settled ==>
                  m.correlationId in p.settled && p.settled[m.correlationId] == Failure(FromWorker))
  {
    hide Count, Booted;
    var m := s.toParent[0];
    assert m in s.toParent;
    if m.CallResult? || m.CallRejection? {
      CountsOne(s.toParent, m, ReplyTo(m.correlationId));
      assert Flights(s, m.correlationId) == 1;
    }
  }
}
