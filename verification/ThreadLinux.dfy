/** vm_thread on Linux: a worker thread that signals a manual-reset exit event, and clients
    that register, wait for the event and leave; the last one to leave joins the worker. */
module ThreadLinux {
  import opened Runs
  import opened Census
  import C = Conditions
  import E = Event

  type Client = C.Client

  /** The worker's identity as a client of the exit event. Users are other clients. */
  const WORKER: Client := 0

  /** Running:    inside p_thread_func
      Signalling: inside vm_event_signal
      Signalled:  past it, the thread has not ended yet
      Exited:     ended */
  datatype WorkerPc = Running | Signalling | Signalled | Exited

  /** Where a user thread stands in vm_thread_wait or vm_thread_is_valid.
      WaitTested, ValidTested: found is_valid set, has not taken the mutex yet
      Waiting:  registered, inside vm_event_wait, mutex free
      WaitOver: registered, vm_event_wait has returned
      Joining:  was the last one registered; holds the mutex, inside pthread_join
      Answering: in vm_thread_is_valid, about to read is_valid once more and return it
      Probing:  holds the mutex, inside vm_event_timed_wait with no time
      Rewait:   the probe found the event high; about to call vm_thread_wait */
  datatype Pc = Idle | WaitTested | Waiting | WaitOver | Joining | ValidTested | Probing | Rewait | Answering

  datatype Owner = Free | Held(holder: Client)

  /** `asking` are the clients inside vm_thread_is_valid. `joins` counts pthread_join calls on
      the worker, and `answers` are those that vm_thread_is_valid has given. */
  datatype State = State(
    created: bool, isValid: bool, waitCount: int, exitEvent: E.State, mutex: Owner,
    worker: WorkerPc, pcs: map<Client, Pc>, asking: set<Client>, joins: nat, answers: seq<int>)

  datatype Action =
    | Finish                       // p_thread_func returns, vm_event_signal is entered
    | WorkerSignal
    | WorkerExit
    | CallWait(c: Client)
    | Register(c: Client)
    | CallIsValid(c: Client)
    | Probe(c: Client)
    | InEvent(e: E.Action)         // a step inside vm_event_wait or vm_event_timed_wait
    | Leave(c: Client)
    | Join(c: Client)
    | Answer(c: Client)

  predicate Registered(pc: Pc) {
    pc.Waiting? || pc.WaitOver?
  }

  predicate IsOutside(pc: Pc) {
    pc.Idle? || pc.Answering?
  }

  /** After vm_thread_create has succeeded or failed. */
  function Init(created: bool, spurious: bool, users: set<Client>): State {
    State(created, created, 0, E.Init(true, false, E.Anybody(users + {WORKER}, spurious)), Free,
          if created then Running else Exited, map c | c in users :: Idle, {}, 0, [])
  }

  /** Event steps that belong to a wait already begun; the thread code issues the call itself. */
  predicate InsideWait(e: E.Action) {
    !e.Call?
  }

  ghost predicate Enabled(s: State, a: Action) {
    match a
    case Finish => s.worker.Running? && E.Enabled(s.exitEvent, C.Call(WORKER, E.Signal))
    case WorkerSignal => s.worker.Signalling? && E.Enabled(s.exitEvent, C.Lock(WORKER, WORKER))
    case WorkerExit => s.worker.Signalled?
    case CallWait(c) => c in s.pcs && (s.pcs[c].Idle? || s.pcs[c].Rewait?)
    case Register(c) =>
      c in s.pcs && s.pcs[c].WaitTested? && s.mutex.Free? && E.Enabled(s.exitEvent, C.Call(c, E.Wait))
    case CallIsValid(c) => c in s.pcs && s.pcs[c].Idle?
    case Probe(c) =>
      c in s.pcs && s.pcs[c].ValidTested? && s.mutex.Free? && E.Enabled(s.exitEvent, C.Call(c, E.TimedWait))
    case InEvent(e) =>
      && e.c in s.pcs && (s.pcs[e.c].Waiting? || s.pcs[e.c].Probing?)
      && InsideWait(e) && E.Enabled(s.exitEvent, e)
    case Leave(c) => c in s.pcs && s.pcs[c].WaitOver? && s.mutex.Free?
    case Join(c) => c in s.pcs && s.pcs[c].Joining? && s.worker.Exited?
    case Answer(c) => c in s.pcs && s.pcs[c].Answering?
  }

  /** Where vm_thread_wait returns to. */
  function AfterWait(s: State, c: Client): Pc {
    if c in s.asking then Answering else Idle
  }

  /** A wait on the exit event has returned or not; what the thread code does with that. */
  function AfterEventStep(s: State, c: Client, ev: E.State): State
    requires c in s.pcs && c in ev.pcs
  {
    var t := s.(exitEvent := ev);
    if !ev.pcs[c].Out? then t
    else if s.pcs[c].Probing? then
      t.(mutex := Free, pcs := s.pcs[c := if ev.pcs[c].last == C.Ok then Rewait else Answering])
    else t.(pcs := s.pcs[c := WaitOver])
  }

  ghost function Step(s: State, a: Action): State {
    if !Enabled(s, a) then s else
    match a
    case Finish => s.(worker := Signalling, exitEvent := E.Step(s.exitEvent, C.Call(WORKER, E.Signal)))
    case WorkerSignal => s.(worker := Signalled, exitEvent := E.Step(s.exitEvent, C.Lock(WORKER, WORKER)))
    case WorkerExit => s.(worker := Exited)
    case CallWait(c) => s.(pcs := s.pcs[c := if s.isValid then WaitTested else AfterWait(s, c)])
    case Register(c) =>
      s.(waitCount := s.waitCount + 1, pcs := s.pcs[c := Waiting],
         exitEvent := E.Step(s.exitEvent, C.Call(c, E.Wait)))
    case CallIsValid(c) =>
      s.(pcs := s.pcs[c := if s.isValid then ValidTested else Answering], asking := s.asking + {c})
    case Probe(c) =>
      s.(mutex := Held(c), pcs := s.pcs[c := Probing],
         exitEvent := E.Step(s.exitEvent, C.Call(c, E.TimedWait)))
    case InEvent(e) => AfterEventStep(s, e.c, E.Step(s.exitEvent, e))
    case Leave(c) =>
      if s.waitCount - 1 == 0 then s.(waitCount := 0, mutex := Held(c), pcs := s.pcs[c := Joining])
      else s.(waitCount := s.waitCount - 1, pcs := s.pcs[c := AfterWait(s, c)])
    case Join(c) => s.(joins := s.joins + 1, isValid := false, mutex := Free, pcs := s.pcs[c := AfterWait(s, c)])
    case Answer(c) =>
      s.(answers := s.answers + [if s.isValid then 1 else 0], pcs := s.pcs[c := Idle], asking := s.asking - {c})
  }

  // ---- what every schedule keeps ----

  /** The exit event seen from the thread: high exactly when the worker has signalled. */
  ghost predicate Latch(s: State) {
    && E.ManualInv(s.exitEvent)
    && s.exitEvent.roles == E.Anybody(s.exitEvent.pcs.Keys, s.exitEvent.roles.spurious)
    && s.exitEvent.pcs.Keys == s.pcs.Keys + {WORKER} && WORKER !in s.pcs
    && (s.exitEvent.state == 1 <==> s.created && (s.worker.Signalled? || s.worker.Exited?))
    && (!s.created ==> s.worker.Exited?)
    && (s.worker.Running? ==> s.exitEvent.pcs[WORKER].Out?)
    && (s.worker.Signalling? ==> s.exitEvent.pcs[WORKER] == C.Entered(E.Signal))
    && (s.worker.Signalled? || s.worker.Exited? ==> s.exitEvent.pcs[WORKER].Out?)
    && (forall c :: c in s.pcs ==> UserInEvent(s, c))
  }

  ghost predicate UserInEvent(s: State, c: Client)
    requires c in s.pcs && c in s.exitEvent.pcs
  {
    var e := s.exitEvent.pcs[c];
    && (s.pcs[c].Waiting? ==> e == C.Entered(E.Wait) || e == C.Blocked(false) || e.Woken?)
    && (s.pcs[c].Probing? ==>
          e == C.Entered(E.TimedWait) || e == C.Blocked(true) || e.Woken? || (e.Expired? && e.why != C.Ok))
    && (!s.pcs[c].Waiting? && !s.pcs[c].Probing? ==> e.Out?)
  }

  /** What a client's own move inside a wait does to a manual-reset event. */
  ghost predicate Moved(ev: E.State, c: Client, t: E.State) {
    && c in ev.pcs && c in t.pcs
    && t.state == ev.state && t.roles == ev.roles && E.ManualInv(t)
    && t.pcs == ev.pcs[c := t.pcs[c]]
    && !t.pcs[c].Entered?
    && (t.pcs[c].Expired? ==> ev.pcs[c] == C.Blocked(true) && t.pcs[c].why != C.Ok)
    && (t.pcs[c].Blocked? ==> ev.pcs[c].Entered? && t.pcs[c].timed == ev.pcs[c].op.TimedWait?)
    && (t.pcs[c].Woken? ==> ev.roles.spurious && ev.pcs[c].Blocked?)
    && (t.pcs[c].Out? ==>
          || ev.state == 1 || ev.pcs[c].Woken?
          || (ev.pcs[c].Expired? && t.pcs[c].last == ev.pcs[c].why))
  }

  lemma MoveInsideWait(ev: E.State, e: E.Action)
    requires E.ManualInv(ev) && E.Enabled(ev, e) && InsideWait(e)
    requires ev.pcs[e.c].Entered? ==> ev.pcs[e.c].op.Wait? || ev.pcs[e.c].op.TimedWait?
    ensures Moved(ev, e.c, E.Step(ev, e))
  {
    E.ManualStep(ev, e);
  }

  lemma EnterEvent(ev: E.State, c: Client, op: E.Op)
    requires E.ManualInv(ev) && E.Enabled(ev, C.Call(c, op))
    ensures var t := E.Step(ev, C.Call(c, op));
            t == ev.(pcs := ev.pcs[c := C.Entered(op)]) && E.ManualInv(t)
  {
    E.ManualStep(ev, C.Call(c, op));
  }

  lemma LatchWorker(s: State, a: Action)
    requires Latch(s) && (a.Finish? || a.WorkerSignal? || a.WorkerExit?)
    ensures Latch(Step(s, a))
  {
    if a.Finish? && Enabled(s, a) {
      EnterEvent(s.exitEvent, WORKER, E.Signal);
    } else if a.WorkerSignal? && Enabled(s, a) {
      SignalExit(s.exitEvent);
    }
  }

  lemma SignalExit(ev: E.State)
    requires E.ManualInv(ev) && E.Enabled(ev, C.Lock(WORKER, WORKER)) && ev.pcs[WORKER] == C.Entered(E.Signal)
    ensures var t := E.Step(ev, C.Lock(WORKER, WORKER));
            && E.ManualInv(t) && t.state == 1 && t.pcs.Keys == ev.pcs.Keys && t.pcs[WORKER].Out?
            && forall c :: c in ev.pcs && c != WORKER ==>
                 t.pcs[c] == ev.pcs[c] || (ev.pcs[c].Blocked? && t.pcs[c].Woken?)
  {
    E.ManualStep(ev, C.Lock(WORKER, WORKER));
  }

  lemma LatchEnter(s: State, a: Action)
    requires Latch(s) && (a.Register? || a.Probe?)
    ensures Latch(Step(s, a))
  {
    if Enabled(s, a) {
      EnterEvent(s.exitEvent, a.c, if a.Register? then E.Wait else E.TimedWait);
    }
  }

  lemma LatchMove(s: State, c: Client, ev: E.State)
    requires Latch(s) && c in s.pcs && (s.pcs[c].Waiting? || s.pcs[c].Probing?)
    requires Moved(s.exitEvent, c, ev)
    ensures Latch(AfterEventStep(s, c, ev))
  {
    var t := AfterEventStep(s, c, ev);
    forall d | d in t.pcs ensures UserInEvent(t, d) {
      assert UserInEvent(s, d);
    }
  }

  lemma LatchStep(s: State, a: Action)
    requires Latch(s)
    ensures Latch(Step(s, a))
  {
    match a {
      case InEvent(e) =>
        if Enabled(s, a) {
          assert UserInEvent(s, e.c);
          MoveInsideWait(s.exitEvent, e);
          LatchMove(s, e.c, E.Step(s.exitEvent, e));
        }
      case Register(_) => LatchEnter(s, a);
      case Probe(_) => LatchEnter(s, a);
      case Finish => LatchWorker(s, a);
      case WorkerSignal => LatchWorker(s, a);
      case WorkerExit => LatchWorker(s, a);
      case _ => LatchOutsideEvent(s, a);
    }
  }

  lemma LatchOutsideEvent(s: State, a: Action)
    requires Latch(s) && (a.CallWait? || a.CallIsValid? || a.Leave? || a.Join? || a.Answer?)
    ensures Latch(Step(s, a))
  {
    forall d | d in Step(s, a).pcs ensures UserInEvent(Step(s, a), d) {
      assert UserInEvent(s, d);
    }
  }

  lemma LatchInductive()
    ensures Inductive(Step, Latch)
  {
    forall s, a | Latch(s) ensures Latch(Step(s, a)) {
      LatchStep(s, a);
    }
  }

  ghost predicate Raised(s: State) {
    Latch(s) && s.exitEvent.state == 1
  }

  lemma RaisedInductive()
    ensures Inductive(Step, Raised)
  {
    forall s, a | Raised(s) ensures Raised(Step(s, a)) {
      RaisedStep(s, a);
    }
  }

  lemma RaisedStep(s: State, a: Action)
    requires Raised(s)
    ensures Raised(Step(s, a))
  {
    LatchStep(s, a);
    assert Step(s, a).created == s.created;
  }

  /** Once the worker has signalled, the exit event is high for good and nobody sleeps on it,
      in every continuation of every schedule. */
  lemma ExitSignalLatches(created: bool, spurious: bool, users: set<Client>, acts: seq<Action>, more: seq<Action>)
    requires WORKER !in users
    ensures var s := Run(Step, Init(created, spurious, users), acts);
            var t := Run(Step, Init(created, spurious, users), acts + more);
            && (s.exitEvent.state == 1 <==> created && (s.worker.Signalled? || s.worker.Exited?))
            && (s.exitEvent.state == 1 ==> t.exitEvent.state == 1 && C.NobodyBlocked(t.exitEvent.pcs))
  {
    var init := Init(created, spurious, users);
    LatchInductive();
    InvariantOfRuns(Step, Latch, init, acts);
    CreatedIsFixed(init, acts);
    RunConcat(Step, init, acts, more);
    var s := Run(Step, init, acts);
    if s.exitEvent.state == 1 {
      RaisedInductive();
      InvariantOfRuns(Step, Raised, s, more);
    }
  }

  lemma CreatedIsFixed(start: State, acts: seq<Action>)
    ensures Run(Step, start, acts).created == start.created
  {
    var inv := (s: State) => s.created == start.created;
    assert Inductive(Step, inv);
    InvariantOfRuns(Step, inv, start, acts);
  }

  /** The bookkeeping: i_wait_count, the mutex, is_valid and the joins made so far. */
  ghost predicate Books(s: State) {
    && s.waitCount == Count(s.pcs, Registered)
    && (s.mutex.Held? ==> s.mutex.holder in s.pcs && Holds(s.pcs[s.mutex.holder]))
    && (forall c :: c in s.pcs && Holds(s.pcs[c]) ==> s.mutex == Held(c))
    && (s.isValid ==> s.created && s.joins == 0)
    && (s.created && !s.isValid ==> 1 <= s.joins && s.worker.Exited?)
    && (!s.isValid ==> s.joins <= Count(s.pcs, IsOutside))
  }

  predicate Holds(pc: Pc) {
    pc.Joining? || pc.Probing?
  }

  lemma MoveCounts(s: State, c: Client, t: State)
    requires c in s.pcs && t.pcs.Keys == s.pcs.Keys && t.pcs == s.pcs[c := t.pcs[c]]
    ensures Count(t.pcs, Registered) ==
            Count(s.pcs, Registered) + (if Registered(t.pcs[c]) then 1 else 0) - (if Registered(s.pcs[c]) then 1 else 0)
    ensures Count(t.pcs, IsOutside) ==
            Count(s.pcs, IsOutside) + (if IsOutside(t.pcs[c]) then 1 else 0) - (if IsOutside(s.pcs[c]) then 1 else 0)
  {
    CountMove(s.pcs, c, t.pcs[c], Registered);
    CountMove(s.pcs, c, t.pcs[c], IsOutside);
  }

  lemma BooksCall(s: State, a: Action)
    requires Books(s) && Enabled(s, a) && (a.CallWait? || a.CallIsValid? || a.Register? || a.Probe? || a.Answer?)
    ensures Books(Step(s, a))
  {
    MoveCounts(s, a.c, Step(s, a));
  }

  lemma BooksEvent(s: State, c: Client, ev: E.State)
    requires Books(s) && c in s.pcs && c in ev.pcs && (s.pcs[c].Waiting? || s.pcs[c].Probing?)
    ensures Books(AfterEventStep(s, c, ev))
  {
    var t := AfterEventStep(s, c, ev);
    assert s.pcs[c := s.pcs[c]] == s.pcs;
    MoveCounts(s, c, t);
  }

  lemma BooksLeave(s: State, a: Action)
    requires Books(s) && Enabled(s, a) && (a.Leave? || a.Join?)
    ensures Books(Step(s, a))
  {
    MoveCounts(s, a.c, Step(s, a));
  }

  lemma BooksStep(s: State, a: Action)
    requires Books(s)
    ensures Books(Step(s, a))
  {
    if Enabled(s, a) {
      match a {
        case Leave(_) => BooksLeave(s, a);
        case Join(_) => BooksLeave(s, a);
        case InEvent(e) => BooksEvent(s, e.c, E.Step(s.exitEvent, e));
        case CallWait(_) => BooksCall(s, a);
        case CallIsValid(_) => BooksCall(s, a);
        case Register(_) => BooksCall(s, a);
        case Probe(_) => BooksCall(s, a);
        case Answer(_) => BooksCall(s, a);
        case _ =>
      }
    }
  }

  lemma BooksInductive()
    ensures Inductive(Step, Books)
  {
    forall s, a | Books(s) ensures Books(Step(s, a)) {
      BooksStep(s, a);
    }
  }

  /** Over every schedule i_wait_count is the number of registered waiters. The worker is
      joined only after it ended, is_valid drops exactly then, and there are never more
      joins than clients. */
  lemma WaitCountAndJoins(created: bool, spurious: bool, users: set<Client>, acts: seq<Action>)
    ensures var s := Run(Step, Init(created, spurious, users), acts);
            && s.waitCount == Count(s.pcs, Registered)
            && s.joins <= |users|
            && (s.joins > 0 ==> created && s.worker.Exited?)
            && (s.isValid <==> created && s.joins == 0)
  {
    var init := Init(created, spurious, users);
    BooksHold(created, spurious, users, acts);
    CreatedIsFixed(init, acts);
    UsersAreFixed(init, acts);
    if !created {
      assert NeverCreated(init);
      NeverCreatedMeansOutside(init, acts);
    }
    ReadBooks(Run(Step, init, acts));
    assert init.pcs.Keys == users;
  }

  lemma BooksHold(created: bool, spurious: bool, users: set<Client>, acts: seq<Action>)
    ensures Books(Run(Step, Init(created, spurious, users), acts))
  {
    var init := Init(created, spurious, users);
    assert At(init.pcs, Registered) == {};
    BooksInductive();
    InvariantOfRuns(Step, Books, init, acts);
  }

  lemma ReadBooks(s: State)
    requires Books(s) && (!s.created ==> s.joins == 0)
    ensures s.joins <= |s.pcs.Keys|
    ensures s.joins > 0 ==> s.worker.Exited?
    ensures s.isValid <==> s.created && s.joins == 0
  {
    CountWithin(s.pcs, IsOutside);
  }

  lemma UsersAreFixed(start: State, acts: seq<Action>)
    ensures Run(Step, start, acts).pcs.Keys == start.pcs.Keys
  {
    var inv := (s: State) => s.pcs.Keys == start.pcs.Keys;
    assert Inductive(Step, inv);
    InvariantOfRuns(Step, inv, start, acts);
  }

  ghost predicate NeverCreated(s: State) {
    !s.isValid && s.joins == 0 && forall c :: c in s.pcs ==> IsOutside(s.pcs[c])
  }

  lemma NeverCreatedMeansOutside(start: State, acts: seq<Action>)
    requires NeverCreated(start)
    ensures NeverCreated(Run(Step, start, acts))
  {
    assert Inductive(Step, NeverCreated);
    InvariantOfRuns(Step, NeverCreated, start, acts);
  }

  /** Without unasked wake-ups, whoever got past the exit event did so because it was high. */
  ghost predicate Honest(s: State) {
    && Latch(s) && !s.exitEvent.roles.spurious
    && forall c :: c in s.pcs && (s.exitEvent.pcs[c].Woken? || PastEvent(s.pcs[c])) ==> s.exitEvent.state == 1
  }

  predicate PastEvent(pc: Pc) {
    pc.WaitOver? || pc.Joining? || pc.Rewait?
  }

  lemma HonestWorker(s: State, a: Action)
    requires Honest(s) && Enabled(s, a) && (a.Finish? || a.WorkerSignal? || a.WorkerExit?)
    ensures Honest(Step(s, a))
  {
    LatchStep(s, a);
    if a.Finish? {
      EnterEvent(s.exitEvent, WORKER, E.Signal);
    } else if a.WorkerSignal? {
      SignalExit(s.exitEvent);
    }
  }

  lemma HonestEnter(s: State, a: Action)
    requires Honest(s) && Enabled(s, a) && (a.Register? || a.Probe?)
    ensures Honest(Step(s, a))
  {
    LatchStep(s, a);
    EnterEvent(s.exitEvent, a.c, if a.Register? then E.Wait else E.TimedWait);
  }

  lemma HonestMove(s: State, c: Client, ev: E.State)
    requires Honest(s) && c in s.pcs && (s.pcs[c].Waiting? || s.pcs[c].Probing?)
    requires Moved(s.exitEvent, c, ev)
    ensures Honest(AfterEventStep(s, c, ev))
  {
    LatchMove(s, c, ev);
    assert UserInEvent(s, c);
  }

  lemma HonestStep(s: State, a: Action)
    requires Honest(s)
    ensures Honest(Step(s, a))
  {
    if Enabled(s, a) {
      match a {
        case Finish => HonestWorker(s, a);
        case WorkerSignal => HonestWorker(s, a);
        case WorkerExit => HonestWorker(s, a);
        case Register(_) => HonestEnter(s, a);
        case Probe(_) => HonestEnter(s, a);
        case InEvent(e) =>
          assert UserInEvent(s, e.c);
          MoveInsideWait(s.exitEvent, e);
          HonestMove(s, e.c, E.Step(s.exitEvent, e));
        case _ => LatchOutsideEvent(s, a);
      }
    }
  }

  /** The action is part of a call of vm_thread_wait by `a.c`, which is outside afterwards. */
  ghost predicate WaitReturns(s: State, a: Action) {
    Enabled(s, a) && (a.CallWait? || a.Register? || a.Leave? || a.Join?) && IsOutside(Step(s, a).pcs[a.c])
  }

  /** The worker has signalled its end or was never created. */
  predicate Over(s: State) {
    !s.created || s.worker.Signalled? || s.worker.Exited?
  }

  /** In every schedule vm_thread_wait returns only if the worker is over. */
  ghost predicate ReturnsOnlyAfterExit(created: bool, spurious: bool, users: set<Client>) {
    forall acts, a :: WaitReturns(Run(Step, Init(created, spurious, users), acts), a) ==>
      Over(Run(Step, Init(created, spurious, users), acts))
  }

  lemma HonestReturns(created: bool, users: set<Client>, acts: seq<Action>, a: Action)
    requires WORKER !in users
    requires WaitReturns(Run(Step, Init(created, false, users), acts), a)
    ensures Over(Run(Step, Init(created, false, users), acts))
  {
    var init := Init(created, false, users);
    HonestInductive();
    InvariantOfRuns(Step, Honest, init, acts);
    WaitCountAndJoins(created, false, users, acts);
    CreatedIsFixed(init, acts);
    HonestEnd(Run(Step, init, acts), a);
  }

  lemma HonestEnd(s: State, a: Action)
    requires Honest(s) && WaitReturns(s, a)
    requires s.joins > 0 ==> s.worker.Exited?
    requires s.isValid <==> s.created && s.joins == 0
    ensures Over(s)
  {
  }

  lemma HonestInductive()
    ensures Inductive(Step, Honest)
  {
    forall s, a | Honest(s) ensures Honest(Step(s, a)) {
      HonestStep(s, a);
    }
  }

  lemma RegisteredAreCounted(pcs: map<Client, Pc>)
    ensures forall c :: c in pcs && Registered(pcs[c]) ==> Count(pcs, Registered) > 0
  {
    forall c | c in pcs && Registered(pcs[c]) ensures Count(pcs, Registered) > 0 {
      assert c in At(pcs, Registered);
    }
  }

  /** A client alone with the thread joins the worker itself, whatever woke it. */
  lemma SingleReturns(created: bool, spurious: bool, users: set<Client>, acts: seq<Action>, a: Action)
    requires |users| <= 1
    requires WaitReturns(Run(Step, Init(created, spurious, users), acts), a)
    ensures Over(Run(Step, Init(created, spurious, users), acts))
  {
    var init := Init(created, spurious, users);
    var s := Run(Step, init, acts);
    WaitCountAndJoins(created, spurious, users, acts);
    CreatedIsFixed(init, acts);
    UsersAreFixed(init, acts);
    assert init.pcs.Keys == users;
    CountWithin(s.pcs, Registered);
    RegisteredAreCounted(s.pcs);
  }

  /** Two clients test is_valid and register. */
  lemma BothRegister(users: set<Client>, c1: Client, c2: Client) returns (acts: seq<Action>)
    requires WORKER !in users && {c1, c2} <= users && c1 != c2
    ensures var init := Init(true, true, users);
            Run(Step, init, acts) ==
            init.(waitCount := 2, pcs := init.pcs[c1 := Waiting][c2 := Waiting],
                  exitEvent := init.exitEvent.(pcs :=
                    init.exitEvent.pcs[c1 := C.Entered(E.Wait)][c2 := C.Entered(E.Wait)]))
  {
    var init := Init(true, true, users);
    acts := Then(Step, init, [], CallWait(c1));
    acts := Then(Step, init, acts, CallWait(c2));
    var tested := init.(pcs := init.pcs[c1 := WaitTested][c2 := WaitTested]);
    assert Run(Step, init, acts) == tested;
    acts := Then(Step, init, acts, Register(c1));
    acts := Then(Step, init, acts, Register(c2));
    assert tested.pcs[c1 := Waiting][c2 := Waiting] == init.pcs[c1 := Waiting][c2 := Waiting];
  }

  /** The event wakes one of them unasked; it is not the last one registered, so it returns
      with the worker still running. */
  lemma ReturnsTooEarly(users: set<Client>, c1: Client, c2: Client) returns (acts: seq<Action>)
    requires WORKER !in users && {c1, c2} <= users && c1 != c2
    ensures var s := Run(Step, Init(true, true, users), acts); WaitReturns(s, Leave(c1)) && s.worker.Running?
  {
    var init := Init(true, true, users);
    acts := BothRegister(users, c1, c2);
    acts := Then(Step, init, acts, InEvent(C.Lock(c1, c1)));
    acts := Then(Step, init, acts, InEvent(C.WakeUnasked(c1)));
    acts := Then(Step, init, acts, InEvent(C.Resume(c1)));
  }

  /** vm_thread_wait returns only after the worker's end, in every schedule, exactly if the
      platform does not wake threads unasked or one client at most uses a created thread. */
  lemma WaitReturnsOnlyAfterExitIff(created: bool, spurious: bool, users: set<Client>)
    requires WORKER !in users
    ensures ReturnsOnlyAfterExit(created, spurious, users) <==> !created || !spurious || |users| <= 1
  {
    if created && spurious && |users| > 1 {
      var c1 := AnotherMember(users, WORKER);
      var c2 := AnotherMember(users, c1);
      var acts := ReturnsTooEarly(users, c1, c2);
      assert WaitReturns(Run(Step, Init(true, true, users), acts), Leave(c1));
      CreatedIsFixed(Init(true, true, users), acts);
    } else {
      forall acts, a | WaitReturns(Run(Step, Init(created, spurious, users), acts), a)
        ensures Over(Run(Step, Init(created, spurious, users), acts))
      {
        if |users| <= 1 {
          SingleReturns(created, spurious, users, acts, a);
        } else if !spurious {
          HonestReturns(created, users, acts, a);
        } else {
          CreatedIsFixed(Init(created, spurious, users), acts);
        }
      }
    }
  }

  // ---- nobody is left behind ----

  /** Moves a client still has to make, at most. */
  function Rank(pc: Pc): nat {
    match pc
    case Idle => 0
    case Answering => 1
    case Joining => 2
    case WaitOver => 3
    case Waiting => 4
    case WaitTested => 5
    case Rewait => 6
    case Probing => 7
    case ValidTested => 8
  }

  function Remaining(s: State): nat {
    Total(s.pcs, Rank, 8)
  }

  function NextMove(s: State, c: Client): Action
    requires c in s.pcs && c in s.exitEvent.pcs && !s.pcs[c].Idle?
  {
    match s.pcs[c]
    case ValidTested => Probe(c)
    case Rewait => CallWait(c)
    case WaitTested => Register(c)
    case WaitOver => Leave(c)
    case Joining => Join(c)
    case Answering => Answer(c)
    case _ => InEvent(if s.exitEvent.pcs[c].Entered? then C.Lock(c, c) else C.Resume(c))
  }

  /** The worker has exited, and the clients can only be on their way out. */
  ghost predicate Closing(s: State) {
    Latch(s) && Books(s) && s.worker.Exited? && (s.created || NeverCreated(s))
  }

  ghost predicate MayMove(s: State, c: Client) {
    c in s.pcs && !s.pcs[c].Idle? && (s.mutex.Free? || s.mutex == Held(c))
  }

  lemma SomebodyMayMove(s: State, c: Client) returns (d: Client)
    requires Books(s) && c in s.pcs && !s.pcs[c].Idle?
    ensures MayMove(s, d)
  {
    d := if s.mutex.Held? then s.mutex.holder else c;
  }

  lemma NextMoveEnabled(s: State, c: Client)
    requires Closing(s) && MayMove(s, c)
    ensures Enabled(s, NextMove(s, c))
  {
    assert UserInEvent(s, c) && !C.IsBlocked(s.exitEvent.pcs, c);
  }

  lemma EventMoveLowersRank(s: State, c: Client)
    requires Closing(s) && MayMove(s, c) && NextMove(s, c).InEvent?
    ensures var t := Step(s, NextMove(s, c));
            t.pcs.Keys == s.pcs.Keys && t.pcs == s.pcs[c := t.pcs[c]] && Rank(t.pcs[c]) < Rank(s.pcs[c])
  {
    NextMoveEnabled(s, c);
    assert UserInEvent(s, c) && !C.IsBlocked(s.exitEvent.pcs, c);
  }

  lemma NextMoveLowersRank(s: State, c: Client)
    requires Closing(s) && MayMove(s, c)
    ensures var t := Step(s, NextMove(s, c));
            t.pcs.Keys == s.pcs.Keys && t.pcs == s.pcs[c := t.pcs[c]] && Rank(t.pcs[c]) < Rank(s.pcs[c])
  {
    NextMoveEnabled(s, c);
    if NextMove(s, c).InEvent? {
      EventMoveLowersRank(s, c);
    }
  }

  lemma ClosingStep(s: State, a: Action)
    requires Closing(s)
    ensures Closing(Step(s, a))
  {
    LatchStep(s, a);
    BooksStep(s, a);
    StaysOver(s, a);
  }

  lemma StaysOver(s: State, a: Action)
    requires s.worker.Exited?
    ensures Step(s, a).worker.Exited? && Step(s, a).created == s.created
  {
  }

  lemma MoveMakesProgress(s: State, c: Client)
    requires Closing(s) && MayMove(s, c)
    ensures var t := Step(s, NextMove(s, c)); Closing(t) && Remaining(t) < Remaining(s) && (Owed(s) ==> Owed(t))
  {
    var a := NextMove(s, c);
    var t := Step(s, a);
    ClosingStep(s, a);
    NextMoveLowersRank(s, c);
    TotalMove(s.pcs, c, t.pcs[c], Rank, 8);
    if Owed(s) {
      StaysOwed(s, c, t);
    }
  }

  lemma StaysOwed(s: State, c: Client, t: State)
    requires Closing(s) && MayMove(s, c) && t == Step(s, NextMove(s, c)) && Owed(s)
    ensures Owed(t)
  {
    if s.pcs[c].WaitOver? {
      assert t.waitCount > 0 || t.pcs[c].Joining?;
    }
  }

  lemma {:induction false} EverybodyCanLeave(s: State) returns (acts: seq<Action>)
    requires Closing(s)
    ensures var t := Run(Step, s, acts);
            && (forall c :: c in t.pcs ==> t.pcs[c].Idle?)
            && t.mutex.Free? && t.waitCount == 0 && (Owed(s) ==> !t.isValid)
    decreases Remaining(s)
  {
    if c :| c in s.pcs && !s.pcs[c].Idle? {
      var d := SomebodyMayMove(s, c);
      MoveMakesProgress(s, d);
      var move := NextMove(s, d);
      var rest := EverybodyCanLeave(Step(s, move));
      acts := [move] + rest;
      RunConcat(Step, s, [move], rest);
      assert Run(Step, s, [move]) == Step(s, move);
    } else {
      acts := [];
      assert At(s.pcs, Registered) == {};
    }
  }

  /** Once the worker has exited, every client can still get out of whatever call it is in,
      and if anybody was registered the worker is joined when they all are. */
  lemma ClientsAlwaysGetOut(created: bool, spurious: bool, users: set<Client>, acts: seq<Action>)
    returns (more: seq<Action>)
    requires WORKER !in users && Run(Step, Init(created, spurious, users), acts).worker.Exited?
    ensures var s := Run(Step, Init(created, spurious, users), acts);
            var t := Run(Step, Init(created, spurious, users), acts + more);
            && (forall c :: c in t.pcs ==> t.pcs[c].Idle?)
            && t.mutex.Free? && t.waitCount == 0 && (s.waitCount > 0 ==> !t.isValid)
  {
    var init := Init(created, spurious, users);
    CreatedIsFixed(init, acts);
    BooksHold(created, spurious, users, acts);
    LatchInductive();
    InvariantOfRuns(Step, Latch, init, acts);
    if !created {
      NeverCreatedMeansOutside(init, acts);
    }
    more := EverybodyCanLeave(Run(Step, init, acts));
    RunConcat(Step, init, acts, more);
  }

  // ---- what vm_thread_is_valid answers ----

  predicate IsAnswer(answer: int) {
    answer == 0 || answer == 1
  }

  /** The answers are 1 as long as is_valid is set, and 0 from there on. */
  ghost predicate AnswersFall(s: State) {
    && (s.isValid ==> forall i :: 0 <= i < |s.answers| ==> s.answers[i] == 1)
    && (forall i :: 0 <= i < |s.answers| ==> IsAnswer(s.answers[i]))
    && (forall i, j :: 0 <= i < j < |s.answers| ==> s.answers[j] <= s.answers[i])
  }

  lemma AnswersFallInductive()
    ensures Inductive(Step, AnswersFall)
  {
    forall s, a | AnswersFall(s) ensures AnswersFall(Step(s, a)) {
      AnswersFallStep(s, a);
    }
  }

  lemma AnswersFallStep(s: State, a: Action)
    requires AnswersFall(s)
    ensures AnswersFall(Step(s, a))
  {
    var t := Step(s, a);
    assert t.isValid ==> s.isValid;
    assert t.answers != s.answers ==> t.answers == s.answers + [if s.isValid then 1 else 0];
  }

  /** Over every schedule vm_thread_is_valid answers 0 or 1 and never goes back from 0. After a
      0 the worker has ended, or has never been created. */
  lemma ValidityNeverReturns(created: bool, spurious: bool, users: set<Client>, acts: seq<Action>)
    ensures var s := Run(Step, Init(created, spurious, users), acts);
            && (forall i :: 0 <= i < |s.answers| ==> IsAnswer(s.answers[i]))
            && (forall i, j :: 0 <= i < j < |s.answers| ==> s.answers[j] <= s.answers[i])
            && (0 in s.answers ==> !s.isValid && s.worker.Exited?)
  {
    var init := Init(created, spurious, users);
    AnswersFallInductive();
    InvariantOfRuns(Step, AnswersFall, init, acts);
    WaitCountAndJoins(created, spurious, users, acts);
    ExitedUnlessCreated(init, acts);
  }

  /** Somebody is registered or joining, or the worker has been joined. */
  ghost predicate Owed(s: State) {
    s.waitCount > 0 || !s.isValid || exists c :: c in s.pcs && s.pcs[c].Joining?
  }

  /** Once that is so it stays so: the last one registered joins. */
  lemma OwedStep(s: State, a: Action)
    requires Owed(s)
    ensures Owed(Step(s, a))
  {
    var t := Step(s, a);
    if c :| c in s.pcs && s.pcs[c].Joining? {
      assert t.isValid ==> t.pcs[c].Joining?;
    }
    if a.Leave? && Enabled(s, a) {
      assert t.waitCount > 0 || !t.isValid || t.pcs[a.c].Joining? || s.waitCount <= 0;
    }
  }

  /** c has called vm_thread_is_valid when the exit event was high and is not back yet. */
  ghost predicate Asks(s: State, c: Client) {
    && Raised(s) && Books(s) && c in s.pcs && c in s.asking && !s.pcs[c].Idle?
    && (s.pcs[c].Answering? ==> Owed(s))
    && (s.pcs[c].Probing? ==> s.exitEvent.pcs[c] == C.Entered(E.TimedWait))
  }

  lemma AsksStep(s: State, a: Action, c: Client)
    requires Asks(s, c) && a != Answer(c)
    ensures Asks(Step(s, a), c)
  {
    RaisedStep(s, a);
    BooksStep(s, a);
    if s.pcs[c].Answering? {
      OwedStep(s, a);
    }
    if a.InEvent? {
      AsksEvent(s, a, c);
    }
  }

  lemma AsksEvent(s: State, a: Action, c: Client)
    requires Asks(s, c) && a.InEvent?
    ensures Step(s, a).asking == s.asking && c in Step(s, a).pcs && c in Step(s, a).exitEvent.pcs
    ensures a.e.c != c ==> Step(s, a).pcs[c] == s.pcs[c] && Step(s, a).exitEvent.pcs[c] == s.exitEvent.pcs[c]
    ensures !Step(s, a).pcs[c].Idle?
    ensures Step(s, a).pcs[c].Answering? ==> s.pcs[c].Answering?
    ensures Step(s, a).pcs[c].Probing? ==> Step(s, a).exitEvent.pcs[c] == C.Entered(E.TimedWait)
  {
    if Enabled(s, a) {
      assert UserInEvent(s, a.e.c);
      MoveInsideWait(s.exitEvent, a.e);
    }
  }

  lemma {:induction false} AsksOn(s: State, middle: seq<Action>, c: Client)
    requires Asks(s, c) && Answer(c) !in middle
    ensures Asks(Run(Step, s, middle), c)
    decreases |middle|
  {
    if middle != [] {
      var n := |middle| - 1;
      AsksOn(s, middle[..n], c);
      assert middle[n] in middle;
      AsksStep(Run(Step, s, middle[..n]), middle[n], c);
    }
  }

  /** In every schedule vm_thread_is_valid answers 0 exactly if the worker has been joined or was
      never created. When it is called after the worker has signalled its end it answers 1 only if
      another client is registered or joining when it does, so the join is still to come. */
  lemma EndIsToldUnlessOthersWait(
      created: bool, spurious: bool, users: set<Client>, front: seq<Action>, c: Client, middle: seq<Action>)
    requires WORKER !in users && Answer(c) !in middle
    requires var s := Run(Step, Init(created, spurious, users), front);
             Enabled(s, CallIsValid(c)) && s.exitEvent.state == 1
    requires Enabled(Run(Step, Init(created, spurious, users), front + [CallIsValid(c)] + middle), Answer(c))
    ensures var t := Run(Step, Init(created, spurious, users), front + [CallIsValid(c)] + middle);
            && Step(t, Answer(c)).answers == t.answers + [if t.joins > 0 then 0 else 1]
            && (t.joins == 0 ==> exists d :: d in t.pcs && d != c && (Registered(t.pcs[d]) || t.pcs[d].Joining?))
  {
    AsksUntilAnswer(created, spurious, users, front, c, middle);
    WaitCountAndJoins(created, spurious, users, front + [CallIsValid(c)] + middle);
    AnswerToAsker(Run(Step, Init(created, spurious, users), front + [CallIsValid(c)] + middle), c);
  }

  lemma AsksUntilAnswer(
      created: bool, spurious: bool, users: set<Client>, front: seq<Action>, c: Client, middle: seq<Action>)
    requires WORKER !in users && Answer(c) !in middle
    requires var s := Run(Step, Init(created, spurious, users), front);
             Enabled(s, CallIsValid(c)) && s.exitEvent.state == 1
    ensures created && Asks(Run(Step, Init(created, spurious, users), front + [CallIsValid(c)] + middle), c)
  {
    var init := Init(created, spurious, users);
    LatchInductive();
    InvariantOfRuns(Step, Latch, init, front);
    BooksHold(created, spurious, users, front);
    CreatedIsFixed(init, front);
    StartsAsking(Run(Step, init, front), c);
    var acts := Then(Step, init, front, CallIsValid(c));
    AsksOn(Run(Step, init, acts), middle, c);
    RunConcat(Step, init, acts, middle);
  }

  lemma StartsAsking(s: State, c: Client)
    requires Raised(s) && Books(s) && Enabled(s, CallIsValid(c))
    ensures Asks(Step(s, CallIsValid(c)), c)
  {
    RaisedStep(s, CallIsValid(c));
    BooksStep(s, CallIsValid(c));
  }

  lemma AnswerToAsker(t: State, c: Client)
    requires Asks(t, c) && Enabled(t, Answer(c)) && (t.isValid <==> t.joins == 0)
    ensures Step(t, Answer(c)).answers == t.answers + [if t.joins > 0 then 0 else 1]
    ensures t.joins == 0 ==> exists d :: d in t.pcs && d != c && (Registered(t.pcs[d]) || t.pcs[d].Joining?)
  {
    if t.joins == 0 {
      var d := SomebodyOwes(t);
    }
  }

  lemma SomebodyOwes(s: State) returns (d: Client)
    requires Books(s) && Owed(s) && s.isValid
    ensures d in s.pcs && (Registered(s.pcs[d]) || s.pcs[d].Joining?)
  {
    if s.waitCount > 0 {
      assert At(s.pcs, Registered) != {};
      d :| d in At(s.pcs, Registered);
    } else {
      d :| d in s.pcs && s.pcs[d].Joining?;
    }
  }

  /** So a client alone with a worker that has signalled its end joins it by asking, and is told. */
  lemma LoneClientIsTold(created: bool, spurious: bool, c: Client, front: seq<Action>, middle: seq<Action>)
    requires c != WORKER && Answer(c) !in middle
    requires var s := Run(Step, Init(created, spurious, {c}), front);
             Enabled(s, CallIsValid(c)) && s.exitEvent.state == 1
    requires Enabled(Run(Step, Init(created, spurious, {c}), front + [CallIsValid(c)] + middle), Answer(c))
    ensures var t := Run(Step, Init(created, spurious, {c}), front + [CallIsValid(c)] + middle);
            Step(t, Answer(c)).answers == t.answers + [0] && t.joins == 1 && !t.isValid
  {
    EndIsToldUnlessOthersWait(created, spurious, {c}, front, c, middle);
    WaitCountAndJoins(created, spurious, {c}, front + [CallIsValid(c)] + middle);
    UsersAreFixed(Init(created, spurious, {c}), front + [CallIsValid(c)] + middle);
  }

  // ---- whether vm_thread_is_valid can block ----

  /** c has called vm_thread_is_valid, and that has gone on to vm_thread_wait. */
  ghost predicate WaitsInIsValid(s: State, c: Client) {
    && c in s.pcs && c in s.asking
    && (s.pcs[c].Rewait? || s.pcs[c].WaitTested? || s.pcs[c].Waiting? || s.pcs[c].WaitOver? || s.pcs[c].Joining?)
  }

  /** In every schedule it does so only if the worker is over. */
  ghost predicate IsValidNeverWaits(created: bool, spurious: bool, users: set<Client>) {
    forall acts, c :: WaitsInIsValid(Run(Step, Init(created, spurious, users), acts), c) ==>
      Over(Run(Step, Init(created, spurious, users), acts))
  }

  ghost predicate Patient(s: State) {
    Honest(s) && IdleNotAsking(s) && forall c :: WaitsInIsValid(s, c) ==> s.exitEvent.state == 1
  }

  ghost predicate IdleNotAsking(s: State) {
    forall c :: c in s.pcs && s.pcs[c].Idle? ==> c !in s.asking
  }

  /** The only way there is from the probe. */
  lemma EntersThroughProbe(s: State, a: Action)
    requires IdleNotAsking(s)
    ensures IdleNotAsking(Step(s, a))
    ensures forall c :: WaitsInIsValid(Step(s, a), c) ==> WaitsInIsValid(s, c) || Step(s, a).pcs[c].Rewait?
  {
  }

  lemma PatientStep(s: State, a: Action)
    requires Patient(s)
    ensures Patient(Step(s, a))
  {
    HonestStep(s, a);
    EntersThroughProbe(s, a);
    HighStays(s, a);
  }

  lemma HighStays(s: State, a: Action)
    requires Latch(s)
    ensures s.exitEvent.state == 1 ==> Step(s, a).exitEvent.state == 1
  {
    if s.exitEvent.state == 1 {
      RaisedStep(s, a);
    }
  }

  /** A client's probe is woken unasked and goes on to wait for a worker that is still running. */
  lemma ProbeWokenUnasked(users: set<Client>, c: Client) returns (acts: seq<Action>)
    requires WORKER !in users && c in users
    ensures var s := Run(Step, Init(true, true, users), acts); WaitsInIsValid(s, c) && s.worker.Running?
  {
    var init := Init(true, true, users);
    acts := Then(Step, init, [], CallIsValid(c));
    acts := Then(Step, init, acts, Probe(c));
    acts := Then(Step, init, acts, InEvent(C.Lock(c, c)));
    acts := Then(Step, init, acts, InEvent(C.WakeUnasked(c)));
    acts := Then(Step, init, acts, InEvent(C.Resume(c)));
  }

  /** vm_thread_is_valid waits only for a worker that is over, in every schedule, exactly if the
      platform does not wake threads unasked or nobody uses a created thread. */
  lemma IsValidNeverWaitsIff(created: bool, spurious: bool, users: set<Client>)
    requires WORKER !in users
    ensures IsValidNeverWaits(created, spurious, users) <==> !created || !spurious || users == {}
  {
    if c :| created && spurious && c in users {
      var acts := ProbeWokenUnasked(users, c);
      assert WaitsInIsValid(Run(Step, Init(true, true, users), acts), c);
      CreatedIsFixed(Init(true, true, users), acts);
    } else {
      forall acts, c | WaitsInIsValid(Run(Step, Init(created, spurious, users), acts), c)
        ensures Over(Run(Step, Init(created, spurious, users), acts))
      {
        OnlyOverIsWaitedFor(created, spurious, users, acts, c);
      }
    }
  }

  lemma OnlyOverIsWaitedFor(created: bool, spurious: bool, users: set<Client>, acts: seq<Action>, c: Client)
    requires WORKER !in users && (!created || !spurious || users == {})
    requires WaitsInIsValid(Run(Step, Init(created, spurious, users), acts), c)
    ensures Over(Run(Step, Init(created, spurious, users), acts))
  {
    var init := Init(created, spurious, users);
    CreatedIsFixed(init, acts);
    UsersAreFixed(init, acts);
    if !spurious {
      forall s, a | Patient(s) ensures Patient(Step(s, a)) {
        PatientStep(s, a);
      }
      InvariantOfRuns(Step, Patient, init, acts);
    }
  }

  /** The mutex is held by one client at most, and while it is nobody registers, leaves or probes. */
  lemma OneHolderAtMost(created: bool, spurious: bool, users: set<Client>, acts: seq<Action>, c: Client, d: Client)
    requires var s := Run(Step, Init(created, spurious, users), acts); c in s.pcs && Holds(s.pcs[c]) && d in s.pcs
    ensures var s := Run(Step, Init(created, spurious, users), acts);
            && (Holds(s.pcs[d]) ==> c == d)
            && !Enabled(s, Register(d)) && !Enabled(s, Leave(d)) && !Enabled(s, Probe(d))
  {
    BooksHold(created, spurious, users, acts);
  }

  lemma ExitedUnlessCreated(start: State, acts: seq<Action>)
    requires !start.created ==> start.worker.Exited?
    ensures Run(Step, start, acts).created == start.created
    ensures !start.created ==> Run(Step, start, acts).worker.Exited?
  {
    var inv := (s: State) => s.created == start.created && (!start.created ==> s.worker.Exited?);
    assert Inductive(Step, inv);
    InvariantOfRuns(Step, inv, start, acts);
  }

  // ---- how many joins there can be ----

  /** The clients of `done` are at `early`, the others at `late`. */
  ghost predicate Ranks(s: State, done: set<Client>, early: Pc, late: Pc) {
    && done <= s.pcs.Keys && WORKER !in s.pcs
    && (forall c :: c in s.pcs ==> s.pcs[c] == if c in done then early else late)
    && Quiet(s.exitEvent, s.pcs.Keys) && s.mutex.Free? && s.waitCount == 0 && s.asking == {}
  }

  /** Nobody is inside a call on the event, and everybody may call everything. */
  ghost predicate Quiet(ev: E.State, users: set<Client>) {
    && ev.manual && ev.pcs.Keys == users + {WORKER} && C.EverybodyOut(ev.pcs)
    && ev.roles == E.Anybody(ev.pcs.Keys, ev.roles.spurious)
  }

  ghost predicate Testing(s: State, done: set<Client>) {
    && Ranks(s, done, WaitTested, Idle)
    && s.isValid && s.worker.Running? && s.joins == 0 && s.exitEvent.state == 0
  }

  lemma OneTests(s: State, done: set<Client>, k: Client)
    requires k in s.pcs && k !in done && Testing(s, done)
    ensures Testing(Step(s, CallWait(k)), done + {k})
  {
    assert Step(s, CallWait(k)) == s.(pcs := s.pcs[k := WaitTested]);
  }

  lemma {:induction false} EverybodyTests(spurious: bool, users: set<Client>, done: set<Client>)
    returns (acts: seq<Action>)
    requires WORKER !in users && done <= users
    ensures var s := Run(Step, Init(true, spurious, users), acts);
            Testing(s, done) && s.pcs.Keys == users
    decreases done
  {
    var init := Init(true, spurious, users);
    if k :| k in done {
      var front := EverybodyTests(spurious, users, done - {k});
      OneTests(Run(Step, init, front), done - {k}, k);
      assert done - {k} + {k} == done;
      acts := Then(Step, init, front, CallWait(k));
    } else {
      acts := [];
    }
  }

  lemma WorkerEnds(spurious: bool, users: set<Client>) returns (acts: seq<Action>)
    requires WORKER !in users
    ensures var s := Run(Step, Init(true, spurious, users), acts);
            Done(s, {}) && s.joins == 0 && s.pcs.Keys == users
  {
    var init := Init(true, spurious, users);
    var front := EverybodyTests(spurious, users, users);
    var back := WorkerFinishes(Run(Step, init, front));
    acts := front + back;
    RunConcat(Step, init, front, back);
  }

  lemma FinishNow(s: State, t: State)
    requires Testing(s, s.pcs.Keys) && t == EventOf(s, WORKER, C.Entered(E.Signal), 0).(worker := Signalling)
    ensures Step(s, Finish) == t
  {
  }

  lemma SignalQuiet(ev: E.State, users: set<Client>, t: E.State)
    requires Quiet(ev, users) && ev.state == 0
    requires t == ev.(state := 1, rises := ev.rises + 1, pcs := ev.pcs[WORKER := C.Out(C.Ok)])
    ensures E.Step(ev.(pcs := ev.pcs[WORKER := C.Entered(E.Signal)]), C.Lock(WORKER, WORKER)) == t
  {
    var entered := ev.pcs[WORKER := C.Entered(E.Signal)];
    assert C.Broadcast(entered) == entered;
    assert entered[WORKER := C.Out(C.Ok)] == ev.pcs[WORKER := C.Out(C.Ok)];
  }

  lemma StaysQuiet(ev: E.State, users: set<Client>, k: Client, t: E.State)
    requires Quiet(ev, users) && k in ev.pcs && t.pcs == ev.pcs[k := C.Out(C.Ok)]
    requires t.manual && t.roles == ev.roles
    ensures Quiet(t, users)
  {
    assert t.pcs.Keys == ev.pcs.Keys;
  }

  lemma WorkerFinishes(s: State) returns (acts: seq<Action>)
    requires Testing(s, s.pcs.Keys)
    ensures var t := Run(Step, s, acts); Done(t, {}) && t.joins == 0 && t.pcs == s.pcs
  {
    var ev := s.exitEvent;
    var up := ev.(state := 1, rises := ev.rises + 1, pcs := ev.pcs[WORKER := C.Out(C.Ok)]);
    FinishNow(s, EventOf(s, WORKER, C.Entered(E.Signal), 0).(worker := Signalling));
    SignalQuiet(ev, s.pcs.Keys, up);
    StaysQuiet(ev, s.pcs.Keys, WORKER, up);
    acts := Then(Step, s, [], Finish);
    acts := Then(Step, s, acts, WorkerSignal);
    acts := Then(Step, s, acts, WorkerExit);
    assert Run(Step, s, acts) == s.(worker := Exited, exitEvent := up);
  }

  ghost predicate Done(s: State, done: set<Client>) {
    Ranks(s, done, Idle, WaitTested) && s.worker.Exited? && s.exitEvent.state == 1
  }

  ghost function EventOf(s: State, k: Client, pc: E.Pc, more: nat): State {
    s.(exitEvent := s.exitEvent.(pcs := s.exitEvent.pcs[k := pc], oks := s.exitEvent.oks + more))
  }

  lemma RegisterNow(s: State, done: set<Client>, k: Client, t: State)
    requires k in s.pcs && k !in done && Done(s, done)
    requires t == EventOf(s, k, C.Entered(E.Wait), 0).(waitCount := 1, pcs := s.pcs[k := Waiting])
    ensures Step(s, Register(k)) == t
  {
  }

  lemma PassEvent(s: State, k: Client, t: State)
    requires k in s.pcs && s.pcs[k].Waiting? && k in s.exitEvent.pcs && s.exitEvent.pcs[k] == C.Entered(E.Wait)
    requires s.exitEvent.manual && s.exitEvent.state == 1
    requires t == EventOf(s, k, C.Out(C.Ok), 1).(pcs := s.pcs[k := WaitOver])
    ensures Step(s, InEvent(C.Lock(k, WORKER))) == t
  {
    assert E.Step(s.exitEvent, C.Lock(k, WORKER)) == t.exitEvent;
  }

  lemma RegisterAndPass(s: State, done: set<Client>, k: Client) returns (acts: seq<Action>)
    requires k in s.pcs && k !in done && Done(s, done)
    ensures Run(Step, s, acts) == EventOf(s, k, C.Out(C.Ok), 1).(waitCount := 1, pcs := s.pcs[k := WaitOver])
  {
    var s1 := EventOf(s, k, C.Entered(E.Wait), 0).(waitCount := 1, pcs := s.pcs[k := Waiting]);
    var s2 := EventOf(s, k, C.Out(C.Ok), 1).(waitCount := 1, pcs := s.pcs[k := WaitOver]);
    assert s1.pcs[k := WaitOver] == s2.pcs;
    assert s1.exitEvent.pcs[k := C.Out(C.Ok)] == s2.exitEvent.pcs;
    RegisterNow(s, done, k, s1);
    PassEvent(s1, k, s2);
    acts := Then(Step, s, [], Register(k));
    acts := Then(Step, s, acts, InEvent(C.Lock(k, WORKER)));
  }

  lemma LeaveAndJoin(s: State, k: Client) returns (acts: seq<Action>)
    requires k in s.pcs && s.pcs[k].WaitOver? && s.waitCount == 1 && s.mutex.Free? && s.worker.Exited?
    requires s.asking == {}
    ensures Run(Step, s, acts) ==
            s.(waitCount := 0, pcs := s.pcs[k := Idle], joins := s.joins + 1, isValid := false)
  {
    acts := Then(Step, s, [], Leave(k));
    acts := Then(Step, s, acts, Join(k));
    assert s.pcs[k := Joining][k := Idle] == s.pcs[k := Idle];
  }

  /** A client that passed the test while the worker ran registers, finds the event high,
      leaves as the last one registered, and joins. */
  lemma OneJoins(s: State, done: set<Client>, k: Client) returns (acts: seq<Action>)
    requires k in s.pcs && k !in done && Done(s, done)
    ensures var t := Run(Step, s, acts);
            Done(t, done + {k}) && t.joins == s.joins + 1 && t.pcs.Keys == s.pcs.Keys
  {
    var front := RegisterAndPass(s, done, k);
    var back := LeaveAndJoin(Run(Step, s, front), k);
    acts := front + back;
    RunConcat(Step, s, front, back);
    assert Run(Step, s, acts).pcs == s.pcs[k := Idle];
    AfterJoin(s, done, k, Run(Step, s, acts));
  }

  lemma AfterJoin(s: State, done: set<Client>, k: Client, t: State)
    requires k in s.pcs && k !in done && Done(s, done)
    requires t.pcs == s.pcs[k := Idle] && t.exitEvent == EventOf(s, k, C.Out(C.Ok), 1).exitEvent
    requires t.worker.Exited? && t.mutex.Free? && t.waitCount == 0 && t.asking == {}
    ensures Done(t, done + {k}) && t.pcs.Keys == s.pcs.Keys
  {
    assert t.pcs.Keys == s.pcs.Keys;
    StaysQuiet(s.exitEvent, s.pcs.Keys, k, t.exitEvent);
  }

  lemma {:induction false} EverybodyJoins(spurious: bool, users: set<Client>, done: set<Client>)
    returns (acts: seq<Action>)
    requires WORKER !in users && done <= users
    ensures var s := Run(Step, Init(true, spurious, users), acts);
            Done(s, done) && s.joins == |done| && s.pcs.Keys == users
    decreases done
  {
    var init := Init(true, spurious, users);
    if k :| k in done {
      var front := EverybodyJoins(spurious, users, done - {k});
      var back := OneJoins(Run(Step, init, front), done - {k}, k);
      assert done - {k} + {k} == done;
      acts := front + back;
      RunConcat(Step, init, front, back);
    } else {
      acts := WorkerEnds(spurious, users);
      assert done == {};
    }
  }

  /** In every schedule the worker is joined once at most. */
  ghost predicate JoinedOnce(created: bool, spurious: bool, users: set<Client>) {
    forall acts :: Run(Step, Init(created, spurious, users), acts).joins <= 1
  }

  /** is_valid is tested before the mutex is taken, so clients that all passed the test join
      one after the other, as many times as there are clients. The worker is joined at most
      once exactly when one client at most uses a created thread. */
  lemma JoinedOnceIffOneClient(created: bool, spurious: bool, users: set<Client>)
    requires WORKER !in users
    ensures JoinedOnce(created, spurious, users) <==> !created || |users| <= 1
  {
    forall acts ensures var n := Run(Step, Init(created, spurious, users), acts).joins;
                        n <= |users| && (n > 0 ==> created) {
      WaitCountAndJoins(created, spurious, users, acts);
    }
    if created {
      var all := EverybodyJoins(spurious, users, users);
      assert Run(Step, Init(true, spurious, users), all).joins == |users|;
    }
  }

  // ---- the C structure ----

  /** vm_thread, with the exit event as an object of its own. Each method is the part of a C
      function between two points where another thread may run. */
  class VmThread {
    const created: bool
    const exitEvent: E.VmEvent
    var isValid: bool
    var waitCount: int
    var mutex: Owner
    var worker: WorkerPc
    var pcs: map<Client, Pc>
    var asking: set<Client>
    ghost var joins: nat
    ghost var answers: seq<int>

    ghost function Snapshot(): State
      reads this, exitEvent
    {
      State(created, isValid, waitCount, exitEvent.Snapshot(), mutex, worker, pcs, asking, joins, answers)
    }

    /** vm_thread_create; `ok` is the outcome of pthread_create. */
    constructor (ok: bool, users: set<Client>, spurious: bool)
      ensures Snapshot() == Init(ok, spurious, users)
    {
      var event := new E.VmEvent(1, 0, E.Anybody(users + {WORKER}, spurious));
      created, exitEvent, isValid, waitCount, mutex := ok, event, ok, 0, Free;
      worker := if ok then Running else Exited;
      pcs := map c | c in users :: Idle;
      asking, joins, answers := {}, 0, [];
    }

    /** vm_thread_proc after p_thread_func has returned. */
    method EnterSignal()
      requires Enabled(Snapshot(), Finish)
      modifies this, exitEvent
      ensures Snapshot() == Step(old(Snapshot()), Finish)
    {
      exitEvent.Enter(WORKER, E.Signal);
      worker := Signalling;
    }

    method SignalExitEvent()
      requires Enabled(Snapshot(), WorkerSignal) && exitEvent.pcs[WORKER] == C.Entered(E.Signal)
      modifies this, exitEvent
      ensures Snapshot() == Step(old(Snapshot()), WorkerSignal)
    {
      exitEvent.SignalLocked(WORKER, WORKER);
      worker := Signalled;
    }

    /** The test of is_valid at the head of vm_thread_wait, made without the mutex. */
    method TestBeforeWait(c: Client)
      requires Enabled(Snapshot(), CallWait(c))
      modifies this
      ensures Snapshot() == Step(old(Snapshot()), CallWait(c))
    {
      if isValid {
        pcs := pcs[c := WaitTested];
      } else {
        EndWait(c);
      }
    }

    /** vm_thread_wait returns to the client or to vm_thread_is_valid. */
    method EndWait(c: Client)
      modifies this`pcs
      ensures pcs == old(pcs)[c := AfterWait(old(Snapshot()), c)]
    {
      pcs := pcs[c := if c in asking then Answering else Idle];
    }

    method RegisterWaiter(c: Client)
      requires Enabled(Snapshot(), Register(c))
      modifies this, exitEvent
      ensures Snapshot() == Step(old(Snapshot()), Register(c))
    {
      waitCount := waitCount + 1;
      pcs := pcs[c := Waiting];
      exitEvent.Enter(c, E.Wait);
    }

    /** The test of is_valid at the head of vm_thread_is_valid, made without the mutex. */
    method TestBeforeProbe(c: Client)
      requires Enabled(Snapshot(), CallIsValid(c))
      modifies this
      ensures Snapshot() == Step(old(Snapshot()), CallIsValid(c))
    {
      asking := asking + {c};
      pcs := pcs[c := if isValid then ValidTested else Answering];
    }

    method BeginProbe(c: Client)
      requires Enabled(Snapshot(), Probe(c))
      modifies this, exitEvent
      ensures Snapshot() == Step(old(Snapshot()), Probe(c))
    {
      mutex := Held(c);
      pcs := pcs[c := Probing];
      exitEvent.Enter(c, E.TimedWait);
    }

    /** What the caller of the event does once the event's part is done. */
    method AfterEvent(c: Client)
      requires c in pcs && c in exitEvent.pcs
      modifies this
      ensures Snapshot() == AfterEventStep(old(Snapshot()), c, old(exitEvent.Snapshot()))
    {
      if exitEvent.pcs[c].Out? {
        if pcs[c].Probing? {
          mutex := Free;
          pcs := pcs[c := if exitEvent.pcs[c].last == C.Ok then Rewait else Answering];
        } else {
          pcs := pcs[c := WaitOver];
        }
      }
    }

    method EventTaken(c: Client, timed: bool)
      requires Enabled(Snapshot(), InEvent(C.Lock(c, c)))
      requires exitEvent.pcs[c] == C.Entered(if timed then E.TimedWait else E.Wait)
      modifies this, exitEvent
      ensures Snapshot() == Step(old(Snapshot()), InEvent(C.Lock(c, c)))
    {
      exitEvent.WaitLocked(c, timed);
      AfterEvent(c);
    }

    method EventResumed(c: Client)
      requires Enabled(Snapshot(), InEvent(C.Resume(c)))
      modifies this, exitEvent
      ensures Snapshot() == Step(old(Snapshot()), InEvent(C.Resume(c)))
    {
      var _ := exitEvent.WaitResumed(c);
      AfterEvent(c);
    }

    method LeaveWait(c: Client)
      requires Enabled(Snapshot(), Leave(c))
      modifies this
      ensures Snapshot() == Step(old(Snapshot()), Leave(c))
    {
      waitCount := waitCount - 1;
      if 0 == waitCount {
        mutex := Held(c);
        pcs := pcs[c := Joining];
      } else {
        EndWait(c);
      }
    }

    method JoinWorker(c: Client)
      requires Enabled(Snapshot(), Join(c))
      modifies this
      ensures Snapshot() == Step(old(Snapshot()), Join(c))
    {
      joins := joins + 1;
      isValid := false;
      mutex := Free;
      EndWait(c);
    }

    /** The last line of vm_thread_is_valid. */
    method AnswerValidity(c: Client) returns (valid: int)
      requires Enabled(Snapshot(), Answer(c))
      modifies this
      ensures Snapshot() == Step(old(Snapshot()), Answer(c))
      ensures answers == old(answers) + [valid]
    {
      valid := if isValid then 1 else 0;
      answers := answers + [valid];
      asking := asking - {c};
      pcs := pcs[c := Idle];
    }
  }
}
