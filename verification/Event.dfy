/** vm_event on Linux: a flag under a mutex with a condition variable. */
module Event {
  import opened Runs
  import opened Census
  import opened Conditions

  datatype Op = Signal | Reset | Pulse | Wait | TimedWait

  type Pc = Conditions.Pc<Op>

  type Action = Conditions.Action<Op>

  /** Who may do what; a client may be in several of the sets. `spurious` says whether the
      platform lets the condition wake a thread unasked. */
  datatype Roles = Roles(
    waiters: set<Client>, timedWaiters: set<Client>,
    signallers: set<Client>, resetters: set<Client>, pulsers: set<Client>, spurious: bool)

  /** `manual` and `state` are the fields of the C structure. The rest is history: 0-to-1
      signals, pulses, resets, waits that returned Ok, and timed waits that did not. */
  datatype State = State(
    manual: bool, roles: Roles, state: int, pcs: map<Client, Pc>,
    rises: nat, pulses: nat, resets: nat, oks: nat, expiries: nat)

  function Waiting(roles: Roles): set<Client> {
    roles.waiters + roles.timedWaiters
  }

  function Clients(roles: Roles): set<Client> {
    Waiting(roles) + roles.signallers + roles.resetters + roles.pulsers
  }

  predicate MayCall(roles: Roles, c: Client, op: Op) {
    match op
    case Signal => c in roles.signallers
    case Reset => c in roles.resetters
    case Pulse => c in roles.pulsers
    case Wait => c in roles.waiters
    case TimedWait => c in roles.timedWaiters
  }

  /** Everybody may do everything. */
  function Anybody(clients: set<Client>, spurious: bool): (roles: Roles)
    ensures Clients(roles) == clients
    ensures forall c, op :: c in clients ==> MayCall(roles, c, op)
  {
    Roles(clients, clients, clients, clients, clients, spurious)
  }

  /** The event after vm_event_init, with all clients outside. */
  function Init(manual: bool, high: bool, roles: Roles): State {
    State(manual, roles, if high then 1 else 0, map c | c in Clients(roles) :: Out(Ok), 0, 0, 0, 0, 0)
  }

  ghost predicate CanNotify(manual: bool, pcs: map<Client, Pc>, w: Client) {
    manual || CanSignal(pcs, w)
  }

  ghost predicate Enabled(s: State, a: Action) {
    a.c in s.pcs &&
    match a
    case Call(c, op) => s.pcs[c].Out? && MayCall(s.roles, c, op)
    case Lock(c, w) =>
      && s.pcs[c].Entered?
      && (s.pcs[c].op.Signal? || s.pcs[c].op.Pulse? ==> CanNotify(s.manual, s.pcs, w))
    case WakeUnasked(c) => s.roles.spurious && s.pcs[c].Blocked?
    case Expire(c, why) => s.pcs[c] == Blocked(true) && (why == Timeout || why == OperationFailed)
    case Resume(c) => InFlight(s.pcs, c)
  }

  function Notify(s: State, w: Client): map<Client, Pc> {
    if s.manual then Broadcast(s.pcs) else SignalOne(s.pcs, w)
  }

  function LockStep(s: State, c: Client, w: Client): State
    requires c in s.pcs && s.pcs[c].Entered?
  {
    match s.pcs[c].op
    case Signal =>
      if s.state == 0 then s.(state := 1, pcs := Notify(s, w)[c := Out(Ok)], rises := s.rises + 1)
      else s.(pcs := s.pcs[c := Out(Ok)])
    case Reset =>
      s.(state := if s.state == 1 then 0 else s.state, pcs := s.pcs[c := Out(Ok)], resets := s.resets + 1)
    case Pulse =>
      s.(state := 0, pcs := Notify(s, w)[c := Out(Ok)], pulses := s.pulses + 1)
    case Wait => WaitStep(s, c, false)
    case TimedWait => WaitStep(s, c, true)
  }

  function WaitStep(s: State, c: Client, timed: bool): State
  {
    if s.state == 0 then s.(pcs := s.pcs[c := Blocked(timed)])
    else s.(state := if s.manual then s.state else 0, pcs := s.pcs[c := Out(Ok)], oks := s.oks + 1)
  }

  function ResumeStep(s: State, c: Client): State
    requires InFlight(s.pcs, c)
  {
    var status := if s.pcs[c].Woken? then Ok else s.pcs[c].why;
    s.(state := if s.manual then s.state else 0, pcs := s.pcs[c := Out(status)],
       oks := s.oks + (if s.pcs[c].Woken? then 1 else 0),
       expiries := s.expiries + (if s.pcs[c].Woken? then 0 else 1))
  }

  ghost function Step(s: State, a: Action): State {
    if !Enabled(s, a) then s else
    match a
    case Call(c, op) =>
      s.(pcs := s.pcs[c := if s.state >= 0 then Entered(op) else Out(NotInitialized)])
    case Lock(c, w) => LockStep(s, c, w)
    case WakeUnasked(c) => s.(pcs := s.pcs[c := Woken])
    case Expire(c, why) => s.(pcs := s.pcs[c := Expired(why)])
    case Resume(c) => ResumeStep(s, c)
  }

  // ---- manual-reset events ----

  ghost predicate ManualInv(s: State) {
    s.manual && 0 <= s.state <= 1 && (s.state == 1 ==> NobodyBlocked(s.pcs))
  }

  /** The only way onto the condition is a wait that took the mutex and read 0. */
  lemma NewlyBlockedOnlyWhenLow(s: State, a: Action)
    ensures forall d :: IsBlocked(Step(s, a).pcs, d) && !IsBlocked(s.pcs, d) ==>
              s.state == 0 && Step(s, a).state == 0
    ensures s.manual && s.state == 0 && Step(s, a).state == 1 ==> NobodyBlocked(Step(s, a).pcs)
  {
  }

  lemma ManualStep(s: State, a: Action)
    requires ManualInv(s)
    ensures ManualInv(Step(s, a))
  {
    NewlyBlockedOnlyWhenLow(s, a);
  }

  lemma ManualInductive()
    ensures Inductive(Step, ManualInv)
  {
    forall s, a | ManualInv(s) ensures ManualInv(Step(s, a)) {
      ManualStep(s, a);
    }
  }

  /** While a manual-reset event is high no waiter is on the condition, whatever the
      interleaving and whether or not the platform wakes threads unasked. */
  lemma ManualHighMeansNobodyBlocked(high: bool, roles: Roles, acts: seq<Action>)
    ensures var s := Run(Step, Init(true, high, roles), acts);
            0 <= s.state <= 1 && (s.state == 1 ==> NobodyBlocked(s.pcs))
  {
    ManualInductive();
    InvariantOfRuns(Step, ManualInv, Init(true, high, roles), acts);
  }

  // ---- auto-reset events ----

  ghost predicate AutoInv(s: State) {
    && !s.manual && 0 <= s.state <= 1
    && (s.state == 1 && !NobodyBlocked(s.pcs) ==> exists c :: InFlight(s.pcs, c))
  }

  lemma AutoInductive()
    ensures Inductive(Step, AutoInv)
  {
    forall s, a | AutoInv(s) ensures AutoInv(Step(s, a)) {
      NewlyBlockedOnlyWhenLow(s, a);
      var t := Step(s, a);
      if t.state == 1 && !NobodyBlocked(t.pcs) && Enabled(s, a) {
        if s.state == 0 {
          assert InFlight(t.pcs, a.w);
        } else {
          var b :| IsBlocked(t.pcs, b);
          assert IsBlocked(s.pcs, b);
          var c :| InFlight(s.pcs, c);
          assert InFlight(t.pcs, c);
        }
      }
    }
  }

  /** An auto-reset event is never left high in front of a sleeping waiter with nobody on
      the way: some waiter is in flight, and its next move with the mutex resets the event. */
  lemma AutoHighWithSleeperHasResetter(high: bool, roles: Roles, acts: seq<Action>)
    ensures var s := Run(Step, Init(false, high, roles), acts);
            s.state == 1 && !NobodyBlocked(s.pcs) ==>
              exists c :: InFlight(s.pcs, c) && Enabled(s, Resume(c)) && Step(s, Resume(c)).state == 0
  {
    AutoInductive();
    InvariantOfRuns(Step, AutoInv, Init(false, high, roles), acts);
    var s := Run(Step, Init(false, high, roles), acts);
    if s.state == 1 && !NobodyBlocked(s.pcs) {
      var c :| InFlight(s.pcs, c);
      assert Enabled(s, Resume(c));
    }
  }

  function Initially(high: bool): nat {
    if high then 1 else 0
  }

  predicate IsWoken(pc: Pc) {
    pc.Woken?
  }

  /** What the waits of an auto-reset event can still return Ok for, when a 0-to-1 signal is
      worth n of them. */
  ghost predicate OkBudget(s: State, high: bool, n: nat) {
    && !s.manual && !s.roles.spurious && 0 <= s.state <= 1
    && s.oks + Count(s.pcs, IsWoken) + s.state <= n * s.rises + s.pulses + Initially(high)
  }

  lemma NotifyWakesAtMostOne(s: State, w: Client)
    requires !s.manual
    ensures Count(Notify(s, w), IsWoken) <= Count(s.pcs, IsWoken) + 1
  {
    if IsBlocked(s.pcs, w) {
      CountMove(s.pcs, w, Woken, IsWoken);
    }
  }

  lemma OkBudgetStep(s: State, a: Action, high: bool)
    requires OkBudget(s, high, 2)
    ensures OkBudget(Step(s, a), high, 2)
  {
    if Enabled(s, a) {
      CountMove(s.pcs, a.c, Step(s, a).pcs[a.c], IsWoken);
      if a.Lock? && (s.pcs[a.c].op.Signal? || s.pcs[a.c].op.Pulse?) {
        NotifyWakesAtMostOne(s, a.w);
        CountMove(Notify(s, a.w), a.c, Out(Ok), IsWoken);
      }
    }
  }

  /** Without unasked wake-ups the waits that return Ok on an auto-reset event number at most
      two for each 0-to-1 signal, one for each pulse and one for an event created high. */
  lemma AutoOksAreBounded(high: bool, roles: Roles, acts: seq<Action>)
    requires !roles.spurious
    ensures var s := Run(Step, Init(false, high, roles), acts);
            s.oks <= 2 * s.rises + s.pulses + Initially(high)
  {
    var inv := (s: State) => OkBudget(s, high, 2);
    forall s, a | inv(s) ensures inv(Step(s, a)) {
      OkBudgetStep(s, a, high);
    }
    var init := Init(false, high, roles);
    assert At(init.pcs, IsWoken) == {};
    InvariantOfRuns(Step, inv, init, acts);
  }

  function WaitOp(roles: Roles, c: Client): Op {
    if c in roles.waiters then Wait else TimedWait
  }

  function Asleep(s: State, c: Client): State {
    s.(pcs := s.pcs[c := Blocked(c !in s.roles.waiters)])
  }

  /** A waiting client goes to sleep on an event that is low. */
  lemma FallAsleep(s: State, c: Client) returns (acts: seq<Action>)
    requires c in s.pcs && c in Waiting(s.roles) && s.pcs[c].Out? && s.state == 0
    ensures Run(Step, s, acts) == Asleep(s, c)
  {
    var op := WaitOp(s.roles, c);
    acts := Then(Step, s, [], Call(c, op));
    acts := Then(Step, s, acts, Lock(c, c));
    assert s.pcs[c := Entered(op)][c := Blocked(op.TimedWait?)] == Asleep(s, c).pcs;
  }

  /** Everybody is outside and the event is low. */
  ghost predicate Rested(s: State, roles: Roles) {
    && !s.manual && s.roles == roles && s.state == 0
    && s.pcs.Keys == Clients(roles) && EverybodyOut(s.pcs)
  }

  /** One signal, two waits that return Ok: the newcomer takes the mutex between the signal
      and the woken waiter, finds the event high and resets it; the woken waiter, which does
      not test the event again, returns Ok as well. */
  lemma SignalRound(s: State, c1: Client, c2: Client, p: Client) returns (acts: seq<Action>)
    requires Rested(s, s.roles)
    requires {c1, c2} <= Waiting(s.roles) && c1 != c2 && p in s.roles.signallers && p != c1
    ensures var t := Run(Step, s, acts);
            Rested(t, s.roles) && t.rises == s.rises + 1 && t.pulses == s.pulses && t.oks == s.oks + 2
  {
    var sleep := FallAsleep(s, c1);
    var s1 := Asleep(s, c1);
    acts := Then(Step, s1, [], Call(p, Signal));
    acts := Then(Step, s1, acts, Lock(p, c1));
    acts := Then(Step, s1, acts, Call(c2, WaitOp(s.roles, c2)));
    acts := Then(Step, s1, acts, Lock(c2, c2));
    acts := Then(Step, s1, acts, Resume(c1));
    RunConcat(Step, s, sleep, acts);
    acts := sleep + acts;
  }

  lemma PulseRound(s: State, c: Client, p: Client) returns (acts: seq<Action>)
    requires Rested(s, s.roles) && c in Waiting(s.roles) && p in s.roles.pulsers && p != c
    ensures var t := Run(Step, s, acts);
            Rested(t, s.roles) && t.rises == s.rises && t.pulses == s.pulses + 1 && t.oks == s.oks + 1
  {
    var sleep := FallAsleep(s, c);
    var s1 := Asleep(s, c);
    acts := Then(Step, s1, [], Call(p, Pulse));
    acts := Then(Step, s1, acts, Lock(p, c));
    acts := Then(Step, s1, acts, Resume(c));
    RunConcat(Step, s, sleep, acts);
    acts := sleep + acts;
  }

  /** A client whose wait finds the event high. */
  lemma TakeHigh(s: State, c: Client) returns (acts: seq<Action>)
    requires c in s.pcs && c in Waiting(s.roles) && s.pcs[c].Out? && s.state == 1 && !s.manual
    ensures Run(Step, s, acts) == s.(state := 0, pcs := s.pcs[c := Out(Ok)], oks := s.oks + 1)
  {
    var op := WaitOp(s.roles, c);
    acts := Then(Step, s, [], Call(c, op));
    acts := Then(Step, s, acts, Lock(c, c));
    assert s.pcs[c := Entered(op)][c := Out(Ok)] == s.pcs[c := Out(Ok)];
  }

  /** A client takes what a high event was created with. */
  lemma TakeInitial(high: bool, roles: Roles, c: Client) returns (acts: seq<Action>)
    requires c in Waiting(roles)
    ensures var s := Run(Step, Init(false, high, roles), acts);
            Rested(s, roles) && s.rises == s.pulses == s.resets == s.expiries == 0 && s.oks == Initially(high)
  {
    var init := Init(false, high, roles);
    assert c in Clients(roles);
    if high {
      acts := TakeHigh(init, c);
    } else {
      acts := [];
    }
  }

  /** The bound is exact: every mix of signals, pulses and initial state attains it. In
      particular one signal can release two waiters, and never three. */
  lemma {:induction false} AutoOkBoundIsAttained(high: bool, signals: nat, pulses: nat) returns (acts: seq<Action>)
    ensures var roles := Anybody({0, 1, 2}, false);
            var s := Run(Step, Init(false, high, roles), acts);
            && s.rises == signals && s.pulses == pulses && Rested(s, roles)
            && s.oks == 2 * signals + pulses + Initially(high)
  {
    var init := Init(false, high, Anybody({0, 1, 2}, false));
    if signals > 0 {
      var front := AutoOkBoundIsAttained(high, signals - 1, pulses);
      var round := SignalRound(Run(Step, init, front), 1, 2, 0);
      acts := front + round;
      RunConcat(Step, init, front, round);
    } else if pulses > 0 {
      var front := AutoOkBoundIsAttained(high, signals, pulses - 1);
      var round := PulseRound(Run(Step, init, front), 1, 0);
      acts := front + round;
      RunConcat(Step, init, front, round);
    } else {
      acts := TakeInitial(high, init.roles, 1);
    }
  }

  // ---- exactly when one signal can release two waiters ----

  /** In every schedule each setting of the event and each pulse is worth one wait. */
  ghost predicate OneOkPerSignal(high: bool, roles: Roles) {
    forall acts ::
      var s := Run(Step, Init(false, high, roles), acts); s.oks <= s.rises + s.pulses + Initially(high)
  }

  /** Who can get more: any waiter at all when the platform wakes threads unasked; otherwise
      two waiters together with a signaller. */
  ghost predicate CanOvertake(roles: Roles) {
    && Waiting(roles) != {}
    && (roles.spurious || (|Waiting(roles)| > 1 && roles.signallers != {}))
  }

  /** Clients are only inside operations that they may call. */
  ghost predicate RolesKept(s: State, roles: Roles) {
    && s.roles == roles && s.pcs.Keys == Clients(roles)
    && forall c :: c in s.pcs ==>
         && (s.pcs[c].Entered? ==> MayCall(roles, c, s.pcs[c].op))
         && (s.pcs[c].Woken? ==> c in Waiting(roles))
         && (s.pcs[c].Expired? ==> c in roles.timedWaiters)
         && (s.pcs[c].Blocked? ==> c in if s.pcs[c].timed then roles.timedWaiters else roles.waiters)
  }

  lemma RolesKeptStep(s: State, a: Action)
    requires RolesKept(s, s.roles)
    ensures RolesKept(Step(s, a), s.roles)
  {
  }

  /** Seen from the only waiter there may be: its wake-up and the high event are the same
      signal. */
  ghost predicate OneWaiterInv(s: State, high: bool, roles: Roles, w: Client) {
    && RolesKept(s, roles) && Waiting(roles) <= {w} && (roles.spurious ==> Waiting(roles) == {})
    && !s.manual && 0 <= s.state <= 1
    && s.oks + (if w in s.pcs && s.pcs[w].Woken? then 1 else s.state) <= s.rises + s.pulses + Initially(high)
  }

  lemma OneWaiterStep(s: State, a: Action, high: bool, roles: Roles, w: Client)
    requires OneWaiterInv(s, high, roles, w)
    ensures OneWaiterInv(Step(s, a), high, roles, w)
  {
    RolesKeptStep(s, a);
    assert IsBlocked(s.pcs, a.c) ==> a.c == w;
  }

  /** Without signallers only the first wait can find the event high. */
  ghost predicate NoSignalInv(s: State, high: bool, roles: Roles) {
    && RolesKept(s, roles) && roles.signallers == {} && OkBudget(s, high, 1)
  }

  lemma NoSignalStep(s: State, a: Action, high: bool, roles: Roles)
    requires NoSignalInv(s, high, roles)
    ensures NoSignalInv(Step(s, a), high, roles)
  {
    RolesKeptStep(s, a);
    NoSignalBudget(s, a, high);
  }

  lemma NoSignalBudget(s: State, a: Action, high: bool)
    requires OkBudget(s, high, 1) && !Takes(s, a, Signal)
    ensures OkBudget(Step(s, a), high, 1)
  {
    if Enabled(s, a) {
      CountMove(s.pcs, a.c, Step(s, a).pcs[a.c], IsWoken);
      if a.Lock? && s.pcs[a.c].op.Pulse? {
        NotifyWakesAtMostOne(s, a.w);
        CountMove(Notify(s, a.w), a.c, Out(Ok), IsWoken);
      }
    }
  }

  lemma OneWaiterIsServedOnce(high: bool, roles: Roles, w: Client, acts: seq<Action>)
    requires Waiting(roles) <= {w} && (roles.spurious ==> Waiting(roles) == {})
    ensures var s := Run(Step, Init(false, high, roles), acts); s.oks <= s.rises + s.pulses + Initially(high)
  {
    var inv := (s: State) => OneWaiterInv(s, high, roles, w);
    forall s, a | inv(s) ensures inv(Step(s, a)) {
      OneWaiterStep(s, a, high, roles, w);
    }
    InvariantOfRuns(Step, inv, Init(false, high, roles), acts);
  }

  lemma NoSignalNoOvertaking(high: bool, roles: Roles, acts: seq<Action>)
    requires roles.signallers == {} && !roles.spurious
    ensures var s := Run(Step, Init(false, high, roles), acts); s.oks <= s.rises + s.pulses + Initially(high)
  {
    var inv := (s: State) => NoSignalInv(s, high, roles);
    forall s, a | inv(s) ensures inv(Step(s, a)) {
      NoSignalStep(s, a, high, roles);
    }
    var init := Init(false, high, roles);
    assert At(init.pcs, IsWoken) == {};
    InvariantOfRuns(Step, inv, init, acts);
  }

  lemma NobodyOvertakes(high: bool, roles: Roles, acts: seq<Action>)
    requires !CanOvertake(roles)
    ensures var s := Run(Step, Init(false, high, roles), acts); s.oks <= s.rises + s.pulses + Initially(high)
  {
    if |Waiting(roles)| <= 1 {
      var w := OnlyMember(Waiting(roles));
      OneWaiterIsServedOnce(high, roles, w, acts);
    } else {
      NoSignalNoOvertaking(high, roles, acts);
    }
  }

  lemma WokenUnasked(s: State, c: Client) returns (acts: seq<Action>)
    requires Rested(s, s.roles) && c in Waiting(s.roles) && s.roles.spurious
    ensures var t := Run(Step, s, acts);
            t.rises == s.rises && t.pulses == s.pulses && t.oks == s.oks + 1
  {
    var sleep := FallAsleep(s, c);
    var s1 := Asleep(s, c);
    acts := Then(Step, s1, [], WakeUnasked(c));
    acts := Then(Step, s1, acts, Resume(c));
    RunConcat(Step, s, sleep, acts);
    acts := sleep + acts;
  }

  lemma Overtake(high: bool, roles: Roles) returns (acts: seq<Action>)
    requires CanOvertake(roles)
    ensures var s := Run(Step, Init(false, high, roles), acts); s.oks > s.rises + s.pulses + Initially(high)
  {
    var init := Init(false, high, roles);
    var c :| c in Waiting(roles);
    var front := TakeInitial(high, roles, c);
    var s := Run(Step, init, front);
    var back;
    if roles.spurious {
      back := WokenUnasked(s, c);
    } else {
      var p :| p in roles.signallers;
      var c1 := AnotherMember(Waiting(roles), p);
      var c2 := AnotherMember(Waiting(roles), c1);
      back := SignalRound(s, c1, c2, p);
    }
    acts := front + back;
    RunConcat(Step, init, front, back);
  }

  /** A setting of an auto-reset event or a pulse never lets more than one wait return Ok, over
      all schedules, exactly for the roles that cannot overtake a woken waiter. */
  lemma OneOkPerSignalIff(high: bool, roles: Roles)
    ensures OneOkPerSignal(high, roles) <==> !CanOvertake(roles)
  {
    if CanOvertake(roles) {
      var acts := Overtake(high, roles);
      var s := Run(Step, Init(false, high, roles), acts);
      assert !(s.oks <= s.rises + s.pulses + Initially(high));
    } else {
      forall acts ensures var s := Run(Step, Init(false, high, roles), acts);
                          s.oks <= s.rises + s.pulses + Initially(high)
      {
        NobodyOvertakes(high, roles, acts);
      }
    }
  }

  ghost predicate OksBounded(high: bool, roles: Roles) {
    forall acts ::
      var s := Run(Step, Init(false, high, roles), acts); s.oks <= 2 * s.rises + s.pulses + Initially(high)
  }

  /** The bound of two for each setting holds over all schedules exactly if the platform does
      not wake threads unasked or nobody waits. */
  lemma OksBoundedIff(high: bool, roles: Roles)
    ensures OksBounded(high, roles) <==> !roles.spurious || Waiting(roles) == {}
  {
    if c :| roles.spurious && c in Waiting(roles) {
      var init := Init(false, high, roles);
      var front := TakeInitial(high, roles, c);
      var back := WokenUnasked(Run(Step, init, front), c);
      RunConcat(Step, init, front, back);
      var s := Run(Step, init, front + back);
      assert !(s.oks <= 2 * s.rises + s.pulses + Initially(high));
    } else {
      forall acts ensures var s := Run(Step, Init(false, high, roles), acts);
                          s.oks <= 2 * s.rises + s.pulses + Initially(high)
      {
        if roles.spurious {
          OneWaiterIsServedOnce(high, roles, 0, acts);
        } else {
          AutoOksAreBounded(high, roles, acts);
        }
      }
    }
  }

  // ---- exactly when a timed wait can swallow a signal ----

  /** Every setting of the event is still there, or was taken by a wait that returned Ok, or
      was cleared by a reset or a pulse. */
  ghost predicate NothingSwallowed(s: State, high: bool) {
    s.rises + Initially(high) <= s.state + s.oks + s.resets + s.pulses
  }

  /** Whoever may do what, the only other way for a setting to go is a timed wait that did not
      return Ok. */
  lemma AutoSignalsAreAccountedFor(high: bool, roles: Roles, acts: seq<Action>)
    ensures var s := Run(Step, Init(false, high, roles), acts);
            s.rises + Initially(high) <= s.state + s.oks + s.resets + s.pulses + s.expiries
  {
    var inv := (s: State) => AccountedInv(s, high);
    assert Inductive(Step, inv);
    InvariantOfRuns(Step, inv, Init(false, high, roles), acts);
  }

  ghost predicate AccountedInv(s: State, high: bool) {
    && !s.manual && 0 <= s.state <= 1
    && s.rises + Initially(high) <= s.state + s.oks + s.resets + s.pulses + s.expiries
  }

  ghost predicate NeverSwallows(high: bool, roles: Roles) {
    forall acts :: NothingSwallowed(Run(Step, Init(false, high, roles), acts), high)
  }

  /** Somebody may signal while another client's timed wait is under way. */
  ghost predicate CanSwallow(roles: Roles) {
    exists c, p :: c in roles.timedWaiters && p in roles.signallers && c != p
  }

  predicate InTimedWait(pc: Pc) {
    pc == Blocked(true) || pc.Expired?
  }

  /** A timed wait that sleeps, or whose time is up, has a low event in front of it. */
  ghost predicate KeptInv(s: State, high: bool, roles: Roles) {
    && RolesKept(s, roles) && !CanSwallow(roles)
    && !s.manual && 0 <= s.state <= 1 && NothingSwallowed(s, high)
    && forall c :: c in s.pcs && InTimedWait(s.pcs[c]) ==> s.state == 0
  }

  lemma KeptStep(s: State, a: Action, high: bool, roles: Roles)
    requires KeptInv(s, high, roles)
    ensures KeptInv(Step(s, a), high, roles)
  {
    RolesKeptStep(s, a);
    var t := Step(s, a);
    forall c | c in t.pcs && InTimedWait(t.pcs[c]) ensures t.state == 0 {
      assert InTimedWait(s.pcs[c]) || s.state == 0;
      assert c in roles.timedWaiters;
    }
  }

  /** A wait whose time is up resets an auto-reset event that was signalled after the time ran
      out, and returns Timeout. The signal reaches nobody. */
  lemma TimedWaitSwallowsSignal(s: State, c: Client, p: Client) returns (acts: seq<Action>)
    requires Rested(s, s.roles) && c in s.roles.timedWaiters && p in s.roles.signallers && c != p
    ensures var t := Run(Step, s, acts);
            && t.rises == s.rises + 1 && t.state == 0
            && t.oks == s.oks && t.resets == s.resets && t.pulses == s.pulses
            && t.pcs == s.pcs[c := Out(Timeout)][p := Out(Ok)]
  {
    acts := Then(Step, s, [], Call(c, TimedWait));
    acts := Then(Step, s, acts, Lock(c, c));
    acts := Then(Step, s, acts, Expire(c, Timeout));
    acts := Then(Step, s, acts, Call(p, Signal));
    acts := Then(Step, s, acts, Lock(p, c));
    acts := Then(Step, s, acts, Resume(c));
  }

  lemma Swallow(high: bool, roles: Roles) returns (acts: seq<Action>)
    requires CanSwallow(roles)
    ensures !NothingSwallowed(Run(Step, Init(false, high, roles), acts), high)
  {
    var init := Init(false, high, roles);
    var c, p :| c in roles.timedWaiters && p in roles.signallers && c != p;
    var front := TakeInitial(high, roles, c);
    var back := TimedWaitSwallowsSignal(Run(Step, init, front), c, p);
    acts := front + back;
    RunConcat(Step, init, front, back);
  }

  /** No setting of an auto-reset event is swallowed, over all schedules, exactly if nobody may
      signal while another client may wait with a time limit. */
  lemma NeverSwallowsIff(high: bool, roles: Roles)
    ensures NeverSwallows(high, roles) <==> !CanSwallow(roles)
  {
    if CanSwallow(roles) {
      var acts := Swallow(high, roles);
      assert !NothingSwallowed(Run(Step, Init(false, high, roles), acts), high);
    } else {
      var inv := (s: State) => KeptInv(s, high, roles);
      forall s, a | inv(s) ensures inv(Step(s, a)) {
        KeptStep(s, a, high, roles);
      }
      forall acts ensures NothingSwallowed(Run(Step, Init(false, high, roles), acts), high) {
        InvariantOfRuns(Step, inv, Init(false, high, roles), acts);
      }
    }
  }

  // ---- what the event's state is the outcome of ----

  /** A part of some operation is about to be carried out under the mutex. */
  ghost predicate Takes(s: State, a: Action, op: Op) {
    a.Lock? && Enabled(s, a) && s.pcs[a.c].op == op
  }

  ghost predicate Raises(s: State, a: Action) {
    Takes(s, a, Signal)
  }

  /** A reset, a pulse, or a wait on an auto-reset event that gets the mutex. */
  ghost predicate Lowers(s: State, a: Action) {
    || Takes(s, a, Reset) || Takes(s, a, Pulse)
    || (!s.manual && (Takes(s, a, Wait) || Takes(s, a, TimedWait) || (a.Resume? && Enabled(s, a))))
  }

  ghost predicate IsHigh(s: State) {
    s.state == 1
  }

  ghost predicate IsFlag(s: State) {
    0 <= s.state <= 1
  }

  /** An event is high exactly if the last operation to have its say was a signal: resets and
      pulses, and of an auto-reset event the waits as well, whatever they return, leave it low,
      and waits on a manual-reset event have no say. */
  lemma HighIffSignalledLast(manual: bool, high: bool, roles: Roles, acts: seq<Action>)
    ensures var init := Init(manual, high, roles);
            && IsFlag(Run(Step, init, acts))
            && (IsHigh(Run(Step, init, acts)) <==>
                  NotSince(Step, init, acts, Raises, Lowers) || (high && NoneFrom(Step, init, acts, Lowers, 0)))
  {
    LastWord(Init(manual, high, roles), acts);
  }

  lemma LastWord(start: State, acts: seq<Action>)
    requires IsFlag(start)
    ensures IsFlag(Run(Step, start, acts))
    ensures IsHigh(Run(Step, start, acts)) <==>
              || NotSince(Step, start, acts, Raises, Lowers)
              || (IsHigh(start) && NoneFrom(Step, start, acts, Lowers, 0))
  {
    forall s, a | IsFlag(s)
      ensures IsFlag(Step(s, a)) && (IsHigh(Step(s, a)) <==> Raises(s, a) || (IsHigh(s) && !Lowers(s, a)))
    {
      FlagStep(s, a);
    }
    InvariantOfRuns(Step, IsFlag, start, acts);
    LastWordDecides(Step, IsFlag, IsHigh, Raises, Lowers, start, acts);
  }

  lemma FlagStep(s: State, a: Action)
    requires IsFlag(s)
    ensures IsFlag(Step(s, a))
    ensures IsHigh(Step(s, a)) <==> Raises(s, a) || (IsHigh(s) && !Lowers(s, a))
  {
  }

  /** After a reset or a pulse with no signal since, whoever takes the mutex to wait goes to
      sleep, in every schedule and for both kinds of event. */
  lemma NobodyPassesAfterReset(
      manual: bool, high: bool, roles: Roles, front: seq<Action>, a: Action, middle: seq<Action>, wait: Action)
    requires var s := Run(Step, Init(manual, high, roles), front); Takes(s, a, Reset) || Takes(s, a, Pulse)
    requires NoneFrom(Step, Run(Step, Init(manual, high, roles), front + [a]), middle, Raises, 0)
    requires var t := Run(Step, Init(manual, high, roles), front + [a] + middle);
             Takes(t, wait, Wait) || Takes(t, wait, TimedWait)
    ensures var t := Run(Step, Init(manual, high, roles), front + [a] + middle);
            t.state == 0 && IsBlocked(Step(t, wait).pcs, wait.c)
  {
    var init := Init(manual, high, roles);
    HighIffSignalledLast(manual, high, roles, front);
    var acts := Then(Step, init, front, a);
    FlagStep(Run(Step, init, front), a);
    RunConcat(Step, init, acts, middle);
    LastWord(Run(Step, init, acts), middle);
  }

  // ---- who is woken, and what for ----

  /** A pulse, or a signal that finds the event low. */
  ghost predicate Notifies(s: State, a: Action) {
    Takes(s, a, Pulse) || (Takes(s, a, Signal) && s.state == 0)
  }

  /** It takes everybody off the condition of a manual-reset event, and exactly one client, if
      anybody sleeps, off that of an auto-reset event. */
  lemma NotifyWakes(s: State, a: Action)
    requires Notifies(s, a)
    ensures var t := Step(s, a);
            && (s.manual ==> NobodyBlocked(t.pcs))
            && (!s.manual && !NobodyBlocked(s.pcs) ==> Count(t.pcs, IsAsleep) == Count(s.pcs, IsAsleep) - 1)
            && forall d :: IsBlocked(s.pcs, d) ==> IsBlocked(t.pcs, d) || (d in t.pcs && t.pcs[d].Woken?)
  {
    if !s.manual && !NobodyBlocked(s.pcs) {
      CountMove(s.pcs, a.w, Woken, IsAsleep);
      CountMove(s.pcs[a.w := Woken], a.c, Out(Ok), IsAsleep);
    }
  }

  /** A client that has been woken stays on its way until it gets the mutex, and then its wait
      returns Ok, whatever has become of the event in the meantime. */
  lemma {:induction false} WokenReturnsOk(s: State, c: Client, more: seq<Action>)
    requires c in s.pcs && s.pcs[c].Woken? && Resume(c) !in more
    ensures var t := Run(Step, s, more);
            && c in t.pcs && t.pcs[c].Woken?
            && Enabled(t, Resume(c)) && Step(t, Resume(c)).pcs[c] == Out(Ok)
    decreases |more|
  {
    if more != [] {
      WokenReturnsOk(s, c, more[..|more| - 1]);
    }
  }

  /** So a pulse, or a signal that finds the event low, lets every wait of a manual-reset event
      that sleeps return Ok, and one of those of an auto-reset event. */
  lemma SleepersAreReleased(s: State, a: Action, more: seq<Action>) returns (released: set<Client>)
    requires Notifies(s, a) && forall c :: Resume(c) !in more
    ensures released <= At(s.pcs, IsAsleep)
    ensures s.manual ==> released == At(s.pcs, IsAsleep)
    ensures !s.manual ==> |released| == if NobodyBlocked(s.pcs) then 0 else 1
    ensures var t := Run(Step, s, [a] + more);
            forall c :: c in released ==> Enabled(t, Resume(c)) && Step(t, Resume(c)).pcs[c] == Out(Ok)
  {
    released := if s.manual then At(s.pcs, IsAsleep) else if NobodyBlocked(s.pcs) then {} else {a.w};
    NotifyWakes(s, a);
    RunConcat(Step, s, [a], more);
    assert Run(Step, s, [a]) == Step(s, a);
    forall c | c in released
      ensures var t := Run(Step, s, [a] + more); Enabled(t, Resume(c)) && Step(t, Resume(c)).pcs[c] == Out(Ok)
    {
      WokenReturnsOk(Step(s, a), c, more);
    }
  }

  // ---- why a wait returns what it returns ----

  predicate InWait(pc: Pc) {
    (pc.Entered? && (pc.op.Wait? || pc.op.TimedWait?)) || pc.Blocked? || pc.Woken? || pc.Expired?
  }

  /** a ends a wait of its client with this status. */
  ghost predicate Returns(s: State, a: Action, status: Status) {
    a.c in s.pcs && InWait(s.pcs[a.c]) && Step(s, a).pcs[a.c] == Out(status)
  }

  /** a takes c off the condition on behalf of a signal or a pulse. */
  ghost predicate Wakes(s: State, a: Action, c: Client) {
    Notifies(s, a) && IsBlocked(s.pcs, c) && !IsBlocked(Step(s, a).pcs, c)
  }

  ghost predicate Expires(s: State, a: Action, c: Client, why: Status) {
    a == Expire(c, why) && Enabled(s, a)
  }

  ghost predicate Resumes(s: State, a: Action, c: Client) {
    a == Resume(c) && Enabled(s, a)
  }

  lemma ExpiredStep(s: State, a: Action, c: Client, why: Status)
    ensures StandsAt(Step(s, a).pcs, c, Expired(why)) <==>
              Expires(s, a, c, why) || (StandsAt(s.pcs, c, Expired(why)) && !Resumes(s, a, c))
  {
  }

  lemma WokenStep(s: State, a: Action, c: Client)
    requires !s.roles.spurious
    ensures !Step(s, a).roles.spurious
    ensures StandsAt(Step(s, a).pcs, c, Woken) <==> Wakes(s, a, c) || (StandsAt(s.pcs, c, Woken) && !Resumes(s, a, c))
  {
  }

  lemma ExpiredSince(start: State, acts: seq<Action>, c: Client, why: Status)
    requires EverybodyOut(start.pcs)
    ensures StandsAt(Run(Step, start, acts).pcs, c, Expired(why)) <==>
              NotSince(Step, start, acts, (s, a) => Expires(s, a, c, why), (s, a) => Resumes(s, a, c))
  {
    var holds := (s: State) => StandsAt(s.pcs, c, Expired(why));
    var sets := (s: State, a: Action) => Expires(s, a, c, why);
    var ends := (s: State, a: Action) => Resumes(s, a, c);
    forall s, a ensures holds(Step(s, a)) <==> sets(s, a) || (holds(s) && !ends(s, a)) {
      ExpiredStep(s, a, c, why);
    }
    LastWordDecides(Step, (s: State) => true, holds, sets, ends, start, acts);
  }

  lemma WokenSince(start: State, acts: seq<Action>, c: Client)
    requires EverybodyOut(start.pcs) && !start.roles.spurious
    ensures StandsAt(Run(Step, start, acts).pcs, c, Woken) <==>
              NotSince(Step, start, acts, (s, a) => Wakes(s, a, c), (s, a) => Resumes(s, a, c))
  {
    var inv := (s: State) => !s.roles.spurious;
    var holds := (s: State) => StandsAt(s.pcs, c, Woken);
    var sets := (s: State, a: Action) => Wakes(s, a, c);
    var ends := (s: State, a: Action) => Resumes(s, a, c);
    forall s, a | inv(s)
      ensures inv(Step(s, a)) && (holds(Step(s, a)) <==> sets(s, a) || (holds(s) && !ends(s, a)))
    {
      WokenStep(s, a, c);
    }
    LastWordDecides(Step, inv, holds, sets, ends, start, acts);
  }

  /** Without unasked wake-ups a wait returns Ok exactly if it found the event high, or a signal
      or a pulse has taken it off the condition and this is the first time since that it gets
      the mutex. This is so for manual-reset and auto-reset events. */
  lemma ReturnsOkIff(manual: bool, high: bool, roles: Roles, acts: seq<Action>, a: Action)
    requires !roles.spurious
    ensures var init := Init(manual, high, roles);
            var s := Run(Step, init, acts);
            Returns(s, a, Ok) <==>
              || ((Takes(s, a, Wait) || Takes(s, a, TimedWait)) && IsHigh(s))
              || (a == Resume(a.c)
                  && NotSince(Step, init, acts, (s, b) => Wakes(s, b, a.c), (s, b) => Resumes(s, b, a.c)))
  {
    var init := Init(manual, high, roles);
    LastWord(init, acts);
    WokenSince(init, acts, a.c);
    ExpiredSince(init, acts, a.c, Ok);
    ReturnsOkNow(Run(Step, init, acts), a);
  }

  lemma ReturnsOkNow(s: State, a: Action)
    requires IsFlag(s) && !StandsAt(s.pcs, a.c, Expired(Ok))
    ensures Returns(s, a, Ok) <==>
              || ((Takes(s, a, Wait) || Takes(s, a, TimedWait)) && IsHigh(s))
              || (a == Resume(a.c) && StandsAt(s.pcs, a.c, Woken))
  {
  }

  /** It returns anything else exactly if just that ended its sleep on the condition, which only
      a timed wait can come to, and this is the first time since that it gets the mutex. */
  lemma FailsIff(manual: bool, high: bool, roles: Roles, acts: seq<Action>, a: Action, why: Status)
    requires why != Ok
    ensures var init := Init(manual, high, roles);
            Returns(Run(Step, init, acts), a, why) <==>
              && a == Resume(a.c)
              && NotSince(Step, init, acts, (s, b) => Expires(s, b, a.c, why), (s, b) => Resumes(s, b, a.c))
  {
    var init := Init(manual, high, roles);
    ExpiredSince(init, acts, a.c, why);
    FailsNow(Run(Step, init, acts), a, why);
  }

  lemma FailsNow(s: State, a: Action, why: Status)
    requires why != Ok
    ensures Returns(s, a, why) <==> a == Resume(a.c) && StandsAt(s.pcs, a.c, Expired(why))
  {
  }

  /** A client goes to sleep exactly if its wait finds the event low, and it sleeps with a time
      limit exactly if it asked for one. */
  lemma SleepsIff(s: State, a: Action, c: Client, timed: bool)
    ensures !IsBlocked(s.pcs, c) ==>
              (StandsAt(Step(s, a).pcs, c, Blocked(timed)) <==>
                a.c == c && Takes(s, a, if timed then TimedWait else Wait) && s.state == 0)
  {
  }

  /** No call is ever refused, and signals, resets and pulses return Ok. */
  lemma OnlyWaitsFail(manual: bool, high: bool, roles: Roles, acts: seq<Action>, a: Action)
    ensures var s := Run(Step, Init(manual, high, roles), acts);
            && (a.Call? && Enabled(s, a) ==> Step(s, a).pcs[a.c] == Entered(a.op))
            && (a.c in s.pcs && s.pcs[a.c].Entered? && !InWait(s.pcs[a.c]) ==>
                  Step(s, a) == s || Step(s, a).pcs[a.c] == Out(Ok))
  {
    LastWord(Init(manual, high, roles), acts);
  }

  ghost predicate Counted(s: State, a: Action) {
    var t := Step(s, a);
    var ends := a.c in s.pcs && InWait(s.pcs[a.c]) && t.pcs[a.c].Out?;
    && t.oks == s.oks + (if ends && t.pcs[a.c].last == Ok then 1 else 0)
    && t.expiries == s.expiries + (if ends && t.pcs[a.c].last != Ok then 1 else 0)
    && t.rises == s.rises + (if s.state == 0 && t.state == 1 then 1 else 0)
    && t.pulses == s.pulses + (if Takes(s, a, Pulse) then 1 else 0)
    && t.resets == s.resets + (if Takes(s, a, Reset) then 1 else 0)
  }

  /** The counts of the theorems are what an observer of the clients and the flag counts: waits
      that return Ok and that do not, changes from 0 to 1, and pulses and resets carried out. */
  lemma CountsAreObserved(manual: bool, high: bool, roles: Roles, acts: seq<Action>, a: Action)
    ensures Counted(Run(Step, Init(manual, high, roles), acts), a)
  {
    forall s, b | NoneExpiredOk(s) ensures NoneExpiredOk(Step(s, b)) {
      FlagStep(s, b);
      ExpiredNotOk(s, b);
    }
    InvariantOfRuns(Step, NoneExpiredOk, Init(manual, high, roles), acts);
    OneIsCounted(Run(Step, Init(manual, high, roles), acts), a);
  }

  ghost predicate NoneExpiredOk(s: State) {
    IsFlag(s) && forall c :: !StandsAt(s.pcs, c, Expired(Ok))
  }

  lemma ExpiredNotOk(s: State, a: Action)
    requires NoneExpiredOk(s)
    ensures forall c :: !StandsAt(Step(s, a).pcs, c, Expired(Ok))
  {
    forall c ensures !StandsAt(Step(s, a).pcs, c, Expired(Ok)) {
      ExpiredStep(s, a, c, Ok);
    }
  }

  lemma OneIsCounted(s: State, a: Action)
    requires NoneExpiredOk(s)
    ensures Counted(s, a)
  {
    assert !StandsAt(s.pcs, a.c, Expired(Ok));
  }

  /** The mutex is free between two actions, so only sleep keeps a client from going on. */
  lemma OnlySleepersWait(s: State, c: Client) returns (a: Action)
    requires c in s.pcs && !s.pcs[c].Out? && s.pcs[c] != Blocked(false)
    ensures a.c == c && Enabled(s, a) && Step(s, a).pcs[c] != s.pcs[c]
  {
    match s.pcs[c]
    case Entered(_) =>
      var w := c;
      if d :| IsBlocked(s.pcs, d) {
        w := d;
      }
      a := Lock(c, w);
    case Blocked(_) => a := Expire(c, Timeout);
    case _ => a := Resume(c);
  }

  // ---- the C structure ----

  /** vm_event. `pcs` stands for the threads and, through those Blocked, for the condition
      variable. Each method is one uninterrupted part of a C function. */
  class VmEvent {
    var manual: bool
    var state: int
    var pcs: map<Client, Pc>
    const roles: Roles
    ghost var rises: nat
    ghost var pulses: nat
    ghost var resets: nat
    ghost var oks: nat
    ghost var expiries: nat

    ghost function Snapshot(): State
      reads this
    {
      State(manual, roles, state, pcs, rises, pulses, resets, oks, expiries)
    }

    constructor (manual: int, state: int, roles: Roles)
      ensures Snapshot() == Init(manual != 0, state != 0, roles) && this.roles == roles
    {
      this.manual := manual != 0;
      this.state := if state != 0 then 1 else 0;
      this.pcs := map c | c in Clients(roles) :: Out(Ok);
      this.roles := roles;
      rises, pulses, resets, oks, expiries := 0, 0, 0, 0, 0;
    }

    /** The test of `state` every operation makes before it takes the mutex. */
    method Enter(c: Client, op: Op)
      requires Enabled(Snapshot(), Call(c, op))
      modifies this
      ensures Snapshot() == Step(old(Snapshot()), Call(c, op))
    {
      if 0 <= state {
        pcs := pcs[c := Entered(op)];
      } else {
        pcs := pcs[c := Out(NotInitialized)];
      }
    }

    method NotifyCond(w: Client)
      modifies this`pcs
      ensures pcs == Notify(old(Snapshot()), w)
    {
      if manual {
        pcs := Broadcast(pcs);
      } else {
        pcs := SignalOne(pcs, w);
      }
    }

    method SignalLocked(c: Client, w: Client)
      requires c in pcs && pcs[c] == Entered(Signal)
      requires CanNotify(manual, pcs, w)
      modifies this
      ensures Snapshot() == Step(old(Snapshot()), Lock(c, w))
    {
      if state == 0 {
        state := 1;
        rises := rises + 1;
        NotifyCond(w);
      }
      pcs := pcs[c := Out(Ok)];
    }

    method ResetLocked(c: Client)
      requires c in pcs && pcs[c] == Entered(Reset)
      modifies this
      ensures forall w :: Snapshot() == Step(old(Snapshot()), Lock(c, w))
    {
      if state == 1 {
        state := 0;
      }
      resets := resets + 1;
      pcs := pcs[c := Out(Ok)];
    }

    method PulseLocked(c: Client, w: Client)
      requires c in pcs && pcs[c] == Entered(Pulse)
      requires CanNotify(manual, pcs, w)
      modifies this
      ensures Snapshot() == Step(old(Snapshot()), Lock(c, w))
    {
      NotifyCond(w);
      state := 0;
      pulses := pulses + 1;
      pcs := pcs[c := Out(Ok)];
    }

    /** Both waits up to the point where they sleep on the condition or return. */
    method WaitLocked(c: Client, timed: bool)
      requires c in pcs && pcs[c] == Entered(if timed then TimedWait else Wait)
      modifies this
      ensures forall w :: Snapshot() == Step(old(Snapshot()), Lock(c, w))
    {
      if state == 0 {
        pcs := pcs[c := Blocked(timed)];
      } else {
        if !manual {
          state := 0;
        }
        oks := oks + 1;
        pcs := pcs[c := Out(Ok)];
      }
    }

    /** Both waits from the point where the condition gives the mutex back. */
    method WaitResumed(c: Client) returns (status: Status)
      requires InFlight(pcs, c)
      modifies this
      ensures Snapshot() == Step(old(Snapshot()), Resume(c))
      ensures pcs[c] == Out(status) && (old(pcs[c].Woken?) ==> status == Ok)
    {
      match pcs[c] {
        case Woken =>
          status := Ok;
          oks := oks + 1;
        case Expired(why) =>
          status := why;
          expiries := expiries + 1;
      }
      if !manual {
        state := 0;
      }
      pcs := pcs[c := Out(status)];
    }
  }
}
