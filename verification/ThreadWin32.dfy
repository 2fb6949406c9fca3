/** vm_thread on Windows: the thread handle is shared by clients that count themselves in
    under the mutex, wait for the thread outside it, and count themselves out again; the
    last one out closes the handle. One creation per run. */
module ThreadWin32 {
  import opened Runs
  import opened Census

  type Client = nat

  /** Where a client stands in vm_thread_wait.
      Counted:  counted in, has released the mutex, has not read the handle again yet
      Sleeping: inside WaitForSingleObject on the handle it read
      Awake:    WaitForSingleObject has returned, has not got the mutex back yet */
  datatype Pc = Idle | Counted | Sleeping | Awake

  /** `handle` is the field being non-NULL, `open` the kernel's side of it. The rest is
      history: CloseHandle calls on the open handle, uses of a NULL or closed handle,
      clients ever counted in, and the answers vm_thread_is_valid has given. */
  datatype State = State(
    created: bool, terminated: bool, handle: bool, open: bool, waitCount: int, pcs: map<Client, Pc>,
    closes: nat, faults: nat, entries: nat, answers: seq<int>)

  datatype Action =
    | Terminate
    | EnterWait(c: Client)
    | Sleep(c: Client)
    | Wake(c: Client)
    | LeaveWait(c: Client)
    | IsValid(c: Client)

  predicate Inside(pc: Pc) {
    !pc.Idle?
  }

  function Init(created: bool, users: set<Client>): State {
    State(created, !created, created, created, 0, map c | c in users :: Idle, 0, 0, 0, [])
  }

  ghost predicate Enabled(s: State, a: Action) {
    match a
    case Terminate => !s.terminated
    case EnterWait(c) => c in s.pcs && s.pcs[c].Idle?
    case Sleep(c) => c in s.pcs && s.pcs[c].Counted?
    case Wake(c) => c in s.pcs && s.pcs[c].Sleeping? && (s.terminated || !s.open)
    case LeaveWait(c) => c in s.pcs && s.pcs[c].Awake?
    case IsValid(c) => c in s.pcs && s.pcs[c].Idle?
  }

  /** CloseHandle followed by clearing the field. */
  function CloseStep(s: State): State {
    var t := s.(handle := false);
    if s.handle && s.open then t.(open := false, closes := s.closes + 1) else t.(faults := s.faults + 1)
  }

  function IsValidStep(s: State): State {
    if !s.handle then s.(answers := s.answers + [0])
    else if !s.open then s.(faults := s.faults + 1, answers := s.answers + [1])
    else if !s.terminated then s.(answers := s.answers + [1])
    else (if 0 == s.waitCount then CloseStep(s) else s).(answers := s.answers + [0])
  }

  function LeaveStep(s: State): State {
    var t := s.(waitCount := s.waitCount - 1);
    if 0 == t.waitCount then CloseStep(t) else t
  }

  ghost function Step(s: State, a: Action): State {
    if !Enabled(s, a) then s else
    match a
    case Terminate => s.(terminated := true)
    case EnterWait(c) =>
      if s.handle
      then s.(waitCount := s.waitCount + 1, pcs := s.pcs[c := Counted], entries := s.entries + 1)
      else s
    case Sleep(c) =>
      if s.handle && s.open then s.(pcs := s.pcs[c := Sleeping])
      else s.(pcs := s.pcs[c := Awake], faults := s.faults + 1)
    case Wake(c) =>
      s.(pcs := s.pcs[c := Awake], faults := s.faults + if s.open then 0 else 1)
    case LeaveWait(c) => LeaveStep(s).(pcs := s.pcs[c := Idle])
    case IsValid(c) => IsValidStep(s)
  }

  // ---- what every schedule keeps ----

  ghost predicate Inv(s: State) {
    && s.waitCount == Count(s.pcs, Inside)
    && s.handle == s.open && s.faults == 0
    && s.closes == (if s.created && !s.handle then 1 else 0)
    && (s.handle ==> s.created)
    && (s.waitCount > 0 ==> s.handle && s.entries > 0)
    && (forall c :: c in s.pcs && s.pcs[c].Awake? ==> s.terminated)
    && (s.created && !s.handle ==> s.terminated)
    && (s.handle && s.waitCount == 0 ==> s.entries == 0 && 0 !in s.answers)
    && (s.created && !s.handle ==> s.entries > 0 || 0 in s.answers)
    && (0 in s.answers ==> s.terminated || !s.created)
    && Falling(s.answers)
  }

  /** Answers are 1 up to some point and 0 from there on. */
  ghost predicate Falling(answers: seq<int>) {
    && (forall i :: 0 <= i < |answers| ==> answers[i] == 0 || answers[i] == 1)
    && (forall i, j :: 0 <= i < j < |answers| && answers[i] == 0 ==> answers[j] == 0)
  }

  lemma InvStep(s: State, a: Action)
    requires Inv(s)
    ensures Inv(Step(s, a))
  {
    if Enabled(s, a) && !a.Terminate? {
      var t := Step(s, a);
      CountMove(s.pcs, a.c, t.pcs[a.c], Inside);
      InsideIsCounted(s.pcs, a.c);
      assert s.pcs[a.c := s.pcs[a.c]] == s.pcs;
    }
  }

  lemma InsideIsCounted(pcs: map<Client, Pc>, c: Client)
    requires c in pcs
    ensures Inside(pcs[c]) ==> Count(pcs, Inside) > 0
  {
    if Inside(pcs[c]) {
      assert c in At(pcs, Inside);
    }
  }

  lemma InvHolds(created: bool, users: set<Client>, acts: seq<Action>)
    ensures Inv(Run(Step, Init(created, users), acts))
  {
    forall s, a | Inv(s) ensures Inv(Step(s, a)) {
      InvStep(s, a);
    }
    var init := Init(created, users);
    assert At(init.pcs, Inside) == {};
    InvariantOfRuns(Step, Inv, init, acts);
  }

  /** The handle is used safely whatever the number of clients and the interleaving:
      i_wait_count is the number of clients inside vm_thread_wait; nobody ever waits on,
      queries or closes a NULL or closed handle; the handle is closed at most once, and only
      after the thread has terminated; and while a client is inside it stays open. */
  lemma HandleIsSafe(created: bool, users: set<Client>, acts: seq<Action>)
    ensures var s := Run(Step, Init(created, users), acts);
            && s.waitCount == Count(s.pcs, Inside)
            && s.faults == 0
            && s.closes <= 1
            && (s.closes == 1 ==> s.terminated)
            && (forall c :: c in s.pcs && Inside(s.pcs[c]) ==> s.handle && s.open)
  {
    InvHolds(created, users, acts);
    var s := Run(Step, Init(created, users), acts);
    forall c | c in s.pcs && Inside(s.pcs[c]) ensures s.handle {
      InsideIsCounted(s.pcs, c);
    }
  }

  /** The action is part of a call of vm_thread_wait, and the client is outside afterwards. */
  ghost predicate WaitReturns(s: State, a: Action) {
    Enabled(s, a) && (a.EnterWait? || a.Sleep? || a.Wake? || a.LeaveWait?) && Step(s, a).pcs[a.c].Idle?
  }

  /** vm_thread_wait returns only if the thread has terminated or was never created. */
  lemma WaitReturnsOnlyAfterTermination(created: bool, users: set<Client>, acts: seq<Action>, a: Action)
    requires WaitReturns(Run(Step, Init(created, users), acts), a)
    ensures var s := Run(Step, Init(created, users), acts); s.terminated || !s.created
  {
    InvHolds(created, users, acts);
  }

  /** vm_thread_is_valid never goes back from 0 to 1, and answers 0 only for a thread that
      has terminated or was never created. */
  lemma ValidityNeverReturns(created: bool, users: set<Client>, acts: seq<Action>)
    ensures var s := Run(Step, Init(created, users), acts);
            Falling(s.answers) && (0 in s.answers ==> s.terminated || !s.created)
  {
    InvHolds(created, users, acts);
  }

  /** In every reachable state vm_thread_is_valid answers 0 exactly if the thread has terminated
      or was never created. Asked by a client when nobody waits it also closes the handle of a
      terminated thread, if that is still open, and otherwise it leaves the handle alone. */
  lemma IsValidAnswersZeroIff(created: bool, users: set<Client>, acts: seq<Action>, c: Client)
    requires Enabled(Run(Step, Init(created, users), acts), IsValid(c))
    ensures var s := Run(Step, Init(created, users), acts);
            var t := Step(s, IsValid(c));
            && t.answers == s.answers + [if s.terminated || !created then 0 else 1]
            && (t.handle <==> s.handle && !(s.terminated && s.waitCount == 0))
            && t.closes == s.closes + (if s.handle && !t.handle then 1 else 0)
            && t.pcs == s.pcs && t.waitCount == s.waitCount
  {
    InvHolds(created, users, acts);
    CreationIsFixed(Init(created, users), acts);
  }

  lemma CreationIsFixed(start: State, acts: seq<Action>)
    requires !start.created ==> start.terminated
    ensures var s := Run(Step, start, acts); s.created == start.created && (!s.created ==> s.terminated)
  {
    var inv := (s: State) => s.created == start.created && (!s.created ==> s.terminated);
    assert Inductive(Step, inv);
    InvariantOfRuns(Step, inv, start, acts);
  }

  /** A client that finds the thread valid is counted in, sleeps until the thread has terminated
      and then counts itself out; only that gets it out of vm_thread_wait. */
  lemma WaitGoesOnIff(created: bool, users: set<Client>, acts: seq<Action>, c: Client)
    requires c in users
    ensures var s := Run(Step, Init(created, users), acts);
            && c in s.pcs
            && (Enabled(s, EnterWait(c)) ==> (Inside(Step(s, EnterWait(c)).pcs[c]) <==> s.handle))
            && (s.pcs[c].Counted? ==> Step(s, Sleep(c)).pcs[c].Sleeping?)
            && (s.pcs[c].Sleeping? ==> (Step(s, Wake(c)).pcs[c].Awake? <==> s.terminated))
            && (s.pcs[c].Awake? ==> Step(s, LeaveWait(c)).pcs[c].Idle?)
  {
    InvHolds(created, users, acts);
    UsersAreFixed(Init(created, users), acts);
    InsideIsCounted(Run(Step, Init(created, users), acts).pcs, c);
  }

  lemma UsersAreFixed(start: State, acts: seq<Action>)
    ensures Run(Step, start, acts).pcs.Keys == start.pcs.Keys
  {
    var inv := (s: State) => s.pcs.Keys == start.pcs.Keys;
    assert Inductive(Step, inv);
    InvariantOfRuns(Step, inv, start, acts);
  }

  /** `entries`, `closes` and `answers` are what an observer of the clients and the handle
      counts. */
  lemma CountsAreObserved(s: State, a: Action)
    ensures var t := Step(s, a);
            var enters := a.EnterWait? && Enabled(s, a) && Inside(t.pcs[a.c]);
            && t.entries == s.entries + (if enters then 1 else 0)
            && t.closes == s.closes + (if s.open && !t.open then 1 else 0)
            && |t.answers| == |s.answers| + (if a.IsValid? && Enabled(s, a) then 1 else 0)
  {
  }

  /** Whenever no client is inside vm_thread_wait, the handle of a created thread is closed if
      and only if some client has waited or has been told that the thread is over. */
  lemma QuietHandleIsClosedIffUsed(created: bool, users: set<Client>, acts: seq<Action>)
    ensures var s := Run(Step, Init(created, users), acts);
            s.created && (forall c :: c in s.pcs ==> s.pcs[c].Idle?) ==>
              (!s.handle <==> s.entries > 0 || 0 in s.answers)
  {
    InvHolds(created, users, acts);
    var s := Run(Step, Init(created, users), acts);
    if forall c :: c in s.pcs ==> s.pcs[c].Idle? {
      assert At(s.pcs, Inside) == {};
    }
  }

  // ---- nobody is left behind ----

  predicate StillCounted(pc: Pc) {
    pc.Counted?
  }

  predicate NotYetAwake(pc: Pc) {
    pc.Counted? || pc.Sleeping?
  }

  /** Moves the clients inside vm_thread_wait still have to make. */
  function Remaining(s: State): nat {
    Count(s.pcs, Inside) + Count(s.pcs, NotYetAwake) + Count(s.pcs, StillCounted)
  }

  function NextMove(s: State, c: Client): Action
    requires c in s.pcs && Inside(s.pcs[c])
  {
    match s.pcs[c]
    case Counted => Sleep(c)
    case Sleeping => Wake(c)
    case Awake => LeaveWait(c)
  }

  lemma MoveMakesProgress(s: State, c: Client)
    requires Inv(s) && s.terminated && c in s.pcs && Inside(s.pcs[c])
    ensures var t := Step(s, NextMove(s, c));
            Inv(t) && t.terminated && Remaining(t) < Remaining(s) && t.entries == s.entries && t.created == s.created
  {
    var t := Step(s, NextMove(s, c));
    InsideIsCounted(s.pcs, c);
    InvStep(s, NextMove(s, c));
    assert t.pcs == s.pcs[c := t.pcs[c]];
    CountMove(s.pcs, c, t.pcs[c], Inside);
    CountMove(s.pcs, c, t.pcs[c], NotYetAwake);
    CountMove(s.pcs, c, t.pcs[c], StillCounted);
  }

  lemma {:induction false} EverybodyCanLeave(s: State) returns (acts: seq<Action>)
    requires Inv(s) && s.terminated
    ensures var t := Run(Step, s, acts);
            && (forall c :: c in t.pcs ==> t.pcs[c].Idle?)
            && (s.entries > 0 && s.created ==> !t.handle && t.closes == 1)
    decreases Remaining(s)
  {
    if c :| c in s.pcs && Inside(s.pcs[c]) {
      MoveMakesProgress(s, c);
      var move := NextMove(s, c);
      var rest := EverybodyCanLeave(Step(s, move));
      acts := [move] + rest;
      RunConcat(Step, s, [move], rest);
      assert Run(Step, s, [move]) == Step(s, move);
    } else {
      acts := [];
      assert At(s.pcs, Inside) == {};
    }
  }

  /** Whatever has happened before the thread terminates, everybody inside vm_thread_wait can
      still get out, and if anybody ever waited the handle of a created thread has been
      closed, exactly once, when they all are. */
  lemma WaitersAlwaysGetOut(created: bool, users: set<Client>, acts: seq<Action>) returns (more: seq<Action>)
    requires Run(Step, Init(created, users), acts).terminated
    ensures var s := Run(Step, Init(created, users), acts);
            var t := Run(Step, Init(created, users), acts + more);
            && (forall c :: c in t.pcs ==> t.pcs[c].Idle?)
            && (s.entries > 0 && s.created ==> !t.handle && t.closes == 1)
  {
    InvHolds(created, users, acts);
    more := EverybodyCanLeave(Run(Step, Init(created, users), acts));
    RunConcat(Step, Init(created, users), acts, more);
  }

  // ---- the C structure ----

  /** vm_thread. Each method is the part of a C function between two points where another
      thread may run. */
  class VmThread {
    const created: bool
    var handle: bool
    var waitCount: int
    var open: bool
    var terminated: bool
    var pcs: map<Client, Pc>
    ghost var closes: nat
    ghost var faults: nat
    ghost var entries: nat
    ghost var answers: seq<int>

    ghost function Snapshot(): State
      reads this
    {
      State(created, terminated, handle, open, waitCount, pcs, closes, faults, entries, answers)
    }

    /** vm_thread_create on a handle nobody uses yet; `ok` is the outcome of _beginthreadex. */
    constructor (ok: bool, users: set<Client>)
      ensures Snapshot() == Init(ok, users)
    {
      created, handle, open, terminated, waitCount := ok, ok, ok, !ok, 0;
      pcs := map c | c in users :: Idle;
      closes, faults, entries, answers := 0, 0, 0, [];
    }

    method CloseHandle()
      modifies this`handle, this`open, this`closes, this`faults
      ensures Snapshot() == CloseStep(old(Snapshot()))
    {
      if handle && open {
        open := false;
        closes := closes + 1;
      } else {
        faults := faults + 1;
      }
      handle := false;
    }

    /** vm_thread_wait, first critical section. */
    method Enter(c: Client) returns (counted: bool)
      requires Enabled(Snapshot(), EnterWait(c))
      modifies this
      ensures Snapshot() == Step(old(Snapshot()), EnterWait(c))
      ensures counted == old(handle)
    {
      counted := false;
      if handle {
        waitCount := waitCount + 1;
        entries := entries + 1;
        pcs := pcs[c := Counted];
        counted := true;
      }
    }

    /** vm_thread_wait, last critical section. */
    method Leave(c: Client)
      requires Enabled(Snapshot(), LeaveWait(c))
      modifies this
      ensures Snapshot() == Step(old(Snapshot()), LeaveWait(c))
    {
      waitCount := waitCount - 1;
      if 0 == waitCount {
        CloseHandle();
      }
      pcs := pcs[c := Idle];
    }

    /** vm_thread_is_valid: one critical section. */
    method IsValid(c: Client) returns (res: int)
      requires Enabled(Snapshot(), Action.IsValid(c))
      modifies this
      ensures Snapshot() == Step(old(Snapshot()), Action.IsValid(c))
      ensures answers == old(answers) + [res]
    {
      res := 1;
      if handle {
        if !open {
          faults := faults + 1;
        } else if terminated {
          res := 0;
          if 0 == waitCount {
            CloseHandle();
          }
        }
      }
      if !handle {
        res := 0;
      }
      answers := answers + [res];
    }
  }
}
