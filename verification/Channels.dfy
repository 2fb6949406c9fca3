/** The channel table of a vm_socket on Linux: slot 0 is the socket itself, slots 1 to 20 hold
    the connections a TCP server has accepted; a negative entry is a free slot. */
module Channels {
  import opened Runs

  /** VM_SOCKET_QUEUE, and the slots of a table. */
  const QUEUE: nat := 20
  const SLOTS: nat := QUEUE + 1

  /** VM_SOCKET_UDP, VM_SOCKET_SERVER */
  predicate Udp(flags: bv32) {
    flags & 1 != 0
  }

  predicate Server(flags: bv32) {
    flags & 4 != 0
  }

  /** A table with the history of the descriptors that went through it. */
  datatype Table = Table(chns: seq<int>, flags: bv32, acquired: multiset<int>, released: multiset<int>)

  /** `fd` and `ret` are the system's answers. */
  datatype Action =
    | Accept(fd: int)
    | Read(chn: int, ret: int)
    | Write(chn: int, ret: int)
    | CloseChannel(chn: int)
    | Close

  function One(fd: int): multiset<int> {
    if fd < 0 then multiset{} else multiset{fd}
  }

  /** The descriptors in a table. */
  function Entries(chns: seq<int>): multiset<int> {
    if chns == [] then multiset{} else One(chns[0]) + Entries(chns[1..])
  }

  function Cleared(n: nat): (s: seq<int>)
    ensures |s| == n && forall i :: 0 <= i < n ==> s[i] == -1
  {
    seq(n, _ => -1)
  }

  /** A handle that vm_socket_init has set up around one descriptor. */
  function Start(fd: nat, flags: bv32): Table {
    Table([fd] + Cleared(QUEUE), flags, multiset{fd}, multiset{})
  }

  /** The lowest free slot from k on, or the number of slots. */
  function FreeFrom(chns: seq<int>, k: nat): (r: nat)
    requires k <= |chns|
    ensures k <= r <= |chns| && (forall i :: k <= i < r ==> chns[i] >= 0) && (r < |chns| ==> chns[r] < 0)
    decreases |chns| - k
  {
    if k == |chns| || chns[k] < 0 then k else FreeFrom(chns, k + 1)
  }

  /** The system does not hand out a descriptor that is open. */
  predicate Possible(t: Table, fd: int) {
    fd < 0 || fd !in t.chns
  }

  /** Whether vm_socket_accept gets as far as asking the system. */
  predicate Accepts(t: Table)
    requires |t.chns| == SLOTS
  {
    t.chns[0] >= 0 && !Udp(t.flags) && Server(t.flags) && FreeFrom(t.chns, 1) < SLOTS
  }

  function AcceptStep(t: Table, fd: int): Table
    requires |t.chns| == SLOTS
  {
    if !Accepts(t) || !Possible(t, fd) then t
    else t.(chns := t.chns[FreeFrom(t.chns, 1) := fd], acquired := t.acquired + One(fd))
  }

  function AcceptResult(t: Table, fd: int): int
    requires |t.chns| == SLOTS
  {
    if t.chns[0] < 0 then -1
    else if Udp(t.flags) || !Server(t.flags) then 0
    else if !Accepts(t) || fd < 0 then -1
    else FreeFrom(t.chns, 1)
  }

  function CloseStep(t: Table, k: nat): Table
    requires k < |t.chns|
  {
    t.(chns := t.chns[k := -1], released := t.released + One(t.chns[k]))
  }

  predicate InUse(t: Table, chn: int) {
    0 <= chn < |t.chns| && t.chns[chn] >= 0
  }

  /** vm_socket_read and vm_socket_write: a result below 1 costs the channel. */
  function TransferStep(t: Table, chn: int, ret: int): Table {
    if InUse(t, chn) && ret < 1 then CloseStep(t, chn) else t
  }

  function TransferResult(t: Table, chn: int, ret: int): int {
    if InUse(t, chn) then ret else -1
  }

  function CloseAll(t: Table): Table {
    t.(chns := Cleared(|t.chns|), released := t.released + Entries(t.chns))
  }

  function Step(t: Table, a: Action): Table {
    if |t.chns| != SLOTS then t else
    match a
    case Accept(fd) => AcceptStep(t, fd)
    case Read(chn, ret) => TransferStep(t, chn, ret)
    case Write(chn, ret) => TransferStep(t, chn, ret)
    case CloseChannel(chn) => if 0 <= chn < SLOTS then CloseStep(t, chn) else t
    case Close => CloseAll(t)
  }

  /** A table in the middle of vm_socket_close: the slots from i on are closed. */
  function ClosedFrom(t: Table, i: nat): Table
    requires i <= |t.chns|
  {
    t.(chns := t.chns[..i] + Cleared(|t.chns| - i), released := t.released + Entries(t.chns[i..]))
  }

  lemma ClosedFromNext(t: Table, i: nat)
    requires i < |t.chns|
    ensures CloseStep(ClosedFrom(t, i + 1), i) == ClosedFrom(t, i)
  {
    assert t.chns[i..][1..] == t.chns[i + 1..];
    assert ClosedFrom(t, i + 1).chns[i := -1] == ClosedFrom(t, i).chns;
  }

  lemma ClosedFromEnds(t: Table)
    ensures ClosedFrom(t, |t.chns|) == t && ClosedFrom(t, 0) == CloseAll(t)
  {
    assert t.chns[..|t.chns|] + Cleared(0) == t.chns && t.chns[0..] == t.chns;
    assert t.chns[..0] + Cleared(|t.chns|) == Cleared(|t.chns|);
  }

  // ---- what is open is what the table holds ----

  ghost predicate AtMostOnce(m: multiset<int>) {
    forall fd :: m[fd] <= 1
  }

  /** Every descriptor acquired and not released is in the table, in one slot. */
  ghost predicate Balanced(t: Table) {
    |t.chns| == SLOTS && t.acquired == t.released + Entries(t.chns) && AtMostOnce(Entries(t.chns))
  }

  lemma {:induction false} EntriesCount(chns: seq<int>, fd: int)
    ensures Entries(chns)[fd] > 0 <==> fd >= 0 && fd in chns
  {
    if chns != [] {
      EntriesCount(chns[1..], fd);
    }
  }

  lemma {:induction false} EntriesUpdate(chns: seq<int>, k: nat, fd: int)
    requires k < |chns|
    ensures forall d :: Entries(chns[k := fd])[d] + One(chns[k])[d] == Entries(chns)[d] + One(fd)[d]
  {
    var after := chns[k := fd];
    if k == 0 {
      assert after[1..] == chns[1..];
    } else {
      assert after[1..] == chns[1..][k - 1 := fd];
      EntriesUpdate(chns[1..], k - 1, fd);
    }
  }

  lemma {:induction false} EntriesCleared(n: nat)
    ensures Entries(Cleared(n)) == multiset{}
  {
    if n > 0 {
      assert Cleared(n)[1..] == Cleared(n - 1);
      EntriesCleared(n - 1);
    }
  }

  /** No descriptor is in two slots. */
  lemma {:induction false} SlotsAreDistinct(chns: seq<int>, i: nat, j: nat)
    requires AtMostOnce(Entries(chns)) && i < j < |chns| && chns[i] >= 0
    ensures chns[i] != chns[j]
  {
    var rest := chns[1..];
    assert Entries(chns) == One(chns[0]) + Entries(rest);
    assert forall fd :: Entries(rest)[fd] <= Entries(chns)[fd];
    if i > 0 {
      SlotsAreDistinct(rest, i - 1, j - 1);
    } else {
      EntriesCount(rest, chns[0]);
      assert rest[j - 1] in rest;
    }
  }

  lemma AcceptBalanced(t: Table, fd: int)
    requires Balanced(t)
    ensures Balanced(AcceptStep(t, fd))
  {
    if Accepts(t) && Possible(t, fd) {
      var k, after := FreeFrom(t.chns, 1), AcceptStep(t, fd);
      EntriesUpdate(t.chns, k, fd);
      EntriesCount(t.chns, fd);
      forall d ensures after.acquired[d] == (after.released + Entries(after.chns))[d] {
        assert t.acquired[d] == t.released[d] + Entries(t.chns)[d];
      }
      forall d ensures Entries(after.chns)[d] <= 1 {
        assert d != fd ==> One(fd)[d] == 0;
      }
    }
  }

  lemma CloseBalanced(t: Table, k: nat)
    requires Balanced(t) && k < SLOTS
    ensures Balanced(CloseStep(t, k)) && CloseStep(t, k).released <= t.acquired
  {
    EntriesUpdate(t.chns, k, -1);
    var after := CloseStep(t, k);
    forall d ensures after.acquired[d] == (after.released + Entries(after.chns))[d] {
      assert t.acquired[d] == t.released[d] + Entries(t.chns)[d];
    }
    forall d ensures Entries(after.chns)[d] <= 1 {
      assert Entries(after.chns)[d] <= Entries(t.chns)[d];
    }
  }

  lemma StepBalanced(t: Table, a: Action)
    requires Balanced(t)
    ensures Balanced(Step(t, a))
  {
    match a
    case Accept(fd) => AcceptBalanced(t, fd);
    case Read(chn, ret) => if InUse(t, chn) { CloseBalanced(t, chn); }
    case Write(chn, ret) => if InUse(t, chn) { CloseBalanced(t, chn); }
    case CloseChannel(chn) => if 0 <= chn < SLOTS { CloseBalanced(t, chn); }
    case Close => EntriesCleared(SLOTS);
  }

  lemma StartBalanced(fd: nat, flags: bv32)
    ensures Balanced(Start(fd, flags))
  {
    EntriesCleared(QUEUE);
    assert Start(fd, flags).chns[1..] == Cleared(QUEUE);
  }

  /** After every run a descriptor has been opened once more than closed if a slot holds it,
      and equally often if none does; no two slots hold the same one. */
  lemma OpenIsInTable(fd0: nat, flags: bv32, acts: seq<Action>)
    ensures var t := Run(Step, Start(fd0, flags), acts);
            && |t.chns| == SLOTS
            && (forall fd :: t.acquired[fd] == t.released[fd] + if fd >= 0 && fd in t.chns then 1 else 0)
            && (forall i, j :: 0 <= i < j < SLOTS && t.chns[i] >= 0 ==> t.chns[i] != t.chns[j])
  {
    StartBalanced(fd0, flags);
    forall t, a | Balanced(t) ensures Balanced(Step(t, a)) {
      StepBalanced(t, a);
    }
    InvariantOfRuns(Step, Balanced, Start(fd0, flags), acts);
    var t := Run(Step, Start(fd0, flags), acts);
    forall fd ensures t.acquired[fd] == t.released[fd] + if fd >= 0 && fd in t.chns then 1 else 0 {
      EntriesCount(t.chns, fd);
      assert t.acquired[fd] == t.released[fd] + Entries(t.chns)[fd];
    }
    forall i, j | 0 <= i < j < SLOTS && t.chns[i] >= 0 ensures t.chns[i] != t.chns[j] {
      SlotsAreDistinct(t.chns, i, j);
    }
  }

  /** vm_socket_close at the end of a run leaves every descriptor closed as often as opened,
      and a closed handle stays as it is, whatever is called on it. */
  lemma CloseIsFinal(fd0: nat, flags: bv32, acts: seq<Action>, more: seq<Action>)
    ensures var t := Run(Step, Start(fd0, flags), acts + [Close]);
            && t.chns == Cleared(SLOTS) && t.acquired == t.released
            && Run(Step, Start(fd0, flags), acts + [Close] + more) == t
  {
    var start := Start(fd0, flags);
    OpenIsInTable(fd0, flags, acts);
    var t := Run(Step, start, acts);
    var closing := Then(Step, start, acts, Close);
    var c := Run(Step, start, closing);
    assert c == CloseAll(t);
    OpenIsInTable(fd0, flags, closing);
    assert forall fd :: c.acquired[fd] == c.released[fd];
    assert c.acquired == c.released;
    RunConcat(Step, start, closing, more);
    var same := (s: Table) => s == c;
    forall s, a | same(s) ensures same(Step(s, a)) {
      ClearedStays(s, a);
    }
    InvariantOfRuns(Step, same, c, more);
  }

  lemma ClearedStays(t: Table, a: Action)
    requires t.chns == Cleared(SLOTS)
    ensures Step(t, a) == t
  {
    EntriesCleared(SLOTS);
    if a.CloseChannel? && 0 <= a.chn < SLOTS {
      assert t.chns[a.chn := -1] == t.chns;
    }
  }

  // ---- accept ----

  /** A positive answer is the lowest free slot of the queue, and nothing else changes. */
  lemma AcceptTakesLowestFreeSlot(t: Table, fd: int)
    requires |t.chns| == SLOTS && Possible(t, fd) && AcceptResult(t, fd) > 0
    ensures var k := AcceptResult(t, fd);
            && k <= QUEUE && t.chns[k] < 0 <= fd
            && (forall i :: 1 <= i < k ==> t.chns[i] >= 0)
            && Step(t, Accept(fd)).chns[k] == fd
            && (forall i :: 0 <= i < SLOTS && i != k ==> Step(t, Accept(fd)).chns[i] == t.chns[i])
  {
  }

  /** When accept fails: the handle is not open, or it is a TCP server whose queue is full or
      to which the system gives no connection. Then the slots in use stay as they are. */
  lemma AcceptFailsIff(t: Table, fd: int)
    requires |t.chns| == SLOTS && Possible(t, fd)
    ensures AcceptResult(t, fd) == -1 <==>
              || t.chns[0] < 0
              || (!Udp(t.flags) && Server(t.flags) && (fd < 0 || forall i :: 1 <= i <= QUEUE ==> t.chns[i] >= 0))
    ensures AcceptResult(t, fd) <= 0 ==>
              && Step(t, Accept(fd)).acquired == t.acquired
              && forall i :: 0 <= i < SLOTS ==> InUse(t, i) == InUse(Step(t, Accept(fd)), i)
                                                && (InUse(t, i) ==> Step(t, Accept(fd)).chns[i] == t.chns[i])
  {
    if t.chns[0] >= 0 && fd >= 0 {
      assert FreeFrom(t.chns, 1) < SLOTS ==> t.chns[FreeFrom(t.chns, 1)] < 0;
    }
  }

  /** It answers 0 exactly for an open socket that does not listen. */
  lemma AcceptAnswersZeroIff(t: Table, fd: int)
    requires |t.chns| == SLOTS && Possible(t, fd)
    ensures AcceptResult(t, fd) == 0 <==> t.chns[0] >= 0 && (Udp(t.flags) || !Server(t.flags))
  {
  }

  // ---- when a channel is open ----

  predicate Transfers(a: Action, chn: int) {
    (a.Read? || a.Write?) && a.chn == chn
  }

  /** A read or write answers what the system does, and keeps the channel exactly if that is at
      least one byte. Otherwise, the end of the connection included, the descriptor is closed
      and the slot is free. On a channel that is not in use it fails and changes nothing. */
  lemma TransferKeepsIff(t: Table, a: Action, chn: int)
    requires |t.chns| == SLOTS && Transfers(a, chn)
    ensures TransferResult(t, chn, a.ret) == if InUse(t, chn) then a.ret else -1
    ensures InUse(Step(t, a), chn) <==> InUse(t, chn) && a.ret >= 1
    ensures !InUse(t, chn) || a.ret >= 1 ==> Step(t, a) == t
    ensures InUse(t, chn) && a.ret <= 0 ==>
              && Step(t, a).released == t.released + multiset{t.chns[chn]} && Step(t, a).acquired == t.acquired
              && forall i :: 0 <= i < SLOTS && i != chn ==> Step(t, a).chns[i] == t.chns[i]
  {
  }

  /** The call gives slot i a connection: the handle listens, the system has one, and i is the
      first slot behind 0 that is free. */
  ghost predicate Connects(t: Table, a: Action, i: int) {
    && a.Accept? && a.fd >= 0 && a.fd !in t.chns
    && InUse(t, 0) && !Udp(t.flags) && Server(t.flags)
    && 1 <= i < |t.chns| && !InUse(t, i) && forall j :: 1 <= j < i ==> InUse(t, j)
  }

  /** The call closes channel i. */
  ghost predicate Closes(t: Table, a: Action, i: int) {
    a.Close? || a == CloseChannel(i) || (Transfers(a, i) && a.ret <= 0)
  }

  ghost predicate IsTable(t: Table) {
    |t.chns| == SLOTS
  }

  lemma AcceptSlot(t: Table, fd: int, i: int)
    requires IsTable(t)
    ensures var u := AcceptStep(t, fd);
            && (InUse(u, i) <==> Connects(t, Accept(fd), i) || InUse(t, i))
            && (InUse(t, i) ==> u.chns[i] == t.chns[i])
            && (Connects(t, Accept(fd), i) ==> u.chns[i] == fd)
  {
    var k := FreeFrom(t.chns, 1);
    assert k < SLOTS ==> !InUse(t, k);
    assert forall j :: 1 <= j < k ==> InUse(t, j);
    assert Connects(t, Accept(fd), i) ==> i == k;
  }

  lemma SlotStep(t: Table, a: Action, i: int)
    requires IsTable(t)
    ensures IsTable(Step(t, a))
    ensures InUse(Step(t, a), i) <==> Connects(t, a, i) || (InUse(t, i) && !Closes(t, a, i))
    ensures InUse(t, i) && InUse(Step(t, a), i) ==> Step(t, a).chns[i] == t.chns[i]
    ensures Connects(t, a, i) ==> Step(t, a).chns[i] == a.fd
  {
    if a.Accept? {
      AcceptSlot(t, a.fd, i);
    }
  }

  /** In every run a slot is in use exactly if it was given a connection, or is the slot of the
      socket itself, and has not been closed since: by a close of the channel or the handle, or
      by a read or write that came to less than one byte. */
  lemma InUseIffNotClosedSince(fd0: nat, flags: bv32, acts: seq<Action>, i: int)
    ensures var start := Start(fd0, flags);
            InUse(Run(Step, start, acts), i) <==>
              || NotSince(Step, start, acts, (t, a) => Connects(t, a, i), (t, a) => Closes(t, a, i))
              || (i == 0 && NoneFrom(Step, start, acts, (t, a) => Closes(t, a, i), 0))
  {
    var holds := (t: Table) => InUse(t, i);
    var sets := (t: Table, a: Action) => Connects(t, a, i);
    var ends := (t: Table, a: Action) => Closes(t, a, i);
    forall t, a | IsTable(t)
      ensures IsTable(Step(t, a)) && (holds(Step(t, a)) <==> sets(t, a) || (holds(t) && !ends(t, a)))
    {
      SlotStep(t, a, i);
    }
    LastWordDecides(Step, IsTable, holds, sets, ends, Start(fd0, flags), acts);
  }

  // ---- a handle without its own socket ----

  /** A failed transfer on channel 0 of a server closes the listening socket, and from then on
      the handle takes no connection, although those it has stay open. */
  lemma NothingAcceptedWithoutListener(t: Table, acts: seq<Action>)
    requires |t.chns| == SLOTS && t.chns[0] < 0
    ensures WithoutListener(t, Run(Step, t, acts))
  {
    var inv := (u: Table) => WithoutListener(t, u);
    forall u, a | inv(u) ensures inv(Step(u, a)) {
      WithoutListenerStep(t, u, a);
    }
    InvariantOfRuns(Step, inv, t, acts);
  }

  /** Nothing has been opened since t and no slot holds anything that it did not hold then. */
  ghost predicate WithoutListener(t: Table, u: Table) {
    && |t.chns| == |u.chns| == SLOTS && u.chns[0] < 0 && u.acquired == t.acquired
    && forall i :: 0 <= i < SLOTS && u.chns[i] >= 0 ==> u.chns[i] == t.chns[i]
  }

  lemma WithoutListenerStep(t: Table, u: Table, a: Action)
    requires WithoutListener(t, u)
    ensures WithoutListener(t, Step(u, a))
  {
  }

  // ---- the code ----

  class Socket {
    const chns: array<int>
    var flags: bv32
    var rSet: set<int>
    var wSet: set<int>
    ghost var acquired: multiset<int>
    ghost var released: multiset<int>

    ghost function Snapshot(): Table
      reads this`flags, this`acquired, this`released, chns
    {
      Table(chns[..], flags, acquired, released)
    }

    ghost predicate Valid()
      reads this`flags, this`acquired, this`released, chns
    {
      chns.Length == SLOTS && Balanced(Snapshot())
    }

    /** vm_socket_init once the system has given it a socket and set that up. */
    constructor (fd: nat, flags: bv32)
      ensures Valid() && fresh(chns) && rSet == wSet == {}
      ensures Snapshot() == Start(fd, flags)
    {
      chns := new int[SLOTS](_ => -1);
      this.flags := flags;
      rSet, wSet := {}, {};
      acquired, released := multiset{fd}, multiset{};
      new;
      chns[0] := fd;
      assert chns[..] == [fd] + Cleared(QUEUE);
      StartBalanced(fd, flags);
    }

    /** close: only what is open may be closed. */
    ghost method SystemClose(fd: int)
      requires acquired[fd] > released[fd]
      modifies this`released
      ensures released == old(released) + multiset{fd}
    {
      released := released + multiset{fd};
    }

    /** vm_socket_close_chn */
    method CloseChannel(chn: nat)
      requires Valid() && chn < SLOTS
      modifies this`released, chns
      ensures Valid() && Snapshot() == CloseStep(old(Snapshot()), chn)
    {
      CloseBalanced(Snapshot(), chn);
      if chns[chn] >= 0 {
        EntriesCount(chns[..], chns[chn]);
        SystemClose(chns[chn]);
      }
      chns[chn] := -1;
    }

    /** vm_socket_close */
    method Close()
      requires Valid()
      modifies this`released, chns
      ensures Valid() && Snapshot() == CloseAll(old(Snapshot()))
    {
      ghost var before := Snapshot();
      ClosedFromEnds(before);
      var i := QUEUE;
      while i >= 0
        invariant -1 <= i <= QUEUE && Valid() && Snapshot() == ClosedFrom(before, i + 1)
      {
        ClosedFromNext(before, i);
        CloseChannel(i);
        i := i - 1;
      }
    }

    /** The loop of vm_socket_accept. */
    method LowestFree() returns (chn: nat)
      requires chns.Length == SLOTS
      ensures chn == FreeFrom(chns[..], 1)
    {
      chn := 1;
      while chn <= QUEUE
        invariant 1 <= chn <= SLOTS && FreeFrom(chns[..], 1) == FreeFrom(chns[..], chn)
      {
        if chns[chn] < 0 {
          break;
        }
        chn := chn + 1;
      }
    }

    /** vm_socket_accept; `fd` is what accept answers. */
    method Accept(fd: int) returns (ret: int)
      requires Valid() && Possible(Snapshot(), fd)
      modifies this`acquired, chns
      ensures Valid() && Snapshot() == AcceptStep(old(Snapshot()), fd)
      ensures ret == AcceptResult(old(Snapshot()), fd)
    {
      if chns[0] < 0 {
        return -1;
      }
      if Udp(flags) {
        return 0;
      }
      if !Server(flags) {
        return 0;
      }
      AcceptBalanced(Snapshot(), fd);
      var chn := LowestFree();
      if chn > QUEUE {
        return -1;
      }
      chns[chn] := fd;
      acquired := acquired + One(fd);
      if chns[chn] < 0 {
        return -1;
      }
      return chn;
    }

    /** vm_socket_read; `retr` is what recv or recvfrom answers. */
    method Read(chn: int, retr: int) returns (ret: int)
      requires Valid()
      modifies this`released, chns
      ensures Valid() && Snapshot() == TransferStep(old(Snapshot()), chn, retr)
      ensures ret == TransferResult(old(Snapshot()), chn, retr)
    {
      if chn < 0 || chn > QUEUE {
        return -1;
      }
      if chns[chn] < 0 {
        return -1;
      }
      if retr < 1 {
        CloseChannel(chn);
      }
      return retr;
    }

    /** vm_socket_write; `retw` is what send or sendto answers. */
    method Write(chn: int, retw: int) returns (ret: int)
      requires Valid()
      modifies this`released, chns
      ensures Valid() && Snapshot() == TransferStep(old(Snapshot()), chn, retw)
      ensures ret == TransferResult(old(Snapshot()), chn, retw)
    {
      if chn < 0 || chn > QUEUE {
        return -1;
      }
      if chns[chn] < 0 {
        return -1;
      }
      if retw < 1 {
        CloseChannel(chn);
      }
      return retw;
    }
  }
}
