/** vm_socket_select and vm_socket_next over any number of socket handles. */
module ReadySet {
  import opened Channels

  /** VM_SOCKET_READ, VM_SOCKET_WRITE, VM_SOCKET_ACCEPT */
  predicate ReadMask(masks: bv32) {
    masks & 1 != 0
  }

  predicate WriteMask(masks: bv32) {
    masks & 2 != 0
  }

  predicate AcceptMask(masks: bv32) {
    masks & 4 != 0
  }

  datatype Handle = Handle(chns: seq<int>, flags: bv32)

  ghost predicate Tables(hs: seq<Handle>) {
    forall i :: 0 <= i < |hs| ==> |hs[i].chns| == SLOTS
  }

  /** A slot (i, j) is channel j of handle i; slots are ordered lexicographically. */
  predicate SlotIn(hs: seq<Handle>, i: int, j: int) {
    0 <= i < |hs| && 0 <= j < SLOTS
  }

  ghost predicate InSlot(hs: seq<Handle>, i: int, j: int, d: int)
    requires Tables(hs)
  {
    SlotIn(hs, i, j) && hs[i].chns[j] == d && d >= 0
  }

  predicate Listens(h: Handle) {
    !Udp(h.flags) && Server(h.flags)
  }

  // ---- what select asks for ----

  predicate WantsRead(h: Handle, masks: bv32, j: nat)
    requires j < SLOTS == |h.chns|
  {
    && h.chns[0] >= 0 && h.chns[j] >= 0
    && if j == 0 then AcceptMask(masks) || (ReadMask(masks) && !Listens(h)) else ReadMask(masks)
  }

  predicate WantsWrite(h: Handle, masks: bv32, j: nat)
    requires j < SLOTS == |h.chns|
  {
    h.chns[0] >= 0 && h.chns[j] >= 0 && WriteMask(masks) && (j == 0 ==> !Listens(h))
  }

  function With(s: set<int>, d: int, wanted: bool): set<int> {
    if wanted then s + {d} else s
  }

  /** The descriptors wanted for reading and for writing in the slots before (i, j). */
  function Wanted(hs: seq<Handle>, masks: bv32, i: nat, j: nat): (set<int>, set<int>)
    requires Tables(hs) && j <= SLOTS && (i < |hs| || (i == |hs| && j == 0))
    decreases i, j
  {
    if j == 0 then
      if i == 0 then ({}, {}) else Wanted(hs, masks, i - 1, SLOTS)
    else
      var before, d := Wanted(hs, masks, i, j - 1), hs[i].chns[j - 1];
      (With(before.0, d, WantsRead(hs[i], masks, j - 1)), With(before.1, d, WantsWrite(hs[i], masks, j - 1)))
  }

  predicate Before(i: int, j: int, i1: int, j1: int) {
    i < i1 || (i == i1 && j < j1)
  }

  /** The sets hold a descriptor exactly if a slot with it calls for it. */
  lemma {:induction false} WantedIff(hs: seq<Handle>, masks: bv32, i: nat, j: nat, d: int)
    requires Tables(hs) && j <= SLOTS && (i < |hs| || (i == |hs| && j == 0))
    ensures d in Wanted(hs, masks, i, j).0 <==>
              exists i1, j1 :: InSlot(hs, i1, j1, d) && Before(i1, j1, i, j) && WantsRead(hs[i1], masks, j1)
    ensures d in Wanted(hs, masks, i, j).1 <==>
              exists i1, j1 :: InSlot(hs, i1, j1, d) && Before(i1, j1, i, j) && WantsWrite(hs[i1], masks, j1)
    decreases i, j
  {
    if j > 0 {
      WantedIff(hs, masks, i, j - 1, d);
      assert forall i1, j1 :: Before(i1, j1, i, j) <==> Before(i1, j1, i, j - 1) || (i1 == i && j1 == j - 1);
      assert hs[i].chns[j - 1] == d && d >= 0 ==> InSlot(hs, i, j - 1, d);
    } else if i > 0 {
      WantedIff(hs, masks, i - 1, SLOTS, d);
      assert forall i1, j1 :: SlotIn(hs, i1, j1) ==> (Before(i1, j1, i, 0) <==> Before(i1, j1, i - 1, SLOTS));
    }
  }

  /** No slot but (i, j) holds its descriptor. */
  ghost predicate OnlyIn(hs: seq<Handle>, i: nat, j: nat)
    requires Tables(hs) && SlotIn(hs, i, j)
  {
    forall i1, j1 :: InSlot(hs, i1, j1, hs[i].chns[j]) ==> i1 == i && j1 == j
  }

  /** What is asked for on a channel of its own: bit 0 of the masks asks to read all connections
      and the sockets that do not listen, bit 1 to write to the same, and bit 2 asks to read the
      sockets of all handles; of a handle whose socket is closed nothing is asked for. */
  lemma {:induction false} ChannelIsAskedIff(hs: seq<Handle>, masks: bv32, i: nat, j: nat)
    requires Tables(hs) && SlotIn(hs, i, j) && hs[i].chns[j] >= 0 && OnlyIn(hs, i, j)
    ensures var h, wanted := hs[i], Wanted(hs, masks, |hs|, 0);
            var listening := j == 0 && h.flags & 1 == 0 && h.flags & 4 != 0;
            && (h.chns[j] in wanted.0 <==>
                  h.chns[0] >= 0 && ((masks & 1 != 0 && !listening) || (masks & 4 != 0 && j == 0)))
            && (h.chns[j] in wanted.1 <==> h.chns[0] >= 0 && masks & 2 != 0 && !listening)
  {
    WantedIff(hs, masks, |hs|, 0, hs[i].chns[j]);
    assert InSlot(hs, i, j, hs[i].chns[j]) && Before(i, j, |hs|, 0);
  }

  /** A handle whose own socket is closed adds nothing, whatever its other channels hold. */
  lemma {:induction false} ClosedHandleAddsNothing(hs: seq<Handle>, masks: bv32, i: nat, j: nat)
    requires Tables(hs) && i < |hs| && j <= SLOTS && hs[i].chns[0] < 0
    ensures Wanted(hs, masks, i, j) == Wanted(hs, masks, i, 0)
  {
    if j > 0 {
      ClosedHandleAddsNothing(hs, masks, i, j - 1);
    }
  }

  // ---- what next reports ----

  datatype Slot = Slot(idx: nat, chn: nat, fd: int, listens: bool)

  datatype Kind = ToRead | ToWrite | ToAccept

  datatype Report = Report(slot: Slot, kind: Kind)

  function SlotAt(hs: seq<Handle>, i: nat, j: nat): Slot
    requires Tables(hs) && SlotIn(hs, i, j)
  {
    Slot(i, j, hs[i].chns[j], Listens(hs[i]))
  }

  /** The slots from (i, j) on. */
  function Slots(hs: seq<Handle>, i: nat, j: nat): seq<Slot>
    requires Tables(hs) && i <= |hs| && j <= SLOTS
    decreases |hs| - i, SLOTS - j
  {
    if i == |hs| then []
    else if j == SLOTS then Slots(hs, i + 1, 0)
    else [SlotAt(hs, i, j)] + Slots(hs, i, j + 1)
  }

  function AllSlots(hs: seq<Handle>): seq<Slot>
    requires Tables(hs)
  {
    Slots(hs, 0, 0)
  }

  predicate Precedes(s: Slot, t: Slot) {
    Before(s.idx, s.chn, t.idx, t.chn)
  }

  ghost predicate Ordered(slots: seq<Slot>) {
    forall a, b :: 0 <= a < b < |slots| ==> Precedes(slots[a], slots[b])
  }

  lemma {:induction false} SlotsIff(hs: seq<Handle>, i: nat, j: nat, s: Slot)
    requires Tables(hs) && i <= |hs| && j <= SLOTS
    ensures s in Slots(hs, i, j) <==>
              SlotIn(hs, s.idx, s.chn) && s == SlotAt(hs, s.idx, s.chn) && !Before(s.idx, s.chn, i, j)
    decreases |hs| - i, SLOTS - j
  {
    if i < |hs| {
      if j == SLOTS {
        SlotsIff(hs, i + 1, 0, s);
      } else {
        SlotsIff(hs, i, j + 1, s);
      }
    }
  }

  lemma {:induction false} SlotsAreOrdered(hs: seq<Handle>, i: nat, j: nat)
    requires Tables(hs) && i <= |hs| && j <= SLOTS
    ensures Ordered(Slots(hs, i, j))
    decreases |hs| - i, SLOTS - j
  {
    if i < |hs| {
      if j == SLOTS {
        SlotsAreOrdered(hs, i + 1, 0);
      } else {
        var later := Slots(hs, i, j + 1);
        SlotsAreOrdered(hs, i, j + 1);
        forall b | 0 <= b < |later| ensures Precedes(SlotAt(hs, i, j), later[b]) {
          SlotsIff(hs, i, j + 1, later[b]);
        }
      }
    }
  }

  function ReadKind(s: Slot): Kind {
    if s.chn == 0 && s.listens then ToAccept else ToRead
  }

  /** The reports due for one slot. */
  function Here(s: Slot, r: set<int>, w: set<int>): seq<Report> {
    if s.fd < 0 then []
    else (if s.fd in r then [Report(s, ReadKind(s))] else []) + (if s.fd in w then [Report(s, ToWrite)] else [])
  }

  function Ready(slots: seq<Slot>, r: set<int>, w: set<int>): seq<Report> {
    if slots == [] then [] else Here(slots[0], r, w) + Ready(slots[1..], r, w)
  }

  /** A ready triple of handle, channel and direction; channel 0 of a TCP server is ready to
      accept where others are ready to be read. */
  predicate Due(r: set<int>, w: set<int>, p: Report) {
    && p.slot.fd >= 0
    && if p.kind == ToWrite then p.slot.fd in w
       else p.slot.fd in r && (p.kind == ToAccept <==> p.slot.chn == 0 && p.slot.listens)
  }

  predicate Earlier(p: Report, q: Report) {
    Precedes(p.slot, q.slot) || (p.slot == q.slot && p.kind != ToWrite && q.kind == ToWrite)
  }

  /** The reports are the ready triples, ... */
  lemma {:induction false} ReadyIff(slots: seq<Slot>, r: set<int>, w: set<int>, p: Report)
    ensures p in Ready(slots, r, w) <==> p.slot in slots && Due(r, w, p)
  {
    if slots != [] {
      ReadyIff(slots[1..], r, w, p);
      assert p in Here(slots[0], r, w) <==> p.slot == slots[0] && Due(r, w, p);
    }
  }

  /** ... in lexicographic order, read before write, hence each once. */
  lemma {:induction false} ReadyIsSorted(slots: seq<Slot>, r: set<int>, w: set<int>, a: nat, b: nat)
    requires Ordered(slots) && a < b < |Ready(slots, r, w)|
    ensures Earlier(Ready(slots, r, w)[a], Ready(slots, r, w)[b])
  {
    var here, later := Here(slots[0], r, w), Ready(slots[1..], r, w);
    if a >= |here| {
      ReadyIsSorted(slots[1..], r, w, a - |here|, b - |here|);
    } else if b >= |here| {
      var q := later[b - |here|];
      ReadyIff(slots[1..], r, w, q);
      var k :| 0 <= k < |slots[1..]| && slots[1..][k] == q.slot;
      assert Precedes(slots[0], slots[k + 1]);
    }
  }

  // ---- reporting until there is nothing left ----

  /** Clears the bit that a report stands for. */
  function Clear(r: set<int>, w: set<int>, p: Report): (set<int>, set<int>) {
    if p.kind == ToWrite then (r, w - {p.slot.fd}) else (r - {p.slot.fd}, w)
  }

  lemma ClearShrinks(slots: seq<Slot>, r: set<int>, w: set<int>)
    requires Ready(slots, r, w) != []
    ensures var p := Ready(slots, r, w)[0];
            && p.slot in slots && Due(r, w, p)
            && |Clear(r, w, p).0| + |Clear(r, w, p).1| == |r| + |w| - 1
  {
    ReadyIff(slots, r, w, Ready(slots, r, w)[0]);
  }

  /** The reports of successive vm_socket_next calls until one returns 0. */
  function Drain(slots: seq<Slot>, r: set<int>, w: set<int>): seq<Report>
    decreases |r| + |w|
  {
    var ready := Ready(slots, r, w);
    if ready == [] then []
    else
      ClearShrinks(slots, r, w);
      var left := Clear(r, w, ready[0]);
      [ready[0]] + Drain(slots, left.0, left.1)
  }

  /** No ready descriptor is in two slots. */
  ghost predicate ReadyOnce(slots: seq<Slot>, r: set<int>, w: set<int>) {
    forall s, t :: s in slots && t in slots && s.fd == t.fd >= 0 && (s.fd in r || s.fd in w) ==> s == t
  }

  lemma {:induction false} ClearElsewhere(slots: seq<Slot>, r: set<int>, w: set<int>, p: Report)
    requires forall s :: s in slots ==> s.fd != p.slot.fd
    ensures Ready(slots, Clear(r, w, p).0, Clear(r, w, p).1) == Ready(slots, r, w)
  {
    if slots != [] {
      assert slots[0] in slots && forall s :: s in slots[1..] ==> s in slots;
      ClearElsewhere(slots[1..], r, w, p);
    }
  }

  /** The descriptor of a first slot that is ready is in no other slot. */
  lemma {:induction false} NotAgain(slots: seq<Slot>, r: set<int>, w: set<int>)
    requires Ordered(slots) && ReadyOnce(slots, r, w) && slots != [] && Here(slots[0], r, w) != []
    ensures forall s :: s in slots[1..] ==> s.fd != slots[0].fd
  {
    forall s | s in slots[1..] ensures s.fd != slots[0].fd {
      var k :| 0 <= k < |slots[1..]| && slots[1..][k] == s;
      assert Precedes(slots[0], slots[k + 1]);
    }
  }

  lemma {:induction false} ClearHere(s: Slot, r: set<int>, w: set<int>)
    requires Here(s, r, w) != []
    ensures var left := Clear(r, w, Here(s, r, w)[0]); Here(s, left.0, left.1) == Here(s, r, w)[1..]
  {
  }

  lemma {:induction false} TailOnce(slots: seq<Slot>, r: set<int>, w: set<int>)
    requires Ordered(slots) && ReadyOnce(slots, r, w) && slots != []
    ensures Ordered(slots[1..]) && ReadyOnce(slots[1..], r, w)
  {
    assert forall s :: s in slots[1..] ==> s in slots;
  }

  lemma {:induction false} ClearIdle(s: Slot, r: set<int>, w: set<int>, p: Report)
    requires Here(s, r, w) == []
    ensures var left := Clear(r, w, p); Here(s, left.0, left.1) == []
  {
  }

  lemma {:induction false} NextLeavesTheRest(slots: seq<Slot>, r: set<int>, w: set<int>)
    requires Ordered(slots) && ReadyOnce(slots, r, w) && Ready(slots, r, w) != []
    ensures var left := Clear(r, w, Ready(slots, r, w)[0]);
            Ready(slots, left.0, left.1) == Ready(slots, r, w)[1..]
  {
    var here, later := Here(slots[0], r, w), Ready(slots[1..], r, w);
    if here == [] {
      assert Ready(slots, r, w) == later;
      var left := Clear(r, w, later[0]);
      TailOnce(slots, r, w);
      NextLeavesTheRest(slots[1..], r, w);
      ClearIdle(slots[0], r, w, later[0]);
      assert Ready(slots, left.0, left.1) == Ready(slots[1..], left.0, left.1);
    } else {
      assert Ready(slots, r, w)[0] == here[0] && Ready(slots, r, w)[1..] == here[1..] + later;
      NotAgain(slots, r, w);
      ClearElsewhere(slots[1..], r, w, here[0]);
      ClearHere(slots[0], r, w);
    }
  }

  lemma {:induction false} DrainsOnce(slots: seq<Slot>, r: set<int>, w: set<int>)
    requires Ordered(slots) && ReadyOnce(slots, r, w)
    ensures Drain(slots, r, w) == Ready(slots, r, w)
    decreases |r| + |w|
  {
    var ready := Ready(slots, r, w);
    if ready != [] {
      ClearShrinks(slots, r, w);
      NextLeavesTheRest(slots, r, w);
      var left := Clear(r, w, ready[0]);
      DrainsOnce(slots, left.0, left.1);
    }
  }

  lemma {:induction false} DrainStep(slots: seq<Slot>, r: set<int>, w: set<int>) returns (p: Report, rest: seq<Report>)
    requires Ready(slots, r, w) != []
    ensures p == Ready(slots, r, w)[0] && p.slot in slots && Due(r, w, p)
    ensures var left := Clear(r, w, p);
            && rest == Drain(slots, left.0, left.1) && Drain(slots, r, w) == [p] + rest
            && |left.0| + |left.1| == |r| + |w| - 1
  {
    p := Ready(slots, r, w)[0];
    ClearShrinks(slots, r, w);
    rest := Drain(slots, Clear(r, w, p).0, Clear(r, w, p).1);
  }

  lemma {:induction false} DrainedIsDue(slots: seq<Slot>, r: set<int>, w: set<int>, a: nat)
    requires a < |Drain(slots, r, w)|
    ensures Due(r, w, Drain(slots, r, w)[a]) && Drain(slots, r, w)[a].slot in slots
    decreases a
  {
    var p, rest := DrainStep(slots, r, w);
    if a > 0 {
      var left := Clear(r, w, p);
      DrainedIsDue(slots, left.0, left.1, a - 1);
      assert Drain(slots, r, w)[a] == rest[a - 1];
    }
  }

  predicate SameBit(p: Report, q: Report) {
    p.slot.fd == q.slot.fd && (p.kind == ToWrite) == (q.kind == ToWrite)
  }

  ghost predicate BitsDiffer(reports: seq<Report>) {
    forall a, b :: 0 <= a < b < |reports| ==> !SameBit(reports[a], reports[b])
  }

  lemma NewBitInFront(p: Report, rest: seq<Report>)
    requires BitsDiffer(rest) && forall b :: 0 <= b < |rest| ==> !SameBit(p, rest[b])
    ensures BitsDiffer([p] + rest)
  {
  }

  /** However descriptors are shared between slots, a bit is reported at most once. */
  lemma {:induction false} DrainedBitsDiffer(slots: seq<Slot>, r: set<int>, w: set<int>)
    ensures BitsDiffer(Drain(slots, r, w))
    decreases |r| + |w|
  {
    if Ready(slots, r, w) != [] {
      var p, rest := DrainStep(slots, r, w);
      var left := Clear(r, w, p);
      DrainedBitsDiffer(slots, left.0, left.1);
      forall b | 0 <= b < |rest| ensures !SameBit(p, rest[b]) {
        DrainedIsDue(slots, left.0, left.1, b);
      }
      NewBitInFront(p, rest);
    }
  }

  /** Calling vm_socket_next until it returns 0 reports every ready triple exactly if no ready
      descriptor is in two slots; otherwise some slots are passed over. */
  lemma {:induction false} DrainIsReadyIff(slots: seq<Slot>, r: set<int>, w: set<int>)
    requires Ordered(slots)
    ensures Drain(slots, r, w) == Ready(slots, r, w) <==> ReadyOnce(slots, r, w)
  {
    if ReadyOnce(slots, r, w) {
      DrainsOnce(slots, r, w);
    } else if Drain(slots, r, w) == Ready(slots, r, w) {
      var s, t :| s in slots && t in slots && s.fd == t.fd >= 0 && (s.fd in r || s.fd in w) && s != t;
      var p := Report(s, if s.fd in r then ReadKind(s) else ToWrite);
      var q := Report(t, if s.fd in r then ReadKind(t) else ToWrite);
      ReadyIff(slots, r, w, p);
      ReadyIff(slots, r, w, q);
      var a :| 0 <= a < |Drain(slots, r, w)| && Drain(slots, r, w)[a] == p;
      var b :| 0 <= b < |Drain(slots, r, w)| && Drain(slots, r, w)[b] == q;
      DrainedBitsDiffer(slots, r, w);
      assert SameBit(p, q) && a != b;
    }
  }

  /** Every descriptor of a set is in some slot. */
  ghost predicate Covered(slots: seq<Slot>, ds: set<int>) {
    forall d :: d in ds ==> d >= 0 && exists s :: s in slots && s.fd == d
  }

  /** There are as many reports as there were bits, shared descriptors or not. */
  lemma {:induction false} DrainCountsBits(slots: seq<Slot>, r: set<int>, w: set<int>)
    requires Covered(slots, r) && Covered(slots, w)
    ensures |Drain(slots, r, w)| == |r| + |w|
    decreases |r| + |w|
  {
    var ready := Ready(slots, r, w);
    if ready != [] {
      ClearShrinks(slots, r, w);
      var left := Clear(r, w, ready[0]);
      DrainCountsBits(slots, left.0, left.1);
    } else if exists d :: d in r + w {
      var d :| d in r + w;
      var s :| s in slots && s.fd == d;
      ReadyIff(slots, r, w, Report(s, if d in r then ReadKind(s) else ToWrite));
    } else {
      assert forall d :: d in r || d in w ==> d in r + w;
    }
  }

  /** After select, with nothing closed or opened in between: the reports are all ready triples
      in order, as many as select counted. */
  lemma {:induction false} SelectThenDrain(hs: seq<Handle>, masks: bv32, r: set<int>, w: set<int>)
    requires Tables(hs) && r <= Wanted(hs, masks, |hs|, 0).0 && w <= Wanted(hs, masks, |hs|, 0).1
    ensures |Drain(AllSlots(hs), r, w)| == |r| + |w|
    ensures Drain(AllSlots(hs), r, w) == Ready(AllSlots(hs), r, w) <==> ReadyOnce(AllSlots(hs), r, w)
  {
    var slots, wanted := AllSlots(hs), Wanted(hs, masks, |hs|, 0);
    SlotsAreOrdered(hs, 0, 0);
    DrainIsReadyIff(slots, r, w);
    forall d | d in r || d in w ensures d >= 0 && exists s :: s in slots && s.fd == d {
      assert d in wanted.0 || d in wanted.1;
      WantedIff(hs, masks, |hs|, 0, d);
      var i, j :| InSlot(hs, i, j, d);
      SlotsIff(hs, 0, 0, SlotAt(hs, i, j));
    }
    DrainCountsBits(slots, r, w);
  }

  /** No descriptor is in two slots. */
  ghost predicate OneSlotEach(slots: seq<Slot>) {
    forall s, t :: s in slots && t in slots && s.fd == t.fd >= 0 ==> s == t
  }

  /** The mask that asks for a report of this kind. */
  predicate Asked(masks: bv32, kind: Kind) {
    match kind
    case ToRead => ReadMask(masks)
    case ToWrite => WriteMask(masks)
    case ToAccept => AcceptMask(masks)
  }

  /** A report was asked for, or it is READ on channel 0 of a client or datagram socket, which
      the ACCEPT mask alone brings about. */
  lemma {:induction false} ReportsAnswerMasks(hs: seq<Handle>, masks: bv32, r: set<int>, w: set<int>, p: Report)
    requires Tables(hs) && r <= Wanted(hs, masks, |hs|, 0).0 && w <= Wanted(hs, masks, |hs|, 0).1
    requires ReadyOnce(AllSlots(hs), r, w) && p in Drain(AllSlots(hs), r, w)
    ensures SlotIn(hs, p.slot.idx, p.slot.chn) && p.slot == SlotAt(hs, p.slot.idx, p.slot.chn)
    ensures hs[p.slot.idx].chns[0] >= 0
    ensures !Asked(masks, p.kind) ==>
              p.kind == ToRead && p.slot.chn == 0 && AcceptMask(masks) && !Listens(hs[p.slot.idx])
  {
    var slots, d := AllSlots(hs), p.slot.fd;
    SlotsAreOrdered(hs, 0, 0);
    DrainsOnce(slots, r, w);
    ReadyIff(slots, r, w, p);
    SlotsIff(hs, 0, 0, p.slot);
    WantedIff(hs, masks, |hs|, 0, d);
    var i, j :|
      InSlot(hs, i, j, d) && if p.kind == ToWrite then WantsWrite(hs[i], masks, j) else WantsRead(hs[i], masks, j);
    SlotsIff(hs, 0, 0, SlotAt(hs, i, j));
  }

  /** Whatever becomes ready, only what was asked for is reported. */
  ghost predicate OnlyAsked(hs: seq<Handle>, masks: bv32)
    requires Tables(hs)
  {
    var wanted := Wanted(hs, masks, |hs|, 0);
    forall r, w, p :: r <= wanted.0 && w <= wanted.1 && p in Drain(AllSlots(hs), r, w) ==> Asked(masks, p.kind)
  }

  /** The ACCEPT mask without the READ mask is given to an open socket that does not listen. */
  predicate AcceptsOnTalker(hs: seq<Handle>, masks: bv32)
    requires Tables(hs)
  {
    AcceptMask(masks) && !ReadMask(masks) && exists i :: 0 <= i < |hs| && hs[i].chns[0] >= 0 && !Listens(hs[i])
  }

  lemma {:induction false} TalkerIsReported(hs: seq<Handle>, masks: bv32, i: nat)
    requires Tables(hs) && OneSlotEach(AllSlots(hs)) && AcceptMask(masks)
    requires i < |hs| && hs[i].chns[0] >= 0 && !Listens(hs[i])
    ensures var d := hs[i].chns[0];
            && {d} <= Wanted(hs, masks, |hs|, 0).0
            && Report(SlotAt(hs, i, 0), ToRead) in Drain(AllSlots(hs), {d}, {})
  {
    var d, s := hs[i].chns[0], SlotAt(hs, i, 0);
    assert InSlot(hs, i, 0, d) && Before(i, 0, |hs|, 0) && WantsRead(hs[i], masks, 0);
    WantedIff(hs, masks, |hs|, 0, d);
    SlotsIff(hs, 0, 0, s);
    SlotsAreOrdered(hs, 0, 0);
    DrainsOnce(AllSlots(hs), {d}, {});
    ReadyIff(AllSlots(hs), {d}, {}, Report(s, ToRead));
  }

  /** When no descriptor is in two slots: every report was asked for, whatever becomes ready,
      exactly unless ACCEPT without READ is given to an open socket that does not listen. */
  lemma {:induction false} OnlyAskedIff(hs: seq<Handle>, masks: bv32)
    requires Tables(hs) && OneSlotEach(AllSlots(hs))
    ensures OnlyAsked(hs, masks) <==> !AcceptsOnTalker(hs, masks)
  {
    var wanted := Wanted(hs, masks, |hs|, 0);
    if AcceptsOnTalker(hs, masks) {
      var i :| 0 <= i < |hs| && hs[i].chns[0] >= 0 && !Listens(hs[i]);
      TalkerIsReported(hs, masks, i);
      var d := hs[i].chns[0];
      assert {} <= wanted.1 && !Asked(masks, Report(SlotAt(hs, i, 0), ToRead).kind);
    } else {
      forall r, w, p | r <= wanted.0 && w <= wanted.1 && p in Drain(AllSlots(hs), r, w) ensures Asked(masks, p.kind) {
        ReportsAnswerMasks(hs, masks, r, w, p);
      }
    }
  }

  /** Of two slots with one descriptor only the first is reported. */
  lemma SharedDescriptorIsReportedOnce()
    ensures var s, t := Slot(0, 0, 3, false), Slot(1, 0, 3, false);
            && Ready([s, t], {3}, {}) == [Report(s, ToRead), Report(t, ToRead)]
            && Drain([s, t], {3}, {}) == [Report(s, ToRead)]
  {
    var s, t := Slot(0, 0, 3, false), Slot(1, 0, 3, false);
    assert [s, t][1..] == [t] && [t][1..] == [];
    assert Ready([t], {3}, {}) == Here(t, {3}, {}) + [] == [Report(t, ToRead)];
    assert Ready([t], {}, {}) == Here(t, {}, {}) + [] == [];
    assert {3} - {3} == {};
    assert Drain([s, t], {3}, {}) == [Report(s, ToRead)] + Drain([s, t], {}, {});
  }

  // ---- the first report ----

  predicate SlotReady(s: Slot, r: set<int>, w: set<int>) {
    s.fd >= 0 && (s.fd in r || s.fd in w)
  }

  /** The kind of the first report due for a slot that is ready. */
  function FirstKind(s: Slot, r: set<int>): Kind {
    if s.fd in r then ReadKind(s) else ToWrite
  }

  /** No channel of handle i below n is ready. */
  ghost predicate Idle(hs: seq<Handle>, r: set<int>, w: set<int>, i: nat, n: nat)
    requires Tables(hs) && i < |hs| && n <= SLOTS
  {
    forall j :: 0 <= j < n ==> !SlotReady(SlotAt(hs, i, j), r, w)
  }

  ghost predicate AllIdle(hs: seq<Handle>, r: set<int>, w: set<int>, n: nat)
    requires Tables(hs) && n <= |hs|
  {
    forall i :: 0 <= i < n ==> Idle(hs, r, w, i, SLOTS)
  }

  /** Of the slots in order, (idx, chn) is the first one that is ready, or none is; r1 and w1
      are the sets afterwards. */
  ghost predicate FirstFound(hs: seq<Handle>, r: set<int>, w: set<int>,
                             ret: int, idx: int, chn: int, kind: Kind, r1: set<int>, w1: set<int>)
    requires Tables(hs)
  {
    if ret == 0 then r1 == r && w1 == w && AllIdle(hs, r, w, |hs|)
    else
      && ret == 1 && 0 <= idx < |hs| && 0 <= chn < SLOTS && AllIdle(hs, r, w, idx) && Idle(hs, r, w, idx, chn)
      && SlotReady(SlotAt(hs, idx, chn), r, w) && kind == FirstKind(SlotAt(hs, idx, chn), r)
      && (r1, w1) == Clear(r, w, Report(SlotAt(hs, idx, chn), kind))
  }

  /** The first of all reports due, or 0 if there is none. */
  ghost predicate FirstReported(hs: seq<Handle>, r: set<int>, w: set<int>,
                                ret: int, idx: int, chn: int, kind: Kind, r1: set<int>, w1: set<int>)
    requires Tables(hs)
  {
    var ready := Ready(AllSlots(hs), r, w);
    if ready == [] then ret == 0 && r1 == r && w1 == w
    else
      && ret == 1 && idx >= 0 && chn >= 0 && SlotIn(hs, idx, chn)
      && ready[0] == Report(SlotAt(hs, idx, chn), kind) && (r1, w1) == Clear(r, w, ready[0])
  }

  lemma {:induction false} FoundIsReported(
      hs: seq<Handle>, r: set<int>, w: set<int>,
      ret: int, idx: int, chn: int, kind: Kind, r1: set<int>, w1: set<int>)
    requires Tables(hs) && FirstFound(hs, r, w, ret, idx, chn, kind, r1, w1)
    ensures FirstReported(hs, r, w, ret, idx, chn, kind, r1, w1)
  {
    if ret == 0 {
      NothingReady(hs, r, w, 0, 0);
    } else {
      FirstReady(hs, r, w, 0, 0, idx, chn);
    }
  }

  lemma {:induction false} ReportedThenDrained(
      hs: seq<Handle>, r: set<int>, w: set<int>,
      ret: int, idx: int, chn: int, kind: Kind, r1: set<int>, w1: set<int>)
    requires Tables(hs) && FirstReported(hs, r, w, ret, idx, chn, kind, r1, w1)
    ensures ret == 0 ==> Drain(AllSlots(hs), r, w) == []
    ensures ret != 0 ==>
              && SlotIn(hs, idx, chn) && |r1| + |w1| < |r| + |w|
              && Drain(AllSlots(hs), r, w) == [Report(SlotAt(hs, idx, chn), kind)] + Drain(AllSlots(hs), r1, w1)
  {
    if ret != 0 {
      var _, _ := DrainStep(AllSlots(hs), r, w);
    }
  }

  lemma {:induction false} ReadyFront(hs: seq<Handle>, r: set<int>, w: set<int>, i: nat, j: nat)
    requires Tables(hs) && SlotIn(hs, i, j)
    ensures var s, ready := SlotAt(hs, i, j), Ready(Slots(hs, i, j), r, w);
            if SlotReady(s, r, w) then ready != [] && ready[0] == Report(s, FirstKind(s, r))
            else ready == Ready(Slots(hs, i, j + 1), r, w)
  {
    assert Slots(hs, i, j)[1..] == Slots(hs, i, j + 1);
  }

  lemma {:induction false} FirstReady(hs: seq<Handle>, r: set<int>, w: set<int>, i: nat, j: nat, idx: nat, chn: nat)
    requires Tables(hs) && idx < |hs| && chn < SLOTS && j <= SLOTS && !Before(idx, chn, i, j)
    requires AllIdle(hs, r, w, idx) && Idle(hs, r, w, idx, chn) && SlotReady(SlotAt(hs, idx, chn), r, w)
    ensures var s, ready := SlotAt(hs, idx, chn), Ready(Slots(hs, i, j), r, w);
            ready != [] && ready[0] == Report(s, FirstKind(s, r))
    decreases |hs| - i, SLOTS - j
  {
    if j == SLOTS {
      FirstReady(hs, r, w, i + 1, 0, idx, chn);
    } else {
      ReadyFront(hs, r, w, i, j);
      if i != idx || j != chn {
        assert Idle(hs, r, w, i, if i < idx then SLOTS else chn);
        FirstReady(hs, r, w, i, j + 1, idx, chn);
      }
    }
  }

  lemma {:induction false} NothingReady(hs: seq<Handle>, r: set<int>, w: set<int>, i: nat, j: nat)
    requires Tables(hs) && i <= |hs| && j <= SLOTS && AllIdle(hs, r, w, |hs|)
    ensures Ready(Slots(hs, i, j), r, w) == []
    decreases |hs| - i, SLOTS - j
  {
    if i < |hs| {
      if j == SLOTS {
        NothingReady(hs, r, w, i + 1, 0);
      } else {
        assert Idle(hs, r, w, i, SLOTS);
        ReadyFront(hs, r, w, i, j);
        NothingReady(hs, r, w, i, j + 1);
      }
    }
  }

  // ---- the code ----

  /** The tables of the first n handles. */
  ghost function Snapshot(hds: seq<Socket>, n: nat): (hs: seq<Handle>)
    requires n <= |hds|
    reads hds`flags, set h | h in hds :: h.chns
    ensures |hs| == n && forall i :: 0 <= i < n ==> hs[i] == Handle(hds[i].chns[..], hds[i].flags)
  {
    if n == 0 then [] else Snapshot(hds, n - 1) + [Handle(hds[n - 1].chns[..], hds[n - 1].flags)]
  }

  ghost predicate Sockets(hds: seq<Socket>) {
    |hds| > 0 && forall i :: 0 <= i < |hds| ==> hds[i].chns.Length == SLOTS
  }

  function Length(nhd: int): nat {
    if nhd < 0 then 0 else nhd
  }

  /** m is the largest element, or -1 if there is none. */
  ghost predicate IsMaximum(m: int, s: set<int>) {
    (s == {} && m == -1) || (m in s && m >= 0 && forall d :: d in s ==> d <= m)
  }

  /** FD_SET into either set as called for, keeping maxsd up to date. */
  method Mark(hd: Socket, d: int, read: bool, write: bool, maxsd0: int) returns (maxsd: int)
    requires d >= 0 && IsMaximum(maxsd0, hd.rSet + hd.wSet)
    modifies hd`rSet, hd`wSet
    ensures hd.rSet == With(old(hd.rSet), d, read) && hd.wSet == With(old(hd.wSet), d, write)
    ensures IsMaximum(maxsd, hd.rSet + hd.wSet)
  {
    maxsd := maxsd0;
    if read {
      hd.rSet := hd.rSet + {d};
      if d > maxsd {
        maxsd := d;
      }
    }
    if write {
      hd.wSet := hd.wSet + {d};
      if d > maxsd {
        maxsd := d;
      }
    }
  }

  /** The slots of one handle, in the loop of vm_socket_select. */
  method CollectChannels(hds: seq<Socket>, i: nat, masks: bv32, ghost hs: seq<Handle>, maxsd0: int) returns (maxsd: int)
    requires Sockets(hds) && i < |hs| <= |hds| && hs == Snapshot(hds, |hs|) && Tables(hs)
    requires hs[i].chns[0] >= 0
    requires (hds[0].rSet, hds[0].wSet) == Wanted(hs, masks, i, 0)
    requires IsMaximum(maxsd0, hds[0].rSet + hds[0].wSet)
    modifies hds[..1]`rSet, hds[..1]`wSet
    ensures (hds[0].rSet, hds[0].wSet) == Wanted(hs, masks, i + 1, 0)
    ensures IsMaximum(maxsd, hds[0].rSet + hds[0].wSet)
  {
    maxsd := maxsd0;
    var hd, chns := hds[0], hds[i].chns;
    var flags := hds[i].flags;
    assert chns[..] == hs[i].chns && flags == hs[i].flags;
    var talks := Udp(flags) || !Server(flags);
    maxsd := Mark(hd, chns[0], AcceptMask(masks) || (ReadMask(masks) && talks), WriteMask(masks) && talks, maxsd);
    var j := 1;
    assert (hd.rSet, hd.wSet) == Wanted(hs, masks, i, 1);
    while j <= QUEUE
      invariant 1 <= j <= SLOTS
      invariant (hd.rSet, hd.wSet) == Wanted(hs, masks, i, j)
      invariant IsMaximum(maxsd, hd.rSet + hd.wSet)
    {
      if chns[j] >= 0 {
        maxsd := Mark(hd, chns[j], ReadMask(masks), WriteMask(masks), maxsd);
      }
      j := j + 1;
    }
  }

  /** The loop of vm_socket_select: the sets of the first handle get exactly the descriptors
      that the flags and masks call for. */
  method Collect(hds: seq<Socket>, nhd: int, masks: bv32) returns (maxsd: int)
    requires Sockets(hds) && nhd <= |hds|
    modifies hds[..1]`rSet, hds[..1]`wSet
    ensures Tables(Snapshot(hds, Length(nhd)))
    ensures (hds[0].rSet, hds[0].wSet) == Wanted(Snapshot(hds, Length(nhd)), masks, Length(nhd), 0)
    ensures IsMaximum(maxsd, hds[0].rSet + hds[0].wSet)
  {
    ghost var hs := Snapshot(hds, Length(nhd));
    maxsd := -1;
    hds[0].rSet, hds[0].wSet := {}, {};
    var i := 0;
    while i < nhd
      invariant 0 <= i <= Length(nhd)
      invariant (hds[0].rSet, hds[0].wSet) == Wanted(hs, masks, i, 0)
      invariant IsMaximum(maxsd, hds[0].rSet + hds[0].wSet)
    {
      assert hs[i] == Handle(hds[i].chns[..], hds[i].flags);
      if hds[i].chns[0] < 0 {
        ClosedHandleAddsNothing(hs, masks, i, SLOTS);
      } else {
        maxsd := CollectChannels(hds, i, masks, hs, maxsd);
      }
      i := i + 1;
    }
  }

  /** vm_socket_select; `failed` is whether the system call fails. It keeps the ready ones of
      the descriptors asked for. */
  method Select(hds: seq<Socket>, nhd: int, masks: bv32, failed: bool) returns (ret: int)
    requires Sockets(hds) && nhd <= |hds|
    modifies hds[..1]`rSet, hds[..1]`wSet
    ensures Tables(Snapshot(hds, Length(nhd)))
    ensures var wanted := Wanted(Snapshot(hds, Length(nhd)), masks, Length(nhd), 0);
            && hds[0].rSet <= wanted.0 && hds[0].wSet <= wanted.1
            && ret == if failed && wanted != ({}, {}) then -1 else |hds[0].rSet| + |hds[0].wSet|
  {
    var maxsd := Collect(hds, nhd, masks);
    if maxsd < 0 {
      ghost var both := hds[0].rSet + hds[0].wSet;
      assert both == {} && hds[0].rSet <= both && hds[0].wSet <= both;
      assert hds[0].rSet == {} && hds[0].wSet == {};
      return 0;
    }
    if failed {
      return -1;
    }
    var r, w := hds[0].rSet, hds[0].wSet;
    var r1, w1 :| r1 <= r && w1 <= w;
    hds[0].rSet, hds[0].wSet := r1, w1;
    return |hds[0].rSet| + |hds[0].wSet|;
  }

  /** The channels of one handle, in the loop of vm_socket_next: the first one that is ready. */
  method NextChannel(hds: seq<Socket>, i: nat, ghost hs: seq<Handle>) returns (ret: int, chn: int, kind: Kind)
    requires Sockets(hds) && i < |hs| <= |hds| && hs == Snapshot(hds, |hs|) && Tables(hs)
    modifies hds[..1]`rSet, hds[..1]`wSet
    ensures ret == 0 || ret == 1
    ensures var r, w := old(hds[0].rSet), old(hds[0].wSet);
            if ret == 0 then hds[0].rSet == r && hds[0].wSet == w && Idle(hs, r, w, i, SLOTS)
            else
              && 0 <= chn < SLOTS && Idle(hs, r, w, i, chn) && SlotReady(SlotAt(hs, i, chn), r, w)
              && kind == FirstKind(SlotAt(hs, i, chn), r)
              && (hds[0].rSet, hds[0].wSet) == Clear(r, w, Report(SlotAt(hs, i, chn), kind))
  {
    ghost var r, w := hds[0].rSet, hds[0].wSet;
    var chns := hds[i].chns;
    assert hs[i] == Handle(chns[..], hds[i].flags);
    var j := 0;
    while j <= QUEUE
      invariant 0 <= j <= SLOTS && Idle(hs, r, w, i, j)
    {
      var flags := hds[i].flags;
      if chns[j] >= 0 {
        if chns[j] in hds[0].rSet {
          hds[0].rSet := hds[0].rSet - {chns[j]};
          if j > 0 {
            return 1, j, ToRead;
          }
          if Udp(flags) {
            return 1, j, ToRead;
          }
          return 1, j, if Server(flags) then ToAccept else ToRead;
        }
        if chns[j] in hds[0].wSet {
          hds[0].wSet := hds[0].wSet - {chns[j]};
          return 1, j, ToWrite;
        }
      }
      j := j + 1;
    }
    return 0, 0, ToRead;
  }

  /** The loop of vm_socket_next: the first handle with a channel that is ready. */
  method NextHandle(hds: seq<Socket>, nhd: int, ghost hs: seq<Handle>)
    returns (ret: int, idx: int, chn: int, kind: Kind)
    requires Sockets(hds) && |hs| == Length(nhd) <= |hds| && hs == Snapshot(hds, |hs|) && Tables(hs)
    modifies hds[..1]`rSet, hds[..1]`wSet
    ensures FirstFound(hs, old(hds[0].rSet), old(hds[0].wSet), ret, idx, chn, kind, hds[0].rSet, hds[0].wSet)
  {
    ghost var r, w := hds[0].rSet, hds[0].wSet;
    idx := 0;
    while idx < nhd
      invariant 0 <= idx <= |hs| && hds[0].rSet == r && hds[0].wSet == w
      invariant hs == Snapshot(hds, |hs|) && AllIdle(hs, r, w, idx)
    {
      ret, chn, kind := NextChannel(hds, idx, hs);
      if ret != 0 {
        return;
      }
      idx := idx + 1;
    }
    return 0, idx, 0, ToRead;
  }

  /** vm_socket_next, asked for all of index, channel and type: the first report due, and the
      bit it stands for cleared. */
  method Next(hds: seq<Socket>, nhd: int) returns (ret: int, idx: int, chn: int, kind: Kind)
    requires Sockets(hds) && nhd <= |hds|
    modifies hds[..1]`rSet, hds[..1]`wSet
    ensures Tables(Snapshot(hds, Length(nhd)))
    ensures FirstReported(Snapshot(hds, Length(nhd)), old(hds[0].rSet), old(hds[0].wSet),
                          ret, idx, chn, kind, hds[0].rSet, hds[0].wSet)
  {
    ghost var hs, r, w := Snapshot(hds, Length(nhd)), hds[0].rSet, hds[0].wSet;
    ret, idx, chn, kind := NextHandle(hds, nhd, hs);
    FoundIsReported(hs, r, w, ret, idx, chn, kind, hds[0].rSet, hds[0].wSet);
  }

  /** What a caller does after vm_socket_select: vm_socket_next until it returns 0. */
  method DrainAll(hds: seq<Socket>, nhd: int, ghost hs: seq<Handle>) returns (reports: seq<Report>)
    requires Sockets(hds) && |hs| == Length(nhd) <= |hds| && hs == Snapshot(hds, |hs|) && Tables(hs)
    modifies hds[..1]`rSet, hds[..1]`wSet
    ensures reports == Drain(AllSlots(hs), old(hds[0].rSet), old(hds[0].wSet))
    decreases |hds[0].rSet| + |hds[0].wSet|
  {
    ghost var r, w := hds[0].rSet, hds[0].wSet;
    var ret, idx, chn, kind := Next(hds, nhd);
    ReportedThenDrained(hs, r, w, ret, idx, chn, kind, hds[0].rSet, hds[0].wSet);
    reports := [];
    if ret != 0 {
      var hd := hds[idx];
      assert hs[idx] == Handle(hd.chns[..], hd.flags);
      var slot := Slot(idx, chn, hd.chns[chn], !Udp(hd.flags) && Server(hd.flags));
      assert slot == SlotAt(hs, idx, chn);
      var rest := DrainAll(hds, nhd, hs);
      reports := [Report(slot, kind)] + rest;
    }
  }
}
