/** Many socket handles over one system, which hands out a descriptor only while it is not
    open anywhere. */
module ManySockets {
  import opened Runs
  import C = Channels
  import R = ReadySet

  type Tables = seq<C.Table>

  /** A handle is set up around a new descriptor, or something is called on handle i. */
  datatype Move = Open(fd: int, flags: bv32) | On(i: nat, a: C.Action)

  ghost predicate IsOpen(ts: Tables, fd: int) {
    exists i :: 0 <= i < |ts| && fd in ts[i].chns
  }

  ghost function Step(ts: Tables, m: Move): Tables {
    match m
    case Open(fd, flags) => if fd < 0 || IsOpen(ts, fd) then ts else ts + [C.Start(fd, flags)]
    case On(i, a) =>
      if i >= |ts| || (a.Accept? && a.fd >= 0 && IsOpen(ts, a.fd)) then ts
      else ts[i := C.Step(ts[i], a)]
  }

  ghost predicate Holds(ts: Tables, i: int, j: int, fd: int)
    requires forall k :: 0 <= k < |ts| ==> |ts[k].chns| == C.SLOTS
  {
    0 <= i < |ts| && 0 <= j < C.SLOTS && ts[i].chns[j] == fd && fd >= 0
  }

  /** Of all slots of all handles no two hold the same descriptor. */
  ghost predicate Apart(ts: Tables) {
    && (forall k :: 0 <= k < |ts| ==> |ts[k].chns| == C.SLOTS)
    && forall i, j, i1, j1, fd :: Holds(ts, i, j, fd) && Holds(ts, i1, j1, fd) ==> i == i1 && j == j1
  }

  /** What a call can do to the slots: close some, or put the answer of accept into one. */
  ghost predicate SlotsFrom(t: C.Table, a: C.Action, u: C.Table) {
    && |t.chns| == |u.chns| == C.SLOTS
    && forall j :: 0 <= j < C.SLOTS && u.chns[j] >= 0 && u.chns[j] != t.chns[j] ==>
         a.Accept? && u.chns[j] == a.fd && j == C.FreeFrom(t.chns, 1)
  }

  lemma AcceptSlots(t: C.Table, fd: int)
    requires |t.chns| == C.SLOTS
    ensures SlotsFrom(t, C.Accept(fd), C.AcceptStep(t, fd))
  {
  }

  lemma CloseSlots(t: C.Table, a: C.Action, k: nat)
    requires |t.chns| == C.SLOTS && k < C.SLOTS
    ensures SlotsFrom(t, a, C.CloseStep(t, k))
  {
  }

  lemma SlotsOf(t: C.Table, a: C.Action)
    requires |t.chns| == C.SLOTS
    ensures SlotsFrom(t, a, C.Step(t, a))
  {
    match a
    case Accept(fd) => AcceptSlots(t, fd);
    case Read(chn, _) => if C.InUse(t, chn) { CloseSlots(t, a, chn); }
    case Write(chn, _) => if C.InUse(t, chn) { CloseSlots(t, a, chn); }
    case CloseChannel(chn) => if 0 <= chn < C.SLOTS { CloseSlots(t, a, chn); }
    case Close =>
  }

  lemma StepApart(ts: Tables, m: Move)
    requires Apart(ts)
    ensures Apart(Step(ts, m))
  {
    var us := Step(ts, m);
    if m.Open? && us != ts {
      OpenApart(ts, m.fd, m.flags);
    } else if us != ts {
      OnApart(ts, m.i, m.a);
    }
  }

  lemma OpenApart(ts: Tables, fd: nat, flags: bv32)
    requires Apart(ts) && !IsOpen(ts, fd)
    ensures Apart(ts + [C.Start(fd, flags)])
  {
    var us := ts + [C.Start(fd, flags)];
    forall i, j, i1, j1, d | Holds(us, i, j, d) && Holds(us, i1, j1, d) ensures i == i1 && j == j1 {
      assert i < |ts| ==> Holds(ts, i, j, d) && d in ts[i].chns;
      assert i1 < |ts| ==> Holds(ts, i1, j1, d) && d in ts[i1].chns;
    }
  }

  lemma OnApart(ts: Tables, i0: nat, a: C.Action)
    requires Apart(ts) && i0 < |ts| && (a.Accept? && a.fd >= 0 ==> !IsOpen(ts, a.fd))
    ensures Apart(ts[i0 := C.Step(ts[i0], a)])
  {
    var us := ts[i0 := C.Step(ts[i0], a)];
    SlotsOf(ts[i0], a);
    forall i, j, i1, j1, d | Holds(us, i, j, d) && Holds(us, i1, j1, d) ensures i == i1 && j == j1 {
      NewOrOld(ts, i0, a, i, j, d);
      NewOrOld(ts, i0, a, i1, j1, d);
    }
  }

  lemma NewOrOld(ts: Tables, i0: nat, a: C.Action, i: int, j: int, d: int)
    requires Apart(ts) && i0 < |ts| && (a.Accept? && a.fd >= 0 ==> !IsOpen(ts, a.fd))
    requires |C.Step(ts[i0], a).chns| == C.SLOTS && Holds(ts[i0 := C.Step(ts[i0], a)], i, j, d)
    ensures Holds(ts, i, j, d) || (a.Accept? && d == a.fd && i == i0 && j == C.FreeFrom(ts[i0].chns, 1))
    ensures Holds(ts, i, j, d) ==> !(a.Accept? && d == a.fd)
  {
    SlotsOf(ts[i0], a);
    if Holds(ts, i, j, d) {
      assert d in ts[i].chns;
    }
  }

  function Handles(ts: Tables): (hs: seq<R.Handle>)
    ensures |hs| == |ts| && forall i :: 0 <= i < |ts| ==> hs[i] == R.Handle(ts[i].chns, ts[i].flags)
  {
    seq(|ts|, i requires 0 <= i < |ts| => R.Handle(ts[i].chns, ts[i].flags))
  }

  /** After every run of calls on any number of handles no descriptor is in two slots of the
      tables that vm_socket_select and vm_socket_next walk, ... */
  lemma NoDescriptorTwice(moves: seq<Move>)
    ensures var hs := Handles(Run(Step, [], moves)); R.Tables(hs) && R.OneSlotEach(R.AllSlots(hs))
  {
    forall ts, m | Apart(ts) ensures Apart(Step(ts, m)) {
      StepApart(ts, m);
    }
    InvariantOfRuns(Step, Apart, [], moves);
    var ts := Run(Step, [], moves);
    var hs := Handles(ts);
    forall s, t | s in R.AllSlots(hs) && t in R.AllSlots(hs) && s.fd == t.fd >= 0 ensures s == t {
      R.SlotsIff(hs, 0, 0, s);
      R.SlotsIff(hs, 0, 0, t);
      assert Holds(ts, s.idx, s.chn, s.fd) && Holds(ts, t.idx, t.chn, t.fd);
    }
  }

  /** ... so whatever becomes ready, calling vm_socket_next until it returns 0 reports every
      ready triple, in order. */
  lemma EverythingIsReported(moves: seq<Move>, r: set<int>, w: set<int>)
    ensures var hs := Handles(Run(Step, [], moves));
            R.Tables(hs) && R.Drain(R.AllSlots(hs), r, w) == R.Ready(R.AllSlots(hs), r, w)
  {
    NoDescriptorTwice(moves);
    var hs := Handles(Run(Step, [], moves));
    R.SlotsAreOrdered(hs, 0, 0);
    R.DrainsOnce(R.AllSlots(hs), r, w);
  }
}
