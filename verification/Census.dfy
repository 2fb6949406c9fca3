/** How many clients stand at a program point of a given kind. */
module Census {
  function At<Pc>(pcs: map<nat, Pc>, kind: Pc -> bool): set<nat> {
    set c | c in pcs && kind(pcs[c])
  }

  function Count<Pc>(pcs: map<nat, Pc>, kind: Pc -> bool): nat {
    |At(pcs, kind)|
  }

  /** Moving one client changes a count by its arrival and its departure. */
  lemma CountMove<Pc>(pcs: map<nat, Pc>, c: nat, pc: Pc, kind: Pc -> bool)
    requires c in pcs
    ensures Count(pcs[c := pc], kind) ==
            Count(pcs, kind) + (if kind(pc) then 1 else 0) - (if kind(pcs[c]) then 1 else 0)
  {
    var others := At(pcs, kind) - {c};
    assert At(pcs, kind) == if kind(pcs[c]) then others + {c} else others;
    var after := pcs[c := pc];
    assert At(after, kind) == if kind(pc) then others + {c} else others by {
      assert forall d :: d != c ==> (d in At(after, kind) <==> d in At(pcs, kind));
    }
  }

  function AtLeast<Pc>(rank: Pc -> nat, n: nat): Pc -> bool {
    pc => rank(pc) >= n
  }

  function Min(a: nat, b: nat): nat {
    if a < b then a else b
  }

  /** The ranks of all clients added up, ranks above n counting as n. */
  function Total<Pc>(pcs: map<nat, Pc>, rank: Pc -> nat, n: nat): nat {
    if n == 0 then 0 else Count(pcs, AtLeast(rank, n)) + Total(pcs, rank, n - 1)
  }

  lemma {:induction false} TotalMove<Pc>(pcs: map<nat, Pc>, c: nat, pc: Pc, rank: Pc -> nat, n: nat)
    requires c in pcs && rank(pc) <= n && rank(pcs[c]) <= n
    ensures Total(pcs[c := pc], rank, n) == Total(pcs, rank, n) + rank(pc) - rank(pcs[c])
  {
    TotalMoveUpTo(pcs, c, pc, rank, n);
  }

  lemma {:induction false} TotalMoveUpTo<Pc>(pcs: map<nat, Pc>, c: nat, pc: Pc, rank: Pc -> nat, n: nat)
    requires c in pcs
    ensures Total(pcs[c := pc], rank, n) == Total(pcs, rank, n) + Min(rank(pc), n) - Min(rank(pcs[c]), n)
  {
    if n > 0 {
      CountMove(pcs, c, pc, AtLeast(rank, n));
      TotalMoveUpTo(pcs, c, pc, rank, n - 1);
    }
  }

  lemma {:induction false} SubsetSize(a: set<nat>, b: set<nat>)
    requires a <= b
    ensures |a| <= |b|
  {
    assert b == a + (b - a);
  }

  lemma CountWithin<Pc>(pcs: map<nat, Pc>, kind: Pc -> bool)
    ensures Count(pcs, kind) <= |pcs.Keys|
  {
    SubsetSize(At(pcs, kind), pcs.Keys);
  }

  lemma AnotherMember(s: set<nat>, c: nat) returns (d: nat)
    requires |s| > 1
    ensures d in s && d != c
  {
    if s <= {c} {
      SubsetSize(s, {c});
    }
    assert exists d :: d in s && d != c;
    d :| d in s && d != c;
  }

  lemma OnlyMember(s: set<nat>) returns (k: nat)
    requires |s| <= 1
    ensures s <= {k}
  {
    k := 0;
    if c :| c in s {
      k := c;
      forall d | d in s ensures d == c {
        SubsetSize({c, d}, s);
      }
    }
  }
}
