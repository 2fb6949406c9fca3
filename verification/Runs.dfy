/** Runs of a protocol: a step function folded over a schedule of actions.
    A disabled action leaves the state as it is, so every sequence of actions is a schedule. */
module Runs {
  function Run<S(!new), A(!new)>(step: (S, A) -> S, start: S, acts: seq<A>): S {
    if acts == [] then start
    else step(Run(step, start, acts[..|acts| - 1]), acts[|acts| - 1])
  }

  ghost predicate Inductive<S(!new), A(!new)>(step: (S, A) -> S, inv: S -> bool) {
    forall s, a :: inv(s) ==> inv(step(s, a))
  }

  /** An inductive predicate that holds at the start holds after every schedule. */
  lemma {:induction false} InvariantOfRuns<S(!new), A(!new)>(
      step: (S, A) -> S, inv: S -> bool, start: S, acts: seq<A>)
    requires inv(start) && Inductive(step, inv)
    ensures inv(Run(step, start, acts))
    decreases |acts|
  {
    if acts != [] {
      InvariantOfRuns(step, inv, start, acts[..|acts| - 1]);
    }
  }

  /** A schedule can be cut anywhere. */
  lemma {:induction false} RunConcat<S(!new), A(!new)>(
      step: (S, A) -> S, start: S, front: seq<A>, back: seq<A>)
    ensures Run(step, start, front + back) == Run(step, Run(step, start, front), back)
    decreases |back|
  {
    if back == [] {
      assert front + back == front;
    } else {
      var n := |back| - 1;
      assert (front + back)[..|front + back| - 1] == front + back[..n];
      RunConcat(step, start, front, back[..n]);
    }
  }

  // ---- what the last action of a kind decides ----

  /** Action i of the schedule is of this kind, in the state that it meets. */
  ghost predicate Happens<S(!new), A(!new)>(step: (S, A) -> S, start: S, acts: seq<A>, kind: (S, A) -> bool, i: nat) {
    i < |acts| && kind(Run(step, start, acts[..i]), acts[i])
  }

  /** No action from i on is of this kind. */
  ghost predicate NoneFrom<S(!new), A(!new)>(step: (S, A) -> S, start: S, acts: seq<A>, kind: (S, A) -> bool, i: nat) {
    forall j: nat :: i <= j ==> !Happens(step, start, acts, kind, j)
  }

  /** Some action is of the first kind, and none behind it of the second. */
  ghost predicate NotSince<S(!new), A(!new)>(
      step: (S, A) -> S, start: S, acts: seq<A>, sets: (S, A) -> bool, ends: (S, A) -> bool)
  {
    exists i: nat :: Happens(step, start, acts, sets, i) && NoneFrom(step, start, acts, ends, i + 1)
  }

  lemma HappensBefore<S(!new), A(!new)>(step: (S, A) -> S, start: S, acts: seq<A>, kind: (S, A) -> bool, i: nat)
    requires acts != []
    ensures var n := |acts| - 1;
            Happens(step, start, acts, kind, i) <==>
              if i == n then kind(Run(step, start, acts[..n]), acts[n]) else Happens(step, start, acts[..n], kind, i)
  {
    var n := |acts| - 1;
    assert i < n ==> acts[..n][..i] == acts[..i];
  }

  /** What some actions bring about and some end, and all others leave as it is, holds at the
      end of a schedule if it was brought about and not ended since, or held from the start. */
  lemma {:induction false} LastWordDecides<S(!new), A(!new)>(
      step: (S, A) -> S, inv: S -> bool, holds: S -> bool, sets: (S, A) -> bool, ends: (S, A) -> bool,
      start: S, acts: seq<A>)
    requires inv(start) && Inductive(step, inv)
    requires forall s, a :: inv(s) ==> (holds(step(s, a)) <==> sets(s, a) || (holds(s) && !ends(s, a)))
    ensures holds(Run(step, start, acts)) <==>
              NotSince(step, start, acts, sets, ends) || (holds(start) && NoneFrom(step, start, acts, ends, 0))
    decreases |acts|
  {
    if acts != [] {
      var n := |acts| - 1;
      var before := acts[..n];
      InvariantOfRuns(step, inv, start, before);
      LastWordDecides(step, inv, holds, sets, ends, start, before);
      NoneBefore(step, start, acts, ends, 0);
      if NotSince(step, start, acts, sets, ends) {
        var i: nat :| Happens(step, start, acts, sets, i) && NoneFrom(step, start, acts, ends, i + 1);
        HappensBefore(step, start, acts, sets, i);
        NoneBefore(step, start, acts, ends, i + 1);
      }
      HappensBefore(step, start, acts, sets, n);
      NoneBefore(step, start, acts, ends, n + 1);
      if NotSince(step, start, before, sets, ends) {
        var i: nat :| Happens(step, start, before, sets, i) && NoneFrom(step, start, before, ends, i + 1);
        HappensBefore(step, start, acts, sets, i);
        NoneBefore(step, start, acts, ends, i + 1);
      }
    }
  }

  lemma NoneBefore<S(!new), A(!new)>(step: (S, A) -> S, start: S, acts: seq<A>, kind: (S, A) -> bool, i: nat)
    requires acts != []
    ensures var n := |acts| - 1;
            NoneFrom(step, start, acts, kind, i) <==>
              && NoneFrom(step, start, acts[..n], kind, i)
              && (i <= n ==> !kind(Run(step, start, acts[..n]), acts[n]))
  {
    var n := |acts| - 1;
    forall j: nat ensures
      Happens(step, start, acts, kind, j) <==>
        if j == n then kind(Run(step, start, acts[..n]), acts[n]) else Happens(step, start, acts[..n], kind, j)
    {
      HappensBefore(step, start, acts, kind, j);
    }
    assert Happens(step, start, acts, kind, n) <==> kind(Run(step, start, acts[..n]), acts[n]);
  }

  /** Extends a schedule by one action. */
  lemma Then<S(!new), A(!new)>(step: (S, A) -> S, start: S, acts: seq<A>, a: A) returns (next: seq<A>)
    ensures next == acts + [a]
    ensures Run(step, start, next) == step(Run(step, start, acts), a)
  {
    next := acts + [a];
    assert next[..|next| - 1] == acts;
  }
}
