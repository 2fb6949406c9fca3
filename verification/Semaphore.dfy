/** vm_semaphore on Linux: a counter under a mutex with a condition variable. As with the
    event, the part of an operation between taking and releasing the mutex is one action. */
module Semaphore {
  import opened Runs
  import opened Census
  import opened Conditions

  datatype Op = Post | Wait | TimedWait | TryWait

  type Pc = Conditions.Pc<Op>

  type Action = Conditions.Action<Op>

  /** Who may do what: consumers wait, producers post, and a client may be both. `spurious`
      says whether the platform lets the condition wake a thread unasked. */
  datatype Roles = Roles(consumers: set<Client>, producers: set<Client>, spurious: bool)

  /** `count` is the field of the C structure. `posts` and `takes` are history: posts that
      returned Ok and waits that returned Ok. */
  datatype State = State(roles: Roles, count: int, pcs: map<Client, Pc>, posts: nat, takes: nat)

  predicate MayCall(roles: Roles, c: Client, op: Op) {
    if op.Post? then c in roles.producers else c in roles.consumers
  }

  function Init(roles: Roles, initCount: int): State {
    State(roles, initCount, map c | c in roles.consumers + roles.producers :: Out(Ok), 0, 0)
  }

  ghost predicate Enabled(s: State, a: Action) {
    a.c in s.pcs &&
    match a
    case Call(c, op) => s.pcs[c].Out? && MayCall(s.roles, c, op)
    case Lock(c, w) =>
      && s.pcs[c].Entered?
      && (s.pcs[c].op.Post? ==> CanSignal(s.pcs, w))
    case WakeUnasked(c) => s.roles.spurious && s.pcs[c].Blocked?
    case Expire(c, why) =>
      && s.pcs[c].Blocked?
      && (why == OperationFailed || (why == Timeout && s.pcs[c].timed))
    case Resume(c) => InFlight(s.pcs, c)
  }

  function Finish(s: State, c: Client, status: Status): State {
    s.(pcs := s.pcs[c := Out(status)])
  }

  /** The successful end of any wait. */
  function Take(s: State, c: Client): State {
    Finish(s, c, Ok).(count := s.count - 1, takes := s.takes + 1)
  }

  function LockStep(s: State, c: Client, w: Client): State
    requires c in s.pcs && s.pcs[c].Entered?
  {
    match s.pcs[c].op
    case Post =>
      var notified := if s.count == 0 then SignalOne(s.pcs, w) else s.pcs;
      s.(count := s.count + 1, pcs := notified[c := Out(Ok)], posts := s.posts + 1)
    case Wait => if s.count == 0 then s.(pcs := s.pcs[c := Blocked(false)]) else Take(s, c)
    case TimedWait => if s.count == 0 then s.(pcs := s.pcs[c := Blocked(true)]) else Take(s, c)
    case TryWait => if s.count == 0 then Finish(s, c, Timeout) else Take(s, c)
  }

  ghost function Step(s: State, a: Action): State {
    if !Enabled(s, a) then s else
    match a
    case Call(c, op) =>
      if 0 <= s.count then s.(pcs := s.pcs[c := Entered(op)]) else Finish(s, c, NotInitialized)
    case Lock(c, w) => LockStep(s, c, w)
    case WakeUnasked(c) => s.(pcs := s.pcs[c := Woken])
    case Expire(c, why) => s.(pcs := s.pcs[c := Expired(why)])
    case Resume(c) => if s.pcs[c].Woken? then Take(s, c) else Finish(s, c, s.pcs[c].why)
  }

  // ---- conservation ----

  /** In every interleaving the count is the initial count plus the posts minus the takes. */
  lemma CountIsConserved(roles: Roles, initCount: int, acts: seq<Action>)
    ensures var s := Run(Step, Init(roles, initCount), acts);
            s.count == initCount + s.posts - s.takes
  {
    var inv := (s: State) => s.count == initCount + s.posts - s.takes;
    assert Inductive(Step, inv);
    InvariantOfRuns(Step, inv, Init(roles, initCount), acts);
  }

  // ---- what everybody keeps to ----

  /** Only consumers are ever inside a wait, only producers inside a post. */
  ghost predicate RolesKept(s: State) {
    && s.pcs.Keys == s.roles.consumers + s.roles.producers
    && forall c :: c in s.pcs ==>
         && (s.pcs[c].Entered? ==> MayCall(s.roles, c, s.pcs[c].op))
         && (s.pcs[c].Blocked? || s.pcs[c].Woken? || s.pcs[c].Expired? ==> c in s.roles.consumers)
  }

  lemma RolesKeptStep(s: State, a: Action)
    requires RolesKept(s)
    ensures RolesKept(Step(s, a)) && Step(s, a).roles == s.roles
  {
  }

  lemma RolesHold(roles: Roles, initCount: int, acts: seq<Action>)
    ensures var s := Run(Step, Init(roles, initCount), acts); RolesKept(s) && s.roles == roles
  {
    var inv := (s: State) => RolesKept(s) && s.roles == roles;
    forall s, a | inv(s) ensures inv(Step(s, a)) {
      RolesKeptStep(s, a);
    }
    InvariantOfRuns(Step, inv, Init(roles, initCount), acts);
  }

  // ---- one consumer ----

  /** Seen from the only consumer there may be. */
  ghost predicate OneConsumerInv(s: State, k: Client) {
    && RolesKept(s) && s.roles.consumers <= {k} && !s.roles.spurious
    && 0 <= s.count
    && (k in s.pcs && s.pcs[k].Blocked? ==> s.count == 0)
    && (k in s.pcs && s.pcs[k].Woken? ==> s.count >= 1)
  }

  lemma OneConsumerStep(s: State, a: Action, k: Client)
    requires OneConsumerInv(s, k)
    ensures OneConsumerInv(Step(s, a), k)
  {
    RolesKeptStep(s, a);
    assert IsBlocked(s.pcs, a.c) ==> a.c == k;
    if Enabled(s, a) && a.Lock? {
      assert IsBlocked(s.pcs, a.w) ==> a.w == k;
      assert s.pcs[a.c].op.Post? && IsBlocked(s.pcs, k) ==> a.w == k;
    }
  }

  /** With one consumer, any number of producers and no unasked wake-ups the count never goes
      below 0, a sleeping consumer means it is 0, and a woken one finds at least 1. */
  lemma OneConsumerIsSafe(k: Client, producers: set<Client>, initCount: nat, acts: seq<Action>)
    ensures var s := Run(Step, Init(Roles({k}, producers, false), initCount), acts);
            && 0 <= s.count
            && (forall c :: c in s.pcs && s.pcs[c].Blocked? ==> c == k && s.count == 0)
            && (forall c :: c in s.pcs && s.pcs[c].Woken? ==> c == k && s.count >= 1)
  {
    var inv := (s: State) => OneConsumerInv(s, k);
    forall s, a | inv(s) ensures inv(Step(s, a)) {
      OneConsumerStep(s, a, k);
    }
    InvariantOfRuns(Step, inv, Init(Roles({k}, producers, false), initCount), acts);
    RolesHold(Roles({k}, producers, false), initCount, acts);
  }

  // ---- exactly when the count can go negative ----

  ghost predicate NeverNegative(roles: Roles, initCount: nat) {
    forall acts :: Run(Step, Init(roles, initCount), acts).count >= 0
  }

  ghost predicate NoPostsInv(s: State) {
    && RolesKept(s) && s.roles.producers == {} && !s.roles.spurious
    && 0 <= s.count && forall c :: c in s.pcs ==> !s.pcs[c].Woken?
  }

  lemma NoPostsIsSafe(roles: Roles, initCount: nat, acts: seq<Action>)
    requires roles.producers == {} && !roles.spurious
    ensures Run(Step, Init(roles, initCount), acts).count >= 0
  {
    forall s, a | NoPostsInv(s) ensures NoPostsInv(Step(s, a)) {
      RolesKeptStep(s, a);
    }
    InvariantOfRuns(Step, NoPostsInv, Init(roles, initCount), acts);
  }

  ghost predicate NoWaitsInv(s: State) {
    RolesKept(s) && s.roles.consumers == {} && 0 <= s.count
  }

  lemma NoWaitsIsSafe(roles: Roles, initCount: nat, acts: seq<Action>)
    requires roles.consumers == {}
    ensures Run(Step, Init(roles, initCount), acts).count >= 0
  {
    forall s, a | NoWaitsInv(s) ensures NoWaitsInv(Step(s, a)) {
      RolesKeptStep(s, a);
    }
    InvariantOfRuns(Step, NoWaitsInv, Init(roles, initCount), acts);
  }

  /** Everybody is outside and the count is n. */
  ghost predicate AllOut(s: State, roles: Roles, n: int) {
    && s.roles == roles && s.count == n
    && s.pcs.Keys == roles.consumers + roles.producers
    && forall c :: c in s.pcs ==> s.pcs[c].Out?
  }

  /** One consumer can take all the initial tokens. */
  lemma {:induction false} Drain(roles: Roles, initCount: nat, n: nat, c: Client) returns (acts: seq<Action>)
    requires c in roles.consumers && n <= initCount
    ensures AllOut(Run(Step, Init(roles, initCount), acts), roles, initCount - n)
  {
    var init := Init(roles, initCount);
    if n == 0 {
      acts := [];
    } else {
      acts := Drain(roles, initCount, n - 1, c);
      acts := Then(Step, init, acts, Call(c, TryWait));
      acts := Then(Step, init, acts, Lock(c, c));
    }
  }

  /** A consumer goes to sleep on an empty semaphore. */
  lemma FallAsleep(s: State, c: Client) returns (acts: seq<Action>)
    requires c in s.pcs && c in s.roles.consumers && s.pcs[c].Out? && s.count == 0
    ensures Run(Step, s, acts) == s.(pcs := s.pcs[c := Blocked(false)])
  {
    acts := Then(Step, s, [], Call(c, Wait));
    acts := Then(Step, s, acts, Lock(c, c));
    assert s.pcs[c := Entered(Wait)][c := Blocked(false)] == s.pcs[c := Blocked(false)];
  }

  /** Two consumers and a producer: the second consumer takes the mutex between the post and
      the consumer it woke, which does not test the count again. */
  lemma NewcomerOvertakes(s: State, c1: Client, c2: Client, p: Client) returns (acts: seq<Action>)
    requires AllOut(s, s.roles, 0)
    requires {c1, c2} <= s.roles.consumers && c1 != c2 && p in s.roles.producers && p != c1
    ensures AllOut(Run(Step, s, acts), s.roles, -1)
  {
    var sleep := FallAsleep(s, c1);
    var s1 := s.(pcs := s.pcs[c1 := Blocked(false)]);
    acts := [];
    acts := Then(Step, s1, acts, Call(p, Post));
    acts := Then(Step, s1, acts, Lock(p, c1));
    acts := Then(Step, s1, acts, Call(c2, Wait));
    acts := Then(Step, s1, acts, Lock(c2, c2));
    acts := Then(Step, s1, acts, Resume(c1));
    RunConcat(Step, s, sleep, acts);
    acts := sleep + acts;
  }

  lemma WokenUnasked(s: State, c: Client) returns (acts: seq<Action>)
    requires AllOut(s, s.roles, 0) && c in s.roles.consumers && s.roles.spurious
    ensures AllOut(Run(Step, s, acts), s.roles, -1)
  {
    var sleep := FallAsleep(s, c);
    var s1 := s.(pcs := s.pcs[c := Blocked(false)]);
    acts := [];
    acts := Then(Step, s1, acts, WakeUnasked(c));
    acts := Then(Step, s1, acts, Resume(c));
    RunConcat(Step, s, sleep, acts);
    acts := sleep + acts;
  }

  /** Who can drive the count below 0: any consumer at all when the platform wakes threads
      unasked; otherwise two consumers together with a producer. */
  ghost predicate CanUndershoot(roles: Roles) {
    && roles.consumers != {}
    && (roles.spurious || (|roles.consumers| > 1 && roles.producers != {}))
  }

  lemma Undershoot(roles: Roles, initCount: nat) returns (acts: seq<Action>)
    requires CanUndershoot(roles)
    ensures AllOut(Run(Step, Init(roles, initCount), acts), roles, -1)
  {
    var c :| c in roles.consumers;
    var front := Drain(roles, initCount, initCount, c);
    var s := Run(Step, Init(roles, initCount), front);
    var back;
    if roles.spurious {
      back := WokenUnasked(s, c);
    } else {
      var p :| p in roles.producers;
      var c1 := AnotherMember(roles.consumers, p);
      var c2 := AnotherMember(roles.consumers, c1);
      back := NewcomerOvertakes(s, c1, c2, p);
    }
    acts := front + back;
    RunConcat(Step, Init(roles, initCount), front, back);
  }

  /** The count stays non-negative in every interleaving exactly for the roles that cannot
      undershoot, whatever the initial count. */
  lemma NeverNegativeIff(roles: Roles, initCount: nat)
    ensures NeverNegative(roles, initCount) <==> !CanUndershoot(roles)
  {
    if CanUndershoot(roles) {
      var acts := Undershoot(roles, initCount);
      assert Run(Step, Init(roles, initCount), acts).count < 0;
    } else {
      forall acts ensures Run(Step, Init(roles, initCount), acts).count >= 0 {
        SafeRoles(roles, initCount, acts);
      }
    }
  }

  lemma SafeRoles(roles: Roles, initCount: nat, acts: seq<Action>)
    requires !CanUndershoot(roles)
    ensures Run(Step, Init(roles, initCount), acts).count >= 0
  {
    if roles.consumers == {} {
      NoWaitsIsSafe(roles, initCount, acts);
    } else if roles.producers == {} {
      NoPostsIsSafe(roles, initCount, acts);
    } else {
      var k := OnlyMember(roles.consumers);
      assert roles == Roles({k}, roles.producers, false);
      OneConsumerIsSafe(k, roles.producers, initCount, acts);
    }
  }

  ghost predicate Dead(s: State, n: int, posts: nat, takes: nat) {
    s.count == n && n < 0 && s.posts == posts && s.takes == takes && forall c :: c in s.pcs ==> s.pcs[c].Out?
  }

  /** A count below 0 reads as "not initialised" to the test every operation begins with, so
      once it is reached with everybody outside, no post and no wait ever succeeds again. */
  lemma NegativeCountIsFinal(s: State, more: seq<Action>)
    requires s.count < 0 && forall c :: c in s.pcs ==> s.pcs[c].Out?
    ensures var t := Run(Step, s, more);
            t.count == s.count && t.posts == s.posts && t.takes == s.takes
  {
    var inv := (t: State) => Dead(t, s.count, s.posts, s.takes);
    assert Inductive(Step, inv);
    InvariantOfRuns(Step, inv, s, more);
  }

  /** Two consumers and a producer can therefore kill a semaphore for good. */
  lemma SemaphoreCanDie(roles: Roles, initCount: nat) returns (acts: seq<Action>)
    requires CanUndershoot(roles)
    ensures forall more :: var s := Run(Step, Init(roles, initCount), acts);
              var t := Run(Step, Init(roles, initCount), acts + more);
              t.count == -1 && t.posts == s.posts && t.takes == s.takes
  {
    acts := Undershoot(roles, initCount);
    forall more ensures var s := Run(Step, Init(roles, initCount), acts);
                        var t := Run(Step, Init(roles, initCount), acts + more);
                        t.count == -1 && t.posts == s.posts && t.takes == s.takes
    {
      RunConcat(Step, Init(roles, initCount), acts, more);
      NegativeCountIsFinal(Run(Step, Init(roles, initCount), acts), more);
    }
  }

  // ---- how far the count can fall ----

  /** On its way to a decrement, or possibly so. */
  predicate Committed(pc: Pc) {
    (pc.Entered? && !pc.op.Post?) || pc.Blocked? || pc.Woken?
  }

  /** A call begun after the count has fallen below 0 fails, so the rest of the fall is left
      to those who were inside by then. */
  ghost predicate FallInv(s: State) {
    && RolesKept(s)
    && (s.count < 0 ==> s.count >= Count(s.pcs, Committed) - |s.roles.consumers|)
  }

  lemma CommittedAreConsumers(s: State)
    requires RolesKept(s)
    ensures Count(s.pcs, Committed) <= |s.roles.consumers|
    ensures forall c :: c in s.roles.consumers && !Committed(s.pcs[c]) ==>
              Count(s.pcs, Committed) < |s.roles.consumers|
  {
    var inside := At(s.pcs, Committed);
    SubsetSize(inside, s.roles.consumers);
    forall c | c in s.roles.consumers && !Committed(s.pcs[c]) ensures |inside| < |s.roles.consumers| {
      SubsetSize(inside + {c}, s.roles.consumers);
    }
  }

  lemma FallStep(s: State, a: Action)
    requires FallInv(s)
    ensures FallInv(Step(s, a))
  {
    RolesKeptStep(s, a);
    if Enabled(s, a) && s.count <= 0 {
      var t := Step(s, a);
      CommittedAreConsumers(t);
      CountMove(s.pcs, a.c, t.pcs[a.c], Committed);
    }
  }

  /** The count never falls further below 0 than there are consumers. */
  lemma CountFallsAtMost(roles: Roles, initCount: nat, acts: seq<Action>)
    ensures Run(Step, Init(roles, initCount), acts).count >= -|roles.consumers|
  {
    forall s, a | FallInv(s) ensures FallInv(Step(s, a)) {
      FallStep(s, a);
    }
    InvariantOfRuns(Step, FallInv, Init(roles, initCount), acts);
    RolesHold(roles, initCount, acts);
  }

  /** k has been woken and the count is 0; the clients of `inside` have found it non-negative
      and wait for the mutex. */
  ghost predicate LinedUp(s: State, roles: Roles, k: Client, inside: set<Client>) {
    && s.roles == roles && s.count == 0 && k in roles.consumers
    && s.pcs.Keys == roles.consumers + roles.producers
    && forall c :: c in s.pcs ==>
         if c == k then s.pcs[c].Woken? else if c in inside then s.pcs[c] == Entered(Wait) else s.pcs[c].Out?
  }

  lemma {:induction false} LineUp(s: State, roles: Roles, k: Client, inside: set<Client>) returns (acts: seq<Action>)
    requires LinedUp(s, roles, k, {}) && inside <= roles.consumers - {k}
    ensures LinedUp(Run(Step, s, acts), roles, k, inside)
    decreases |inside|
  {
    if c :| c in inside {
      acts := LineUp(s, roles, k, inside - {c});
      acts := Then(Step, s, acts, Call(c, Wait));
    } else {
      acts := [];
    }
  }

  /** The count is below 0, and the clients of `inside` will not test it again. */
  ghost predicate Falling(s: State, roles: Roles, inside: set<Client>, depth: nat) {
    && s.roles == roles && s.count + depth == 0 && depth > 0
    && s.pcs.Keys == roles.consumers + roles.producers
    && forall c :: c in s.pcs ==> if c in inside then s.pcs[c] == Entered(Wait) else s.pcs[c].Out?
  }

  lemma {:induction false} FallDown(s: State, roles: Roles, inside: set<Client>, depth: nat)
    returns (acts: seq<Action>)
    requires Falling(s, roles, inside, depth) && inside <= roles.consumers
    ensures Falling(Run(Step, s, acts), roles, {}, depth + |inside|)
    decreases |inside|
  {
    if c :| c in inside {
      assert s.pcs[c] == Entered(Wait);
      var t := Step(s, Lock(c, c));
      assert Falling(t, roles, inside - {c}, depth + 1);
      var rest := FallDown(t, roles, inside - {c}, depth + 1);
      acts := [Lock(c, c)] + rest;
      assert Run(Step, s, [Lock(c, c)]) == t;
      RunConcat(Step, s, [Lock(c, c)], rest);
    } else {
      acts := [];
    }
  }

  /** A consumer is woken, and whatever it was woken for is gone. */
  lemma WokenForNothing(roles: Roles, initCount: nat) returns (acts: seq<Action>, k: Client)
    requires CanUndershoot(roles)
    ensures LinedUp(Run(Step, Init(roles, initCount), acts), roles, k, {})
  {
    var init := Init(roles, initCount);
    var c :| c in roles.consumers;
    var front := Drain(roles, initCount, initCount, c);
    var s := Run(Step, init, front);
    var back;
    if roles.spurious {
      k := c;
      back := FallAsleep(s, k);
      back := Then(Step, s, back, WakeUnasked(k));
    } else {
      var p :| p in roles.producers;
      k := AnotherMember(roles.consumers, p);
      var thief := AnotherMember(roles.consumers, k);
      back := TokenStolen(s, k, thief, p);
    }
    acts := front + back;
    RunConcat(Step, init, front, back);
  }

  lemma TokenStolen(s: State, k: Client, thief: Client, p: Client) returns (acts: seq<Action>)
    requires AllOut(s, s.roles, 0)
    requires {k, thief} <= s.roles.consumers && k != thief && p in s.roles.producers && p != k
    ensures LinedUp(Run(Step, s, acts), s.roles, k, {})
  {
    var sleep := FallAsleep(s, k);
    var s1 := s.(pcs := s.pcs[k := Blocked(false)]);
    acts := Then(Step, s1, [], Call(p, Post));
    acts := Then(Step, s1, acts, Lock(p, k));
    acts := Then(Step, s1, acts, Call(thief, Wait));
    acts := Then(Step, s1, acts, Lock(thief, thief));
    RunConcat(Step, s, sleep, acts);
    acts := sleep + acts;
  }

  /** Whoever can make the count negative at all can make it fall that far: everybody gets past
      the test while the count is 0, and then nobody stops. */
  lemma CountFallsThatFar(roles: Roles, initCount: nat) returns (acts: seq<Action>)
    requires CanUndershoot(roles)
    ensures Run(Step, Init(roles, initCount), acts).count == -|roles.consumers|
  {
    var init := Init(roles, initCount);
    var front, k := WokenForNothing(roles, initCount);
    var s := Run(Step, init, front);
    var others := roles.consumers - {k};
    var middle := LineUp(s, roles, k, others);
    middle := Then(Step, s, middle, Resume(k));
    var t := Run(Step, s, middle);
    assert Falling(t, roles, others, 1);
    var back := FallDown(t, roles, others, 1);
    RunConcat(Step, s, middle, back);
    RunConcat(Step, init, front, middle + back);
    acts := front + (middle + back);
  }

  // ---- exactly when a wake-up can be lost ----

  /** Tokens are there, somebody sleeps, and nobody is on the way. */
  ghost predicate WakeUpLost(s: State) {
    && s.count > 0
    && (exists c :: c in s.pcs && s.pcs[c].Blocked?)
    && (forall c :: c in s.pcs ==> !s.pcs[c].Woken?)
  }

  ghost predicate NeverLosesWakeUp(roles: Roles, initCount: nat) {
    forall acts :: !WakeUpLost(Run(Step, Init(roles, initCount), acts))
  }

  /** No producer ever posts in front of two other consumers. */
  ghost predicate AtMostOneAsleep(roles: Roles) {
    forall p :: p in roles.producers ==> |roles.consumers - {p}| <= 1
  }

  ghost predicate SleepersSeeNothing(s: State) {
    && RolesKept(s) && AtMostOneAsleep(s.roles)
    && forall c :: IsBlocked(s.pcs, c) ==> s.count <= 0
  }

  lemma SleepersPost(s: State, p: Client, w: Client)
    requires SleepersSeeNothing(s) && Enabled(s, Lock(p, w)) && s.pcs[p] == Entered(Post)
    ensures forall c :: IsBlocked(LockStep(s, p, w).pcs, c) ==> s.count + 1 <= 0
  {
    forall c | IsBlocked(LockStep(s, p, w).pcs, c) ensures s.count + 1 <= 0 {
      assert IsBlocked(s.pcs, c);
      if s.count == 0 {
        OneSleeper(s, p, w, c);
        assert false;
      }
    }
  }

  lemma OneSleeper(s: State, p: Client, w: Client, c: Client)
    requires SleepersSeeNothing(s) && p in s.roles.producers && !IsBlocked(s.pcs, p)
    requires IsBlocked(s.pcs, w) && IsBlocked(s.pcs, c)
    ensures c == w
  {
    assert {c, w} <= s.roles.consumers - {p};
    SubsetSize({c, w}, s.roles.consumers - {p});
  }

  lemma SleepersOther(s: State, a: Action)
    requires Enabled(s, a) && !(a.Lock? && s.pcs[a.c].op.Post?)
    ensures Step(s, a).count <= s.count
    ensures forall c :: IsBlocked(Step(s, a).pcs, c) ==> IsBlocked(s.pcs, c) || s.count == 0
  {
  }

  lemma SleepersStep(s: State, a: Action)
    requires SleepersSeeNothing(s)
    ensures SleepersSeeNothing(Step(s, a))
  {
    RolesKeptStep(s, a);
    if Enabled(s, a) && a.Lock? && s.pcs[a.c].op.Post? {
      SleepersPost(s, a.c, a.w);
    } else if Enabled(s, a) {
      SleepersOther(s, a);
    }
  }

  lemma OneAsleepLosesNothing(roles: Roles, initCount: nat, acts: seq<Action>)
    requires AtMostOneAsleep(roles)
    ensures !WakeUpLost(Run(Step, Init(roles, initCount), acts))
  {
    forall s, a | SleepersSeeNothing(s) ensures SleepersSeeNothing(Step(s, a)) {
      SleepersStep(s, a);
    }
    InvariantOfRuns(Step, SleepersSeeNothing, Init(roles, initCount), acts);
    NotLost(Run(Step, Init(roles, initCount), acts));
  }

  lemma TwoAsleepLoseOne(roles: Roles, initCount: nat, p: Client) returns (acts: seq<Action>)
    requires p in roles.producers && |roles.consumers - {p}| > 1
    ensures WakeUpLost(Run(Step, Init(roles, initCount), acts))
  {
    var c1 := AnotherMember(roles.consumers - {p}, p);
    var c2 := AnotherMember(roles.consumers - {p}, c1);
    var front := Drain(roles, initCount, initCount, c1);
    var back := SecondPostWakesNobody(Run(Step, Init(roles, initCount), front), c1, c2, p);
    RunConcat(Step, Init(roles, initCount), front, back);
    acts := front + back;
  }

  /** A post wakes somebody only if the count was 0. That loses no wake-up, in any
      interleaving and even with unasked wake-ups, exactly if every producer has at most one
      consumer besides itself. */
  lemma NoLostWakeUpIff(roles: Roles, initCount: nat)
    ensures NeverLosesWakeUp(roles, initCount) <==> AtMostOneAsleep(roles)
  {
    if AtMostOneAsleep(roles) {
      forall acts ensures !WakeUpLost(Run(Step, Init(roles, initCount), acts)) {
        OneAsleepLosesNothing(roles, initCount, acts);
      }
    } else {
      var p :| p in roles.producers && |roles.consumers - {p}| > 1;
      var acts := TwoAsleepLoseOne(roles, initCount, p);
      assert WakeUpLost(Run(Step, Init(roles, initCount), acts));
    }
  }

  lemma NotLost(s: State)
    requires SleepersSeeNothing(s)
    ensures !WakeUpLost(s)
  {
    if c :| c in s.pcs && s.pcs[c].Blocked? {
      assert IsBlocked(s.pcs, c);
    }
  }

  lemma SecondPostWakesNobody(s: State, c1: Client, c2: Client, p: Client) returns (acts: seq<Action>)
    requires AllOut(s, s.roles, 0)
    requires {c1, c2} <= s.roles.consumers && p in s.roles.producers && c1 != c2 && p != c1 && p != c2
    ensures WakeUpLost(Run(Step, s, acts))
  {
    var sleep1 := FallAsleep(s, c1);
    var s1 := s.(pcs := s.pcs[c1 := Blocked(false)]);
    var sleep2 := FallAsleep(s1, c2);
    var s2 := s1.(pcs := s1.pcs[c2 := Blocked(false)]);
    RunConcat(Step, s, sleep1, sleep2);
    var post := PostTwice(s2, c1, c2, p);
    RunConcat(Step, s, sleep1 + sleep2, post);
    acts := sleep1 + sleep2 + post;
  }

  lemma PostTwice(s: State, c1: Client, c2: Client, p: Client) returns (acts: seq<Action>)
    requires {c1, c2, p} <= s.pcs.Keys && c1 != c2 && s.count == 0 && p in s.roles.producers
    requires s.pcs[c1].Blocked? && s.pcs[c2].Blocked?
    requires forall c :: c in s.pcs && c != c1 && c != c2 ==> s.pcs[c].Out?
    requires p != c1 && p != c2
    ensures WakeUpLost(Run(Step, s, acts))
  {
    acts := [];
    acts := Then(Step, s, acts, Call(p, Post));
    acts := Then(Step, s, acts, Lock(p, c1));
    acts := Then(Step, s, acts, Call(p, Post));
    acts := Then(Step, s, acts, Lock(p, c2));
    acts := Then(Step, s, acts, Resume(c1));
    assert Run(Step, s, acts).pcs[c2].Blocked?;
  }

  // ---- what each call does ----

  /** A part of some operation is about to be carried out under the mutex. */
  ghost predicate Takes(s: State, a: Action, op: Op) {
    a.Lock? && Enabled(s, a) && s.pcs[a.c].op == op
  }

  predicate InWait(pc: Pc) {
    (pc.Entered? && !pc.op.Post?) || pc.Blocked? || pc.Woken? || pc.Expired?
  }

  /** a ends a wait of its client with this status. */
  ghost predicate Returns(s: State, a: Action, status: Status) {
    a.c in s.pcs && InWait(s.pcs[a.c]) && Step(s, a).pcs[a.c] == Out(status)
  }

  /** A post that finds the count at 0. */
  ghost predicate Notifies(s: State, a: Action) {
    Takes(s, a, Post) && s.count == 0
  }

  ghost predicate Wakes(s: State, a: Action, c: Client) {
    Notifies(s, a) && IsBlocked(s.pcs, c) && !IsBlocked(Step(s, a).pcs, c)
  }

  ghost predicate Expires(s: State, a: Action, c: Client, why: Status) {
    a == Expire(c, why) && Enabled(s, a)
  }

  ghost predicate Resumes(s: State, a: Action, c: Client) {
    a == Resume(c) && Enabled(s, a)
  }

  lemma ExpiredStep(s: State, a: Action, c: Client, why: Status)
    ensures StandsAt(Step(s, a).pcs, c, Expired(why)) <==>
              Expires(s, a, c, why) || (StandsAt(s.pcs, c, Expired(why)) && !Resumes(s, a, c))
  {
  }

  lemma WokenStep(s: State, a: Action, c: Client)
    requires !s.roles.spurious
    ensures !Step(s, a).roles.spurious
    ensures StandsAt(Step(s, a).pcs, c, Woken) <==> Wakes(s, a, c) || (StandsAt(s.pcs, c, Woken) && !Resumes(s, a, c))
  {
  }

  lemma ExpiredSince(start: State, acts: seq<Action>, c: Client, why: Status)
    requires EverybodyOut(start.pcs)
    ensures StandsAt(Run(Step, start, acts).pcs, c, Expired(why)) <==>
              NotSince(Step, start, acts, (s, a) => Expires(s, a, c, why), (s, a) => Resumes(s, a, c))
  {
    var holds := (s: State) => StandsAt(s.pcs, c, Expired(why));
    var sets := (s: State, a: Action) => Expires(s, a, c, why);
    var ends := (s: State, a: Action) => Resumes(s, a, c);
    forall s, a ensures holds(Step(s, a)) <==> sets(s, a) || (holds(s) && !ends(s, a)) {
      ExpiredStep(s, a, c, why);
    }
    LastWordDecides(Step, (s: State) => true, holds, sets, ends, start, acts);
  }

  lemma WokenSince(start: State, acts: seq<Action>, c: Client)
    requires EverybodyOut(start.pcs) && !start.roles.spurious
    ensures StandsAt(Run(Step, start, acts).pcs, c, Woken) <==>
              NotSince(Step, start, acts, (s, a) => Wakes(s, a, c), (s, a) => Resumes(s, a, c))
  {
    var inv := (s: State) => !s.roles.spurious;
    var holds := (s: State) => StandsAt(s.pcs, c, Woken);
    var sets := (s: State, a: Action) => Wakes(s, a, c);
    var ends := (s: State, a: Action) => Resumes(s, a, c);
    forall s, a | inv(s)
      ensures inv(Step(s, a)) && (holds(Step(s, a)) <==> sets(s, a) || (holds(s) && !ends(s, a)))
    {
      WokenStep(s, a, c);
    }
    LastWordDecides(Step, inv, holds, sets, ends, start, acts);
  }

  /** Any of the three kinds of wait. */
  ghost predicate TakesWait(s: State, a: Action) {
    Takes(s, a, Wait) || Takes(s, a, TimedWait) || Takes(s, a, TryWait)
  }

  /** Without unasked wake-ups a wait of any kind returns Ok exactly if it found the count other
      than 0, or a post has taken it off the condition and this is the first time since that it
      gets the mutex. */
  lemma ReturnsOkIff(roles: Roles, initCount: int, acts: seq<Action>, a: Action)
    requires !roles.spurious
    ensures var init := Init(roles, initCount);
            var s := Run(Step, init, acts);
            Returns(s, a, Ok) <==>
              || (TakesWait(s, a) && s.count != 0)
              || (a == Resume(a.c)
                  && NotSince(Step, init, acts, (s, b) => Wakes(s, b, a.c), (s, b) => Resumes(s, b, a.c)))
  {
    var init := Init(roles, initCount);
    WokenSince(init, acts, a.c);
    ExpiredSince(init, acts, a.c, Ok);
    ReturnsOkNow(Run(Step, init, acts), a);
  }

  lemma ReturnsOkNow(s: State, a: Action)
    requires !StandsAt(s.pcs, a.c, Expired(Ok))
    ensures Returns(s, a, Ok) <==>
              (TakesWait(s, a) && s.count != 0) || (a == Resume(a.c) && StandsAt(s.pcs, a.c, Woken))
  {
  }

  /** It returns anything else exactly if it was a try_wait that found the count at 0, which is a
      timeout, or if just that ended its sleep on the condition and this is the first time since
      that it gets the mutex. */
  lemma FailsIff(roles: Roles, initCount: int, acts: seq<Action>, a: Action, why: Status)
    requires why != Ok
    ensures var init := Init(roles, initCount);
            var s := Run(Step, init, acts);
            Returns(s, a, why) <==>
              || (Takes(s, a, TryWait) && s.count == 0 && why == Timeout)
              || (a == Resume(a.c)
                  && NotSince(Step, init, acts, (s, b) => Expires(s, b, a.c, why), (s, b) => Resumes(s, b, a.c)))
  {
    var init := Init(roles, initCount);
    ExpiredSince(init, acts, a.c, why);
    FailsNow(Run(Step, init, acts), a, why);
  }

  lemma FailsNow(s: State, a: Action, why: Status)
    requires why != Ok
    ensures Returns(s, a, why) <==>
              || (Takes(s, a, TryWait) && s.count == 0 && why == Timeout)
              || (a == Resume(a.c) && StandsAt(s.pcs, a.c, Expired(why)))
  {
  }

  /** A call is refused exactly if the count is below 0, and a post that is not returns Ok. */
  lemma RefusedIff(s: State, a: Action)
    ensures a.Call? && Enabled(s, a) ==>
              && (Step(s, a).pcs[a.c] == Out(NotInitialized) <==> s.count < 0)
              && (s.count >= 0 ==> Step(s, a).pcs[a.c] == Entered(a.op))
    ensures Takes(s, a, Post) ==> Step(s, a).pcs[a.c] == Out(Ok)
  {
  }

  /** A client goes to sleep exactly if its blocking wait finds the count at 0, and it sleeps with
      a time limit exactly if it asked for one. */
  lemma SleepsIff(s: State, a: Action, c: Client, timed: bool)
    ensures !IsBlocked(s.pcs, c) ==>
              (StandsAt(Step(s, a).pcs, c, Blocked(timed)) <==>
                a.c == c && Takes(s, a, if timed then TimedWait else Wait) && s.count == 0)
  {
  }

  /** The counts of the theorems are what an observer of the clients counts, and `count` follows
      them: a wait takes a token exactly if it returns Ok. */
  lemma CountsAreObserved(roles: Roles, initCount: int, acts: seq<Action>, a: Action)
    ensures var s := Run(Step, Init(roles, initCount), acts);
            var t := Step(s, a);
            && t.takes == s.takes + (if Returns(s, a, Ok) then 1 else 0)
            && t.posts == s.posts + (if Takes(s, a, Post) then 1 else 0)
            && t.count == s.count + (if Takes(s, a, Post) then 1 else 0) - (if Returns(s, a, Ok) then 1 else 0)
  {
    ExpiredSince(Init(roles, initCount), acts, a.c, Ok);
  }

  /** A post that finds the count at 0 takes exactly one client off the condition if anybody
      sleeps, and any other action takes nobody off it but the client it is about. */
  lemma PostWakes(s: State, a: Action)
    ensures Notifies(s, a) && !NobodyBlocked(s.pcs) ==>
              Count(Step(s, a).pcs, IsAsleep) == Count(s.pcs, IsAsleep) - 1
    ensures forall d :: IsBlocked(s.pcs, d) ==>
              IsBlocked(Step(s, a).pcs, d) || (Notifies(s, a) && Step(s, a).pcs[d].Woken?) || d == a.c
  {
    if Notifies(s, a) && !NobodyBlocked(s.pcs) {
      CountMove(s.pcs, a.w, Woken, IsAsleep);
      CountMove(s.pcs[a.w := Woken], a.c, Out(Ok), IsAsleep);
    }
  }

  /** A client that has been woken stays on its way until it gets the mutex, and then its wait
      returns Ok, whatever the count is by then. */
  lemma {:induction false} WokenReturnsOk(s: State, c: Client, more: seq<Action>)
    requires c in s.pcs && s.pcs[c].Woken? && Resume(c) !in more
    ensures var t := Run(Step, s, more);
            && c in t.pcs && t.pcs[c].Woken?
            && Enabled(t, Resume(c)) && Step(t, Resume(c)).pcs[c] == Out(Ok)
    decreases |more|
  {
    if more != [] {
      WokenReturnsOk(s, c, more[..|more| - 1]);
    }
  }

  /** The mutex is free between two actions, so only sleep keeps a client from going on. */
  lemma OnlySleepersWait(s: State, c: Client) returns (a: Action)
    requires c in s.pcs && !s.pcs[c].Out? && s.pcs[c] != Blocked(false)
    ensures a.c == c && Enabled(s, a) && Step(s, a).pcs[c] != s.pcs[c]
  {
    match s.pcs[c]
    case Entered(_) =>
      var w := c;
      if d :| IsBlocked(s.pcs, d) {
        w := d;
      }
      a := Lock(c, w);
    case Blocked(_) => a := Expire(c, Timeout);
    case _ => a := Resume(c);
  }

  // ---- the C structure ----

  /** vm_semaphore. `pcs` stands for the threads and, through those Blocked, for the
      condition variable. Each method is one uninterrupted part of a C function. */
  class VmSemaphore {
    const roles: Roles
    var count: int
    var pcs: map<Client, Pc>
    ghost var posts: nat
    ghost var takes: nat

    ghost function Snapshot(): State
      reads this
    {
      State(roles, count, pcs, posts, takes)
    }

    constructor (initCount: int, roles: Roles)
      ensures Snapshot() == Init(roles, initCount)
    {
      this.roles := roles;
      count := initCount;
      pcs := map c | c in roles.consumers + roles.producers :: Out(Ok);
      posts, takes := 0, 0;
    }

    /** The test of `count` every operation makes before it takes the mutex. */
    method Enter(c: Client, op: Op)
      requires Enabled(Snapshot(), Call(c, op))
      modifies this
      ensures Snapshot() == Step(old(Snapshot()), Call(c, op))
    {
      if 0 <= count {
        pcs := pcs[c := Entered(op)];
      } else {
        pcs := pcs[c := Out(NotInitialized)];
      }
    }

    method PostLocked(c: Client, w: Client)
      requires Enabled(Snapshot(), Lock(c, w)) && pcs[c].op == Post
      modifies this
      ensures Snapshot() == Step(old(Snapshot()), Lock(c, w))
    {
      var before := count;
      count := count + 1;
      if 0 == before {
        pcs := SignalOne(pcs, w);
      }
      posts := posts + 1;
      pcs := pcs[c := Out(Ok)];
    }

    /** Both blocking waits up to the point where they sleep on the condition or return. */
    method WaitLocked(c: Client, timed: bool)
      requires Enabled(Snapshot(), Lock(c, c)) && pcs[c].op == (if timed then TimedWait else Wait)
      modifies this
      ensures Snapshot() == Step(old(Snapshot()), Lock(c, c))
    {
      if 0 == count {
        pcs := pcs[c := Blocked(timed)];
      } else {
        count := count - 1;
        takes := takes + 1;
        pcs := pcs[c := Out(Ok)];
      }
    }

    /** Both blocking waits from the point where the condition gives the mutex back. */
    method WaitResumed(c: Client) returns (status: Status)
      requires Enabled(Snapshot(), Resume(c))
      modifies this
      ensures Snapshot() == Step(old(Snapshot()), Resume(c))
      ensures pcs[c] == Out(status)
    {
      status := if pcs[c].Woken? then Ok else pcs[c].why;
      if pcs[c].Woken? {
        count := count - 1;
        takes := takes + 1;
      }
      pcs := pcs[c := Out(status)];
    }

    method TryWaitLocked(c: Client)
      requires Enabled(Snapshot(), Lock(c, c)) && pcs[c].op == TryWait
      modifies this
      ensures Snapshot() == Step(old(Snapshot()), Lock(c, c))
    {
      if 0 == count {
        pcs := pcs[c := Out(Timeout)];
      } else {
        count := count - 1;
        takes := takes + 1;
        pcs := pcs[c := Out(Ok)];
      }
    }
  }
}
