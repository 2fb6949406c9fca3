/** Threads around a flag or counter under a mutex with a condition variable. The part of an
    operation between taking and releasing the mutex is one action; waiting on the condition
    releases the mutex, so a wait is two such parts. */
module Conditions {
  type Client = nat

  datatype Status = Ok | Timeout | OperationFailed | NotInitialized

  /** Where a client thread stands.
      Out:      not inside an operation; `last` is what the previous one returned
      Entered:  found the object initialised, has not taken the mutex yet
      Blocked:  on the condition, mutex released
      Woken:    taken off the condition by a wake-up, has not got the mutex back yet
      Expired:  the wait on the condition failed, has not got the mutex back yet */
  datatype Pc<Op> =
    | Out(last: Status)
    | Entered(op: Op)
    | Blocked(timed: bool)
    | Woken
    | Expired(why: Status)

  datatype Action<Op> =
    | Call(c: Client, op: Op)
    | Lock(c: Client, w: Client)  // w: the waiter pthread_cond_signal picks, if it picks one
    | WakeUnasked(c: Client)
    | Expire(c: Client, why: Status)
    | Resume(c: Client)

  predicate IsAsleep<Op>(pc: Pc<Op>) {
    pc.Blocked?
  }

  /** c stands there. */
  predicate StandsAt<Op(==)>(pcs: map<Client, Pc<Op>>, c: Client, pc: Pc<Op>) {
    c in pcs && pcs[c] == pc
  }

  predicate IsBlocked<Op>(pcs: map<Client, Pc<Op>>, c: Client) {
    c in pcs && pcs[c].Blocked?
  }

  ghost predicate NobodyBlocked<Op>(pcs: map<Client, Pc<Op>>) {
    forall c :: !IsBlocked(pcs, c)
  }

  predicate InFlight<Op>(pcs: map<Client, Pc<Op>>, c: Client) {
    c in pcs && (pcs[c].Woken? || pcs[c].Expired?)
  }

  ghost predicate EverybodyOut<Op>(pcs: map<Client, Pc<Op>>) {
    forall c :: c in pcs ==> pcs[c].Out?
  }

  /** pthread_cond_broadcast */
  function Broadcast<Op>(pcs: map<Client, Pc<Op>>): map<Client, Pc<Op>> {
    map c | c in pcs :: if pcs[c].Blocked? then Woken else pcs[c]
  }

  /** pthread_cond_signal picking w */
  function SignalOne<Op>(pcs: map<Client, Pc<Op>>, w: Client): map<Client, Pc<Op>> {
    if IsBlocked(pcs, w) then pcs[w := Woken] else pcs
  }

  /** pthread_cond_signal wakes a thread if one is there to be woken. */
  ghost predicate CanSignal<Op>(pcs: map<Client, Pc<Op>>, w: Client) {
    NobodyBlocked(pcs) || IsBlocked(pcs, w)
  }
}
