/**
 * The lock-free reference count against the one under a lock (crypto/refcount_c11.c,
 * crypto/refcount_lock.c): threads run compare-and-swap loops whose steps interleave freely and
 * whose weak swaps may fail for no reason; every run is a run of the locked operations.
 */
module Refcount {

  const MAX: nat := 0xFFFF_FFFF  // CRYPTO_REFCOUNT_MAX

  datatype Op = Inc | Dec

  /** How an operation ends; aborting ends the process. */
  datatype Outcome = Done | Zero(isZero: bool) | Abort

  // ---------------------------------------------------------------- under the lock

  /** The locked operations: new count and outcome. */
  function Locked(count: nat, op: Op): (nat, Outcome)
  {
    match op
    case Inc => (if count < MAX then count + 1 else count, Done)
    case Dec =>
      if count == 0 then (count, Abort)
      else
        var c := if count < MAX then count - 1 else count;
        (c, Zero(c == 0))
  }

  /** refcount_lock.c: the critical sections as methods. */
  class LockedCount {
    var count: nat

    method Inc()
      modifies this
      ensures (count, Done) == Locked(old(count), Op.Inc)
    {
      if count < MAX {
        count := count + 1;
      }
    }

    method DecAndTestZero() returns (o: Outcome)
      modifies this
      ensures (count, o) == Locked(old(count), Dec)
    {
      if count == 0 {
        return Abort;
      }
      if count < MAX {
        count := count - 1;
      }
      return Zero(count == 0);
    }
  }

  /** The counter after n times the same operation. */
  function Times(count: nat, op: Op, n: nat): nat
    decreases n
  {
    if n == 0 then count else Times(Locked(count, op).0, op, n - 1)
  }

  lemma {:induction false} IncTimes(count: nat, n: nat)
    requires count <= MAX
    ensures Times(count, Inc, n) == if count + n < MAX then count + n else MAX
    decreases n
  {
    if n > 0 { IncTimes(Locked(count, Inc).0, n - 1); }
  }

  lemma {:induction false} DecTimes(count: nat, n: nat)
    requires count <= MAX
    ensures Times(count, Dec, n) == if count == MAX then MAX else if n <= count then count - n else 0
    decreases n
  {
    if n > 0 { DecTimes(Locked(count, Dec).0, n - 1); }
  }

  /** References that are taken and dropped again leave the counter as it was exactly if it did not
    * saturate on the way, or had done so before. */
  lemma BurstUndone(count: nat, n: nat)
    requires count <= MAX
    ensures Times(Times(count, Inc, n), Dec, n) == count <==> n == 0 || count == 0xFFFF_FFFF || count + n < 0xFFFF_FFFF
    ensures count < 0xFFFF_FFFF <= count + n ==> Times(Times(count, Inc, n), Dec, n) == 0xFFFF_FFFF
  {
    IncTimes(count, n);
    DecTimes(Times(count, Inc, n), n);
  }

  // ---------------------------------------------------------------- the compare-and-swap loops

  /** A thread between two atomic accesses: idle, or about to swap on the value it last observed. */
  datatype Pc = Idle | Trying(op: Op, expected: nat)

  /** A finished operation. */
  datatype Entry = Entry(thread: nat, op: Op, outcome: Outcome)

  /** The counter, the threads, and the operations finished so far in the order they took effect. */
  datatype Machine = Machine(count: nat, threads: map<nat, Pc>, log: seq<Entry>)

  datatype Action = Begin(thread: nat, op: Op) | Swap(thread: nat, spurious: bool)

  function Where(m: Machine, t: nat): Pc
  {
    if t in m.threads then m.threads[t] else Idle
  }

  /** What a thread does with the value it has just observed: the tests at the head of both loops. */
  function Observed(m: Machine, t: nat, op: Op): Machine
  {
    if m.count == MAX then Finish(m, t, op, if op == Inc then Done else Zero(false))
    else if op == Dec && m.count == 0 then Finish(m, t, op, Abort)
    else m.(threads := m.threads[t := Trying(op, m.count)])
  }

  function Finish(m: Machine, t: nat, op: Op, o: Outcome): Machine
  {
    m.(threads := m.threads[t := Idle], log := m.log + [Entry(t, op, o)])
  }

  /** One atomic access: the load that begins an operation, or a weak compare-and-swap, which on
    * failure hands back the current value. */
  function Next(m: Machine, a: Action): Machine
  {
    match a
    case Begin(t, op) => if Where(m, t).Idle? then Observed(m, t, op) else m
    case Swap(t, spurious) =>
      match Where(m, t)
      case Idle => m
      case Trying(op, expected) =>
        if m.count == expected && !spurious then
          var new_ := if op == Inc then expected + 1 else expected - 1;
          Finish(m.(count := if new_ < 0 then 0 else new_), t, op, if op == Inc then Done else Zero(new_ == 0))
        else Observed(m, t, op)
  }

  function Run(m: Machine, actions: seq<Action>): Machine
    decreases |actions|
  {
    if actions == [] then m else Run(Next(m, actions[0]), actions[1..])
  }

  /** The locked counter after the operations of a log, and whether each ended as the log says. */
  function Replay(count: nat, log: seq<Entry>): (nat, bool)
  {
    if log == [] then (count, true)
    else
      var (c, ok) := Replay(count, log[..|log| - 1]);
      var e := log[|log| - 1];
      var (c', o) := Locked(c, e.op);
      (c', ok && o == e.outcome)
  }

  /** A thread only swaps on a value it may change. */
  predicate Sane(m: Machine)
  {
    && m.count <= MAX
    && forall t :: t in m.threads && m.threads[t].Trying? ==>
        m.threads[t].expected < MAX && (m.threads[t].op == Dec ==> m.threads[t].expected > 0)
  }

  /** Every atomic access either leaves counter and log alone or is one locked operation. */
  lemma StepIsLockedOrSilent(m: Machine, a: Action)
    requires Sane(m)
    ensures Sane(Next(m, a))
    ensures var m' := Next(m, a);
            || (m'.count == m.count && m'.log == m.log)
            || (|m'.log| == |m.log| + 1 && m'.log[..|m.log|] == m.log
                && var e := m'.log[|m.log|]; Locked(m.count, e.op) == (m'.count, e.outcome))
  {
  }

  /** Linearisation: whatever the interleaving and the spurious failures, the operations, taken in
    * the order in which they took effect, are a run of the locked counter with the same outcomes
    * and the same final count. */
  lemma {:induction false} Linearises(start: nat, m: Machine, actions: seq<Action>)
    requires Sane(m) && Replay(start, m.log) == (m.count, true)
    ensures var m' := Run(m, actions); Sane(m') && Replay(start, m'.log) == (m'.count, true)
    decreases |actions|
  {
    if actions != [] {
      StepIsLockedOrSilent(m, actions[0]);
      var m' := Next(m, actions[0]);
      if m'.log != m.log {
        assert m'.log[..|m'.log| - 1] == m.log;
      }
      Linearises(start, m', actions[1..]);
    }
  }

  // ---------------------------------------------------------------- balanced references

  /** References held after a log that began with one. */
  function Refs(log: seq<Entry>): int
  {
    if log == [] then 1
    else Refs(log[..|log| - 1]) + if log[|log| - 1].op == Inc then 1 else -1
  }

  /** Only the holder of a reference uses it, be it to take another or to drop it. */
  predicate Balanced(log: seq<Entry>)
  {
    log != [] ==> Balanced(log[..|log| - 1]) && Refs(log[..|log| - 1]) >= 1
  }

  /** So many references were held at once that the counter reached its maximum. */
  predicate Saturated(log: seq<Entry>)
  {
    Refs(log) >= MAX || (log != [] && Saturated(log[..|log| - 1]))
  }

  /** How many decrements reported zero. */
  function Zeros(log: seq<Entry>): nat
  {
    if log == [] then 0
    else Zeros(log[..|log| - 1]) + if log[|log| - 1].outcome == Zero(true) then 1 else 0
  }

  predicate Aborts(log: seq<Entry>)
  {
    log != [] && (Aborts(log[..|log| - 1]) || log[|log| - 1].outcome.Abort?)
  }

  /** With balanced references the counter is the number of references until it saturates, and the
    * maximum from then on; nothing aborts, and exactly one decrement reports zero when the last
    * reference is dropped, none if the counter saturated. */
  lemma {:induction false} BalancedCounts(log: seq<Entry>)
    requires Balanced(log) && Replay(1, log).1
    ensures Replay(1, log).0 == if Saturated(log) then MAX else Refs(log)
    ensures Zeros(log) == if Refs(log) == 0 && !Saturated(log) then 1 else 0
    ensures !Aborts(log)
    decreases |log|
  {
    if log != [] {
      BalancedCounts(log[..|log| - 1]);
    }
  }

  /** The same for every run of the lock-free counter that starts with one reference. */
  lemma LockFreeCounts(actions: seq<Action>)
    ensures var m := Run(Machine(1, map[], []), actions);
            Balanced(m.log) ==>
              && m.count == (if Saturated(m.log) then 0xFFFF_FFFF else Refs(m.log))
              && Zeros(m.log) == (if Refs(m.log) == 0 && !Saturated(m.log) then 1 else 0)
              && !Aborts(m.log)
  {
    Linearises(1, Machine(1, map[], []), actions);
    var m := Run(Machine(1, map[], []), actions);
    if Balanced(m.log) { BalancedCounts(m.log); }
  }
}
