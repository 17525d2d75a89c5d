/**
 * The reference count that threads update by compare-and-swap loops, against
 * the one they update under a lock: every interleaving of the former is some
 * order of operations on the latter.
 */
module RefCount {
  import opened Bytes

  const MAX: nat := 0xffff_ffff

  datatype Op = Inc | Dec

  /** A completed operation and, for a decrement, whether it reported zero. */
  datatype Completed = Completed(op: Op, zero: bool)

  // The locked counter

  /** Under the lock: None is the abort on decrementing zero. */
  function Locked(op: Op, n: nat): Option<nat> {
    match op
    case Inc => Some(if n < MAX then n + 1 else n)
    case Dec => if n == 0 then None else Some(if n < MAX then n - 1 else n)
  }

  function LockedResult(op: Op, n: nat): bool {
    op == Dec && Locked(op, n) == Some(0)
  }

  /** refcount_lock.c */
  class LockedCounter {
    var count: nat

    constructor (n: nat)
      requires n <= MAX
      ensures count == n
    {
      count := n;
    }

    method Increment()
      requires count <= MAX
      modifies this
      ensures Some(count) == Locked(Inc, old(count)) && count <= MAX
    {
      if count < MAX {
        count := count + 1;
      }
    }

    method DecrementAndTestZero() returns (aborted: bool, zero: bool)
      requires count <= MAX
      modifies this
      ensures aborted <==> Locked(Dec, old(count)).None?
      ensures !aborted ==> Some(count) == Locked(Dec, old(count)) && zero == LockedResult(Dec, old(count)) && count <= MAX
      ensures aborted ==> count == old(count)
    {
      if count == 0 {
        return true, false;
      }
      if count < MAX {
        count := count - 1;
      }
      return false, count == 0;
    }
  }

  /** Operations one after the other on the locked counter, with the results they report. */
  ghost predicate Sequential(n: nat, done: seq<Completed>, n': nat)
    decreases |done|
  {
    if done == [] then n == n'
    else
      var k := |done| - 1;
      exists m: nat :: Sequential(n, done[..k], m) && Locked(done[k].op, m) == Some(n') && done[k].zero == LockedResult(done[k].op, m)
  }

  // The lock-free counter

  /** A thread between operations, or in its loop with the value it expects. */
  datatype Thread = Idle | Looping(op: Op, expected: nat)

  /** The shared word, the threads, the completed operations in the order they took effect, and whether one aborted. */
  datatype State = State(count: nat, threads: map<nat, Thread>, done: seq<Completed>, aborted: bool)

  /** What a thread does with the value it has just observed: it is decided there and then whether it has to loop. */
  function Observe(s: State, t: nat, op: Op): State {
    if s.count == MAX then s.(threads := s.threads[t := Idle], done := s.done + [Completed(op, false)])
    else if op == Dec && s.count == 0 then s.(aborted := true)
    else s.(threads := s.threads[t := Looping(op, s.count)])
  }

  function NewValue(op: Op, expected: nat): int {
    if op == Inc then expected + 1 else expected - 1
  }

  /** A step of thread t: the load that begins an operation, or a compare-and-swap, which may fail for no reason. */
  datatype Step = Load(t: nat, op: Op) | CompareExchange(t: nat, spurious: bool)

  predicate Enabled(s: State, x: Step) {
    !s.aborted && x.t in s.threads && (x.Load? <==> s.threads[x.t].Idle?)
  }

  function Next(s: State, x: Step): State {
    if !Enabled(s, x) then s
    else
      match x
      case Load(t, op) => Observe(s, t, op)
      case CompareExchange(t, spurious) =>
        var op, expected := s.threads[t].op, s.threads[t].expected;
        var v := NewValue(op, expected);
        if s.count == expected && !spurious && v >= 0 then
          s.(count := v, threads := s.threads[t := Idle], done := s.done + [Completed(op, op == Dec && v == 0)])
        else Observe(s, t, op)
  }

  ghost function Run(s: State, xs: seq<Step>): State
    decreases |xs|
  {
    if xs == [] then s else Run(Next(s, xs[0]), xs[1..])
  }

  /** What a looping thread expects is neither the saturated value nor, for a decrement, zero. */
  ghost predicate Sane(t: Thread) {
    t.Looping? ==> t.expected < MAX && (t.op == Dec ==> t.expected > 0)
  }

  /** The shared word is what the locked counter holds after the completed operations, with the same results. */
  ghost predicate Inv(start: nat, s: State) {
    s.count <= MAX && Sequential(start, s.done, s.count) && forall t | t in s.threads :: Sane(s.threads[t])
  }

  lemma SequentialSnoc(n: nat, done: seq<Completed>, m: nat, c: Completed, n': nat)
    requires Sequential(n, done, m) && Locked(c.op, m) == Some(n') && c.zero == LockedResult(c.op, m)
    ensures Sequential(n, done + [c], n')
  {
    assert (done + [c])[..|done|] == done;
  }

  lemma ObserveKeeps(start: nat, s: State, t: nat, op: Op)
    requires Inv(start, s) && t in s.threads
    ensures Inv(start, Observe(s, t, op))
  {
    if s.count == MAX {
      SequentialSnoc(start, s.done, s.count, Completed(op, false), s.count);
    }
  }

  lemma NextKeeps(start: nat, s: State, x: Step)
    requires Inv(start, s)
    ensures Inv(start, Next(s, x))
  {
    if Enabled(s, x) {
      match x {
        case Load(t, op) => ObserveKeeps(start, s, t, op);
        case CompareExchange(t, spurious) =>
          var op, expected := s.threads[t].op, s.threads[t].expected;
          assert Sane(s.threads[t]);
          ObserveKeeps(start, s, t, op);
          if s.count == expected {
            var v := NewValue(op, expected);
            SequentialSnoc(start, s.done, s.count, Completed(op, op == Dec && v == 0), v);
          }
      }
    }
  }

  /**
   * Linearisation: after any interleaving, with any spurious failures, the
   * completed operations in the order they took effect are a run of the locked
   * counter with the same results and the same value, which never leaves its range.
   */
  lemma {:induction false} Linearises(start: nat, s: State, xs: seq<Step>)
    requires Inv(start, s)
    ensures Inv(start, Run(s, xs))
    decreases |xs|
  {
    if xs != [] {
      NextKeeps(start, s, xs[0]);
      Linearises(start, Next(s, xs[0]), xs[1..]);
    }
  }

  /** An abort is one the locked counter makes too: the thread has just observed zero. */
  lemma AbortsAtZero(start: nat, s: State, x: Step)
    requires Inv(start, s) && !s.aborted && Next(s, x).aborted
    ensures s.count == 0 && Locked(Dec, s.count).None?
  {
  }

  /** Saturation is permanent. */
  lemma {:induction false} SaturatedForever(start: nat, s: State, xs: seq<Step>)
    requires Inv(start, s) && s.count == MAX
    ensures Run(s, xs).count == MAX
    decreases |xs|
  {
    if xs != [] {
      NextKeeps(start, s, xs[0]);
      assert xs[0].t in s.threads ==> Sane(s.threads[xs[0].t]);
      SaturatedForever(start, Next(s, xs[0]), xs[1..]);
    }
  }

  // Balanced runs

  function Count(done: seq<Completed>, op: Op): nat {
    if done == [] then 0 else Count(done[..|done| - 1], op) + if done[|done| - 1].op == op then 1 else 0
  }

  function Zeros(done: seq<Completed>): nat {
    if done == [] then 0 else Zeros(done[..|done| - 1]) + if done[|done| - 1].zero then 1 else 0
  }

  /** The count before each operation is neither saturated nor, for an increment, zero: references are taken only by holders. */
  ghost predicate HeldThroughout(n: nat, done: seq<Completed>)
    decreases |done|
  {
    done == [] || (
      var k := |done| - 1;
      HeldThroughout(n, done[..k])
      && forall m: nat | Sequential(n, done[..k], m) :: m + 1 < MAX && (done[k].op == Inc ==> m > 0))
  }

  /** While references are held properly, the count is the balance, and zero has been reported exactly if it is zero now. */
  lemma {:induction false} Balance(n: nat, done: seq<Completed>, n': nat)
    requires 0 < n < MAX && Sequential(n, done, n') && HeldThroughout(n, done)
    ensures n' + Count(done, Dec) == n + Count(done, Inc)
    ensures Zeros(done) == if n' == 0 then 1 else 0
    decreases |done|
  {
    if done != [] {
      var k := |done| - 1;
      var m: nat :| Sequential(n, done[..k], m) && Locked(done[k].op, m) == Some(n') && done[k].zero == LockedResult(done[k].op, m);
      Balance(n, done[..k], m);
    }
  }

  /** In a balanced run exactly one decrement, over all threads, reports zero. */
  lemma ExactlyOneZero(start: nat, s: State, xs: seq<Step>)
    requires Inv(start, s) && 0 < start < MAX
    ensures var z := Run(s, xs);
            HeldThroughout(start, z.done) && Count(z.done, Dec) == start + Count(z.done, Inc) ==> z.count == 0 && Zeros(z.done) == 1
  {
    Linearises(start, s, xs);
    var z := Run(s, xs);
    if HeldThroughout(start, z.done) {
      Balance(start, z.done, z.count);
    }
  }
}
