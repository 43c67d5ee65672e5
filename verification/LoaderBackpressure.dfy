/** The loader's transaction manager limits the row changes that are sent but not yet popped.  The
    size of a transaction is added after it is sent, so the pop may come before the add. */
module LoaderBackpressure {

  /** The producer has nothing in hand, passed the wait with a transaction, or has sent it but not
      added its size. */
  datatype Producer = Idle | Checked(size: nat) | Sent(size: nat)

  /** `outstanding` are the sizes of the transactions sent but not popped, in order. */
  datatype State = State(cachedSize: int, outstanding: seq<nat>, producer: Producer, closed: bool)

  datatype Step = Check(size: nat) | Send | Add | Pop | Close

  const INIT := State(0, [], Idle, false)

  /** The wait is over for a transaction of this size. */
  predicate MayPass(cachedSize: int, size: nat, max: nat) {
    if size < max then size + cachedSize <= max else cachedSize == 0
  }

  predicate Enabled(s: State, max: nat, step: Step) {
    match step
    case Check(size) => s.producer.Idle? && (s.closed || MayPass(s.cachedSize, size, max))
    case Send => s.producer.Checked?
    case Add => s.producer.Sent?
    case Pop => s.outstanding != []
    case Close => true
  }

  function Apply(s: State, max: nat, step: Step): State
    requires Enabled(s, max, step)
  {
    match step
    case Check(size) => s.(producer := Checked(size))
    case Send => s.(outstanding := s.outstanding + [s.producer.size], producer := Sent(s.producer.size))
    case Add => s.(cachedSize := s.cachedSize + s.producer.size, producer := Idle)
    case Pop => s.(cachedSize := s.cachedSize - s.outstanding[0], outstanding := s.outstanding[1..])
    case Close => s.(closed := true)
  }

  ghost predicate Runs(s: State, max: nat, steps: seq<Step>, t: State)
    decreases |steps|
  {
    if steps == [] then s == t
    else Enabled(s, max, steps[0]) && Runs(Apply(s, max, steps[0]), max, steps[1..], t)
  }

  function Sum(sizes: seq<nat>): nat {
    if sizes == [] then 0 else sizes[0] + Sum(sizes[1..])
  }

  lemma {:induction false} SumAppend(sizes: seq<nat>, size: nat)
    ensures Sum(sizes + [size]) == Sum(sizes) + size
  {
    if sizes == [] {
      assert sizes + [size] == [size];
    } else {
      assert (sizes + [size])[1..] == sizes[1..] + [size];
      SumAppend(sizes[1..], size);
    }
  }

  /** One transaction of at least the limit is outstanding, and all others are empty. */
  ghost predicate Alone(sizes: seq<nat>, max: nat) {
    exists i :: 0 <= i < |sizes| && sizes[i] >= max && forall j :: 0 <= j < |sizes| && j != i ==> sizes[j] == 0
  }

  ghost predicate Counted(s: State) {
    s.cachedSize == Sum(s.outstanding) - if s.producer.Sent? then s.producer.size else 0
  }

  ghost predicate Bounded(s: State, max: nat) {
    && (Sum(s.outstanding) <= max || Alone(s.outstanding, max))
    && (s.producer.Checked? ==> if s.producer.size < max then s.producer.size + Sum(s.outstanding) <= max
                                else Sum(s.outstanding) == 0)
  }

  lemma {:induction false} ZeroSum(sizes: seq<nat>, i: nat)
    requires Sum(sizes) == 0 && i < |sizes|
    ensures sizes[i] == 0
  {
    if i > 0 {
      ZeroSum(sizes[1..], i - 1);
    }
  }

  lemma {:induction false} SumZero(sizes: seq<nat>)
    requires forall i :: 0 <= i < |sizes| ==> sizes[i] == 0
    ensures Sum(sizes) == 0
  {
    if sizes != [] {
      SumZero(sizes[1..]);
    }
  }

  lemma SendBounded(sizes: seq<nat>, size: nat, max: nat)
    requires if size < max then size + Sum(sizes) <= max else Sum(sizes) == 0
    ensures Sum(sizes + [size]) <= max || Alone(sizes + [size], max)
  {
    SumAppend(sizes, size);
    if size >= max {
      forall j | 0 <= j < |sizes| ensures sizes[j] == 0 {
        ZeroSum(sizes, j);
      }
      assert (sizes + [size])[|sizes|] == size;
    }
  }

  lemma PopBounded(sizes: seq<nat>, max: nat)
    requires sizes != [] && (Sum(sizes) <= max || Alone(sizes, max))
    ensures Sum(sizes[1..]) <= max || Alone(sizes[1..], max)
  {
    if Alone(sizes, max) {
      var i :| 0 <= i < |sizes| && sizes[i] >= max && forall j :: 0 <= j < |sizes| && j != i ==> sizes[j] == 0;
      if i == 0 {
        SumZero(sizes[1..]);
      } else {
        assert sizes[1..][i - 1] == sizes[i];
      }
    }
  }

  lemma StepKeeps(s: State, max: nat, step: Step)
    requires Enabled(s, max, step) && Counted(s) && (!s.closed ==> Bounded(s, max))
    ensures Counted(Apply(s, max, step))
    ensures !Apply(s, max, step).closed ==> Bounded(Apply(s, max, step), max)
  {
    match step
    case Check(size) =>
    case Send =>
      SumAppend(s.outstanding, s.producer.size);
      if !s.closed {
        SendBounded(s.outstanding, s.producer.size, max);
      }
    case Add =>
    case Pop =>
      if !s.closed {
        PopBounded(s.outstanding, max);
      }
    case Close =>
  }

  lemma {:induction false} RunKeeps(s: State, max: nat, steps: seq<Step>, t: State)
    requires Runs(s, max, steps, t) && Counted(s) && (!s.closed ==> Bounded(s, max))
    ensures Counted(t) && (!t.closed ==> Bounded(t, max))
    decreases |steps|
  {
    if steps != [] {
      StepKeeps(s, max, steps[0]);
      RunKeeps(Apply(s, max, steps[0]), max, steps[1..], t);
    }
  }

  /** Main result: until the manager is closed, the outstanding row changes stay within the limit
      unless a single oversized transaction is all that is outstanding; and the counter is exactly
      the outstanding total less what is sent but not added. */
  lemma CacheBounded(max: nat, steps: seq<Step>, s: State)
    requires Runs(INIT, max, steps, s)
    ensures !s.closed ==> Sum(s.outstanding) <= max || Alone(s.outstanding, max)
    ensures s.cachedSize == Sum(s.outstanding) - if s.producer.Sent? then s.producer.size else 0
  {
    RunKeeps(INIT, max, steps, s);
  }

  /** The counter is negative exactly when the transaction just sent is popped, whole or with part
      of what was before it, before its size is added. */
  lemma NegativeCounter(max: nat, steps: seq<Step>, s: State)
    requires Runs(INIT, max, steps, s)
    ensures s.cachedSize < 0 <==> s.producer.Sent? && Sum(s.outstanding) < s.producer.size
  {
    RunKeeps(INIT, max, steps, s);
  }

  /** It can happen. */
  lemma CounterGoesNegative()
    ensures Runs(INIT, 10, [Check(3), Send, Pop], State(-3, [], Sent(3), false))
  {
    var s1 := Apply(INIT, 10, Check(3));
    var s2 := Apply(s1, 10, Send);
    var s3 := Apply(s2, 10, Pop);
    assert s2.outstanding == [3] && s3.outstanding == [];
    assert [Check(3), Send, Pop][1..] == [Send, Pop] && [Send, Pop][1..] == [Pop] && [Pop][1..] == [];
    assert Runs(s3, 10, [], s3);
    assert Runs(s2, 10, [Pop], s3);
    assert Runs(s1, 10, [Send, Pop], s3);
  }

  /** A waiting producer is never stuck: once everything is popped, any transaction may pass. */
  lemma NeverStuck(max: nat, steps: seq<Step>, s: State, size: nat)
    requires Runs(INIT, max, steps, s) && s.producer.Idle? && s.outstanding == []
    ensures Enabled(s, max, Check(size))
  {
    RunKeeps(INIT, max, steps, s);
  }

  /** Exactly when a transaction may pass in a run: a small one if it fits beside what is outstanding, and
      one of at least the limit if nothing but empty transactions is outstanding. */
  lemma PassExact(max: nat, steps: seq<Step>, s: State, size: nat)
    requires Runs(INIT, max, steps, s) && !s.closed
    ensures Enabled(s, max, Check(size)) <==>
              s.producer.Idle? && if size < max then Sum(s.outstanding) + size <= max else Sum(s.outstanding) == 0
  {
    RunKeeps(INIT, max, steps, s);
  }

  /** Closing ends every wait. */
  lemma {:induction false} ClosedPasses(s: State, max: nat, steps: seq<Step>, t: State, size: nat)
    requires Runs(s, max, steps, t) && (s.closed || Close in steps) && t.producer.Idle?
    ensures Enabled(t, max, Check(size))
    decreases |steps|
  {
    if steps != [] {
      assert Close in steps <==> steps[0] == Close || Close in steps[1..];
      ClosedPasses(Apply(s, max, steps[0]), max, steps[1..], t, size);
    }
  }

  /** The counter as the producer and the consumer update it under the lock. */
  class TxnManager {
    var cachedSize: int
    const maxCacheSize: nat

    constructor (maxCacheSize: nat)
      ensures cachedSize == INIT.cachedSize && this.maxCacheSize == maxCacheSize
    {
      cachedSize := 0;
      this.maxCacheSize := maxCacheSize;
    }

    /** Whether the producer stops waiting with a transaction of this size. */
    method WaitOver(txnSize: nat) returns (over: bool)
      ensures over <==> Enabled(State(cachedSize, [], Idle, false), maxCacheSize, Check(txnSize))
      ensures over <==> if txnSize < maxCacheSize then cachedSize <= maxCacheSize - txnSize else cachedSize == 0
    {
      if txnSize < maxCacheSize {
        over := !(txnSize + cachedSize > maxCacheSize);
      } else {
        over := !(cachedSize != 0);
      }
    }

    method Add(txnSize: nat, ghost outstanding: seq<nat>)
      modifies this
      ensures State(cachedSize, outstanding, Idle, false)
           == Apply(State(old(cachedSize), outstanding, Sent(txnSize), false), maxCacheSize, Step.Add)
    {
      cachedSize := cachedSize + txnSize;
    }

    method Pop(txnSize: nat, ghost rest: seq<nat>, ghost producer: Producer)
      modifies this
      ensures State(cachedSize, rest, producer, false)
           == Apply(State(old(cachedSize), [txnSize] + rest, producer, false), maxCacheSize, Step.Pop)
    {
      cachedSize := cachedSize - txnSize;
    }
  }
}
