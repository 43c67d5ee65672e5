/** Fake binlogs, which a pump writes on a timer so that the drainer's stream moves on: which of them a
    puller sends. */
module PumpFakes {
  import opened Collections
  import opened PumpProtocol
  import opened PumpRestart

  /** A record that belongs to no transaction. */
  predicate IsFake(b: Binlog) {
    b.kind.Rollback? && b.start == b.commit
  }

  /** Every fake binlog of the snapshot that the iteration has passed was sent. */
  ghost predicate FakesSent(st: Store, p: Puller) {
    p.On? && p.iter.Some? ==>
      var it := p.iter.value;
      && (forall k :: k in it.snap ==> it.snap[k] < |st.log|)
      && (forall k :: k in it.snap && it.start < k <= it.cursor && IsFake(st.log[it.snap[k]]) ==> k in p.emitted)
  }

  ghost predicate IndexInLog(st: Store) {
    forall k :: k in st.index ==> st.index[k] < |st.log|
  }

  lemma TxnStepGrows(st: Store, a: Step)
    requires TxnStepEnabled(st, a) && IndexInLog(st)
    ensures st.log <= TxnStep(st, a).log && TxnStep(st, a).index == st.index && IndexInLog(TxnStep(st, a))
  {
  }

  lemma StepGrows(s: Pump, a: Step)
    requires Enabled(s, a) && IndexInLog(s.st)
    ensures s.st.log <= Apply(s, a).st.log && IndexInLog(Apply(s, a).st)
  {
    if TxnStepEnabled(s.st, a) {
      TxnStepGrows(s.st, a);
    }
  }

  lemma SentStays(st: Store, st': Store, p: Puller)
    requires FakesSent(st, p) && st.log <= st'.log
    ensures FakesSent(st', p)
  {
  }

  lemma NextSent(st: Store, p: Puller, key: int)
    requires FakesSent(st, p) && p.On? && p.iter.Some? && NextKey(p.iter.value, key)
    ensures FakesSent(st, PullKey(st, p, key))
  {
    var it, p' := p.iter.value, PullKey(st, p, key);
    forall k | k in it.snap && it.start < k <= key && IsFake(st.log[it.snap[k]]) ensures k in p'.emitted {
      assert it.cursor < k ==> key <= k;
    }
  }

  lemma StepSent(s: Pump, a: Step)
    requires Enabled(s, a) && IndexInLog(s.st) && FakesSent(s.st, s.puller)
    ensures FakesSent(Apply(s, a).st, Apply(s, a).puller)
  {
    StepGrows(s, a);
    SentStays(s.st, Apply(s, a).st, s.puller);
    if a.PullNext? {
      NextSent(s.st, s.puller, a.key);
    }
  }

  lemma {:induction false} RunSent(s: Pump, steps: seq<Step>)
    requires Runs(s, steps) && IndexInLog(s.st) && FakesSent(s.st, s.puller)
    ensures IndexInLog(End(s, steps).st) && FakesSent(End(s, steps).st, End(s, steps).puller)
    decreases |steps|
  {
    if steps != [] {
      StepGrows(s, steps[0]);
      StepSent(s, steps[0]);
      RunSent(Apply(s, steps[0]), steps[1..]);
    }
  }

  /** Main result: in every run, crashes and collection included, an iteration that can end has sent every
      fake binlog of its snapshot above its start and below its limit. */
  lemma FakesStreamed(steps: seq<Step>, k: int)
    requires Runs(Init(), steps) && Enabled(End(Init(), steps), PullEnd)
    requires var it := End(Init(), steps).puller.iter.value; k in it.snap && it.start < k < it.limit
    ensures var s := End(Init(), steps);
      && s.puller.iter.value.snap[k] < |s.st.log|
      && (IsFake(s.st.log[s.puller.iter.value.snap[k]]) ==> k in s.puller.emitted)
  {
    var s := End(Init(), steps);
    RunSent(Init(), steps);
    var it := s.puller.iter.value;
    if it.cursor < k {
      var _ := LeastAbove(it, k);
      assert false;
    }
  }

  /** Some key comes next. */
  lemma {:induction false} LeastAbove(it: Iter, k: int) returns (key: int)
    requires k in it.snap && it.cursor < k < it.limit
    ensures NextKey(it, key)
    decreases k - it.cursor
  {
    if l :| l in it.snap && it.cursor < l < k {
      key := LeastAbove(it, l);
    } else {
      key := k;
    }
  }

  // ---------------------------------------------------------------- a fake binlog that is passed over

  const F1 := Binlog(Rollback, 1, 1)
  const F2 := Binlog(Rollback, 2, 2)

  function Logged(): Pump {
    Pump(Store(2, map[], {1, 2}, [F2], map[], 0, 0, 0), Queue(0, 0, [], EMPTY_SORTER), NO_OUT, Off)
  }

  function Reported(): Pump {
    Pump(Store(2, map[], {1, 2}, [F2], map[2 := 0], 0, 1, 0), Queue(0, 1, [], SorterState({}, [], None, 2)),
         Out([Item(F2, 0)], [2], 0, None, 0, 0), Off)
  }

  function Pulling(): Pump {
    Reported().(out := Out([], [2], 2, Some(Item(F2, 0)), 0, 0),
                puller := On(0, 0, [], Some(Iter(map[2 := 0], 0, 0, 3))))
  }

  function Passed(): Pump {
    Pump(Store(2, map[], {1, 2}, [F2, F1], map[2 := 0], 0, 1, 0), Reported().q, Pulling().out, On(0, 2, [2], None))
  }

  function Again(): Pump {
    Pump(Store(2, map[], {1, 2}, [F2, F1], map[2 := 0, 1 := 1], 1, 2, 0),
         Queue(0, 2, [1], SorterState({}, [], None, 2)), Pulling().out,
         On(0, 2, [2], Some(Iter(map[2 := 0, 1 := 1], 2, 2, 3))))
  }

  lemma ReachLogged()
    ensures Reached(Logged())
  {
    assert Runs(Init(), []) && End(Init(), []) == Init();
    Reach3(Init(), AllotFake(1), AllotFake(2), LogFake(2), Logged());
  }

  lemma ReachReported()
    ensures Reached(Reported())
  {
    ReachLogged();
    Reach3(Logged(), KvWrite(false), SorterPush, SorterTake, Reported());
  }

  lemma ReachPulling()
    ensures Reached(Pulling())
  {
    ReachReported();
    Reach3(Reported(), HandleReport, PullStart(0), PullIter(3), Pulling());
  }

  lemma ReachPassed()
    ensures Reached(Passed())
  {
    ReachPulling();
    assert Apply(Pulling(), PullNext(2)).puller.emitted == [2] && [F2] + [F1] == [F2, F1];
    Reach3(Pulling(), PullNext(2), PullEnd, LogFake(1), Passed());
  }

  /** A fake binlog that is logged after a later timestamp was sent is passed over: it is indexed, above the
      start of the stream and below its end, and was not sent. */
  lemma LateFakeMissed()
    ensures exists s :: Reached(s) && s.puller.On? && s.puller.iter.Some? && s.puller.from < 1 < Reach(s.puller)
                        && 1 in s.st.index && s.st.index[1] < |s.st.log| && IsFake(s.st.log[s.st.index[1]])
                        && 1 !in s.puller.emitted
  {
    ReachPassed();
    Reach1(Passed(), KvWrite(false));
    Reach1(Apply(Passed(), KvWrite(false)), PullIter(3));
    assert Apply(Apply(Passed(), KvWrite(false)), PullIter(3)) == Again();
    assert Again().st.log[1] == F1;
  }
}
