/** Why the restart result of `PumpProtocol` needs its condition: a concrete run in which the
    persisted handle pointer overshoots.  A commit binlog of transaction 1 is logged twice, at
    position 1 by the client and at position 3 by the resolver; the prewrite of transaction 2
    lies between them.  After a crash the log is replayed from position 3, the sorter never
    sees that prewrite, and it reports timestamp 12 while transaction 2, committed at 11, has
    no commit binlog in the index. */
module PumpRestart {
  import opened Collections
  import opened PumpProtocol

  /** Reached by some run from the empty pump. */
  ghost predicate Reached(s: Pump) {
    exists steps :: Runs(Init(), steps) && End(Init(), steps) == s
  }

  lemma {:induction false} RunsSnoc(s: Pump, steps: seq<Step>, a: Step)
    requires Runs(s, steps) && Enabled(End(s, steps), a)
    ensures Runs(s, steps + [a]) && End(s, steps + [a]) == Apply(End(s, steps), a)
    decreases |steps|
  {
    var all := steps + [a];
    if steps == [] {
      assert all[1..] == [];
    } else {
      assert all[0] == steps[0] && all[1..] == steps[1..] + [a];
      RunsSnoc(Apply(s, steps[0]), steps[1..], a);
    }
  }

  lemma Reach1(s: Pump, a: Step)
    requires Reached(s) && Enabled(s, a)
    ensures Reached(Apply(s, a))
  {
    var steps :| Runs(Init(), steps) && End(Init(), steps) == s;
    RunsSnoc(Init(), steps, a);
  }

  lemma Reach3(s: Pump, a: Step, b: Step, c: Step, s': Pump)
    requires Reached(s) && Enabled(s, a) && Enabled(Apply(s, a), b) && Enabled(Apply(Apply(s, a), b), c)
    requires s' == Apply(Apply(Apply(s, a), b), c)
    ensures Reached(s')
  {
    Reach1(s, a);
    Reach1(Apply(s, a), b);
    Reach1(Apply(Apply(s, a), b), c);
  }

  const P1 := Binlog(Prewrite, 1, 0)
  const C1 := Binlog(Commit, 1, 10)
  const P2 := Binlog(Prewrite, 2, 0)
  const F12 := Binlog(Rollback, 12, 12)
  const NO_OUT := Out([], [], 0, None, 0, 0)

  function S0(): Pump {
    Pump(Store(2, map[1 := Txn(true, Active), 2 := Txn(true, Active)], {}, [P1], map[], 0, 0, 0),
         Queue(0, 0, [], EMPTY_SORTER), NO_OUT, Off)
  }

  function S1(): Pump {
    Pump(Store(2, map[1 := Txn(true, Active), 2 := Txn(true, Active)], {}, [P1], map[1 := 0], 0, 1, 0),
         Queue(0, 1, [], SorterState({1}, [], Some(Item(P1, 0)), 0)), NO_OUT, Off)
  }

  lemma Stage0()
    ensures Reached(S0())
  {
    assert Runs(Init(), []) && End(Init(), []) == Init();
    Reach3(Init(), Begin(1, true), Begin(2, true), LogPrewrite(1), S0());
  }

  lemma Stage1()
    ensures Reached(S1())
  {
    Stage0();
    Reach3(S0(), KvWrite(false), SorterPush, SorterTake, S1());
  }

  const T1 := Txn(true, Committed(10, 0))

  function S2(): Pump {
    Pump(Store(10, map[1 := T1, 2 := Txn(true, Active)], {}, [P1, C1], map[1 := 0], 0, 1, 0),
         Queue(0, 1, [], SorterState({1}, [], Some(Item(P1, 0)), 0)), NO_OUT, Off)
  }

  /** The resolver has let the prewrite of transaction 1 go. */
  function S3(): Pump {
    Pump(Store(10, map[1 := T1, 2 := Txn(true, Active)], {}, [P1, C1, P2, C1], map[1 := 0, 10 := 3], 0, 1, 0),
         Queue(0, 1, [], EMPTY_SORTER), NO_OUT, Off)
  }

  function S4(): Pump {
    Pump(Store(10, map[1 := T1, 2 := Txn(true, Active)], {}, [P1, C1, P2, C1], map[1 := 0, 10 := 3, 2 := 2], 3, 4, 0),
         Queue(0, 4, [1, 2, 3], EMPTY_SORTER), NO_OUT, Off)
  }

  /** Timestamp 10 is reported from position 1. */
  function S5(): Pump {
    Pump(S4().st, Queue(0, 4, [2, 3], SorterState({}, [], None, 10)), Out([], [10], 10, Some(Item(C1, 1)), 0, 0), Off)
  }

  /** The handle pointer was saved as position 3, and the pump restarted from it. */
  function S6(): Pump {
    Pump(Store(11, map[1 := T1, 2 := Txn(true, Committing(11, 2))], {}, [P1, C1, P2, C1], map[1 := 0, 10 := 3, 2 := 2], 3, 4, 0),
         Queue(3, 3, [], EMPTY_SORTER), Out([], [], 10, None, 3, 10), Off)
  }

  function S7(): Pump {
    Pump(Store(12, map[1 := T1, 2 := Txn(true, Committed(11, 2))], {12}, [P1, C1, P2, C1, F12],
               map[1 := 0, 10 := 3, 2 := 2], 3, 4, 0),
         Queue(3, 3, [], EMPTY_SORTER), Out([], [], 10, None, 3, 10), Off)
  }

  function S8(): Pump {
    Pump(Store(12, map[1 := T1, 2 := Txn(true, Committed(11, 2))], {12}, [P1, C1, P2, C1, F12],
               map[1 := 0, 10 := 3, 2 := 2, 12 := 4], 4, 5, 0),
         Queue(3, 5, [4], SorterState({}, [Item(C1, 3)], None, 0)), Out([], [], 10, None, 3, 10), Off)
  }

  function S9(): Pump {
    Pump(S8().st, Queue(3, 5, [], SorterState({}, [Item(F12, 4)], None, 10)), Out([Item(C1, 3)], [10], 10, None, 3, 10), Off)
  }

  lemma Stage2()
    ensures Reached(S2())
  {
    Stage1();
    Reach3(S1(), AllotCommit(1, 10, 0), CommitTxn(1), LogCommit(1), S2());
  }

  lemma Stage3()
    ensures Reached(S3())
  {
    Stage2();
    Reach3(S2(), LogPrewrite(2), LogCommit(1), Resolve(3), S3());
  }

  lemma Stage4()
    ensures Reached(S4())
  {
    Stage3();
    Reach3(S3(), KvWrite(false), KvWrite(false), KvWrite(false), S4());
  }

  lemma Stage5()
    ensures Reached(S5())
  {
    Stage4();
    Reach3(S4(), SorterPush, SorterTake, HandleReport, S5());
  }

  lemma Stage6()
    ensures Reached(S6())
  {
    Stage5();
    Reach3(S5(), PersistHandle, Crash, AllotCommit(2, 11, 2), S6());
  }

  lemma Stage7()
    ensures Reached(S7())
  {
    Stage6();
    Reach3(S6(), CommitTxn(2), AllotFake(12), LogFake(12), S7());
  }

  lemma Stage8()
    ensures Reached(S8())
  {
    Stage7();
    Reach3(S7(), KvWrite(false), KvWrite(false), SorterPush, S8());
  }

  lemma Stage9()
    ensures Reached(S9())
  {
    Stage8();
    Reach1(S8(), SorterTake);
    Reach1(Apply(S8(), SorterTake), SorterPush);
    assert Apply(Apply(S8(), SorterTake), SorterPush) == S9();
  }

  /** Without the condition on the saved pointer the restart result fails: some run ends with
      the sorter about to report a timestamp that is not complete. */
  lemma RestartUnsafe()
    ensures exists s :: Reached(s) && Enabled(s, SorterTake) && Reports(s.q.sorter)
                        && !Complete(s.st, s.q.sorter.items[0].binlog.commit)
  {
    Stage9();
    var s := S9();
    assert CommitsBy(s.st, 2, 12) && !Indexed(s.st, 11);
    assert !Complete(s.st, s.q.sorter.items[0].binlog.commit);
  }
}
