/** Exactly when a restart is safe.  A replay from a position is safe in all its continuations if and
    only if every open transaction with a prewrite before that position is met again in time. */
module PumpRecovery {
  import opened Collections
  import opened PumpProtocol

  /** If the sorter is about to report a timestamp, then everything up to it is complete. */
  ghost predicate ReportsSafely(s: Pump) {
    Enabled(s, SorterTake) && Reports(s.q.sorter) ==> Complete(s.st, s.q.sorter.items[0].binlog.commit)
  }

  /** Whatever happens from here on, short of another crash, every report is safe. */
  ghost predicate SafeAfter(s: Pump) {
    forall steps :: Runs(s, steps) && Crash !in steps ==> ReportsSafely(End(s, steps))
  }

  lemma StepBack(s: Pump, a: Step)
    requires Enabled(s, a) && !a.Crash? && !SafeAfter(Apply(s, a))
    ensures !SafeAfter(s)
  {
    var steps :| Runs(Apply(s, a), steps) && Crash !in steps && !ReportsSafely(End(Apply(s, a), steps));
    var all := [a] + steps;
    assert all[0] == a && all[1..] == steps;
    assert Runs(s, all) && Crash !in all && End(s, all) == End(Apply(s, a), steps);
  }

  lemma UnsafeNow(s: Pump)
    requires !ReportsSafely(s)
    ensures !SafeAfter(s)
  {
    assert Runs(s, []) && Crash !in [] && End(s, []) == s;
  }

  // ---------------------------------------------------------------- an exposed transaction

  /** The transaction has a commit timestamp but is not settled. */
  ghost predicate Unsettled(st: Store, t: int) {
    t in st.txns && st.txns[t].here && st.txns[t].status.HasTs() && !Settled(st, t)
  }

  /** From position `k` on the log leads to a record at `q` with a timestamp at or above that of an
      unsettled transaction, and nothing on the way is about the transaction. */
  ghost predicate Exposed(st: Store, t: int, k: nat, q: nat) {
    && Unsettled(st, t) && k <= q < |st.log|
    && !st.log[q].kind.Prewrite? && st.txns[t].status.ts <= st.log[q].commit
    && (forall i :: k <= i <= q ==> st.log[i].start != t)
    && (forall i :: k <= i < q && !st.log[i].kind.Prewrite? ==> st.log[i].commit < st.txns[t].status.ts)
  }

  lemma ExposedKept(st: Store, st': Store, t: int, k: nat, q: nat, k': nat)
    requires Exposed(st, t, k, q) && k <= k' <= q && st.log <= st'.log
    requires t in st'.txns && st'.txns[t] == st.txns[t] && !Settled(st', t)
    ensures Exposed(st', t, k', q)
  {
    assert forall i :: 0 <= i < |st.log| ==> st'.log[i] == st.log[i];
  }

  /** Indexing a record about another transaction does not settle this one. */
  lemma OtherRecord(st: Store, t: int, k: nat)
    requires StoreInv(st) && Unsettled(st, t) && k < |st.log| && st.log[k].start != t
    ensures st.log[k].Ts() != st.txns[t].status.ts
    ensures Unsettled(IndexRecord(st, k), t)
  {
    assert RecordOk(st, st.log[k]);
  }

  /** The stream is empty, and its writer is at position `k`. */
  predicate Drained(s: Pump, k: nat) {
    s.q.kvNext == k && s.q.toSorter == [] && s.q.sorter.items == [] && s.q.sorter.front.None?
  }

  /** What the construction of the unsafe run keeps. */
  ghost predicate Heading(s: Pump, t: int, q: nat) {
    && StoreInv(s.st) && s.q.kvNext <= s.st.kvHigh
    && Exposed(s.st, t, s.q.kvNext, q) && s.q.sorter.maxTS < s.st.txns[t].status.ts
  }

  /** The state with the record at `k` pushed to the sorter. */
  function Pushed(s: Pump, k: nat): Pump
    requires k < |s.st.log|
  {
    s.(st := IndexRecord(s.st, k), q := s.q.(kvNext := k + 1, sorter := Push(s.q.sorter, Item(s.st.log[k], k))))
  }

  lemma PushNext(s: Pump, k: nat)
    requires Drained(s, k) && k < |s.st.log|
    ensures SafeAfter(s) ==> SafeAfter(Pushed(s, k))
  {
    var s1 := Apply(s, KvWrite(false));
    assert s1.q.toSorter == [k];
    assert Apply(s1, SorterPush) == Pushed(s, k);
    if !SafeAfter(Pushed(s, k)) {
      StepBack(s1, SorterPush);
      StepBack(s, KvWrite(false));
    }
  }

  lemma PushedHeading(s: Pump, t: int, q: nat)
    requires Drained(s, s.q.kvNext) && Heading(s, t, q)
    ensures var k := s.q.kvNext;
            && StoreInv(Pushed(s, k).st) && k + 1 <= Pushed(s, k).st.kvHigh
            && Unsettled(Pushed(s, k).st, t)
            && (k < q ==> Heading(Pushed(s, k), t, q))
  {
    var k := s.q.kvNext;
    IndexRecordKeeps(s.st, k);
    OtherRecord(s.st, t, k);
    if k < q {
      ExposedKept(s.st, IndexRecord(s.st, k), t, k, q, k + 1);
    }
  }

  /** At the record with the high timestamp the sorter is about to report too much. */
  lemma ReportTooMuch(s: Pump, t: int, q: nat)
    requires Drained(s, q) && Heading(s, t, q) && Unsettled(Pushed(s, q).st, t)
    ensures !ReportsSafely(Pushed(s, q))
  {
    var s' := Pushed(s, q);
    assert s'.q.sorter.items == [Item(s.st.log[q], q)];
    assert CommitsBy(s'.st, t, s.st.log[q].commit);
    assert !Complete(s'.st, s.st.log[q].commit);
  }

  // ---------------------------------------------------------------- settling what is in the way

  /** The sorter waits for a prewrite of another transaction. */
  ghost predicate Blocked(s: Pump, t: int, u: int) {
    && s.q.toSorter == [] && s.q.sorter.items == [] && s.q.sorter.front.Some?
    && s.q.sorter.front.value.binlog.start == u && u != t && u in s.st.txns
  }

  function Released(s: Pump, st: Store, u: int): Pump {
    s.(st := st, q := s.q.(sorter := Release(s.q.sorter, u)))
  }

  lemma ResolveRolledBack(s: Pump, t: int, u: int, q: nat)
    requires Heading(s, t, q) && Blocked(s, t, u) && s.st.txns[u].status.RolledBack?
    ensures Heading(Released(s, s.st, u), t, q) && Drained(Released(s, s.st, u), s.q.kvNext)
    ensures SafeAfter(s) ==> SafeAfter(Released(s, s.st, u))
  {
    assert Apply(s, Resolve(0)) == Released(s, s.st, u);
    if !SafeAfter(Released(s, s.st, u)) {
      StepBack(s, Resolve(0));
    }
  }

  lemma AbortOther(s: Pump, t: int, u: int, q: nat)
    requires Heading(s, t, q) && Blocked(s, t, u) && (s.st.txns[u].status.Active? || s.st.txns[u].status.Committing?)
    ensures var s' := s.(st := SetStatus(s.st, u, RolledBack));
            Heading(s', t, q) && Blocked(s', t, u) && (SafeAfter(s) ==> SafeAfter(s'))
  {
    var s' := s.(st := SetStatus(s.st, u, RolledBack));
    TxnStoreKeeps(s.st, Abort(u));
    ExposedKept(s.st, s'.st, t, s.q.kvNext, q, s.q.kvNext);
    assert Apply(s, Abort(u)) == s';
    if !SafeAfter(s') {
      StepBack(s, Abort(u));
    }
  }

  /** The store after the commit binlog of a committed transaction is logged and resolved. */
  function Resolved(st: Store, u: int): Store
    requires u in st.txns && st.txns[u].status.Committed?
  {
    IndexResolved(Append(st, Binlog(Commit, u, st.txns[u].status.ts)), u, |st.log|)
  }

  lemma ResolvedStore(st: Store, t: int, u: int, k: nat, q: nat)
    requires StoreInv(st) && Exposed(st, t, k, q) && u != t && u in st.txns && st.txns[u].status.Committed?
    ensures StoreInv(Resolved(st, u)) && Exposed(Resolved(st, u), t, k, q) && Resolved(st, u).kvHigh == st.kvHigh
  {
    TxnStoreKeeps(st, LogCommit(u));
    var mid := TxnStep(st, LogCommit(u));
    IndexResolvedKeeps(mid, u, |st.log|);
    ExposedKept(st, Resolved(st, u), t, k, q, k);
  }

  lemma ResolveCommitted(s: Pump, t: int, u: int, q: nat)
    requires Heading(s, t, q) && Blocked(s, t, u) && s.st.txns[u].status.Committed?
    ensures var s' := Released(s, Resolved(s.st, u), u);
            Heading(s', t, q) && Drained(s', s.q.kvNext) && (SafeAfter(s) ==> SafeAfter(s'))
  {
    var s' := Released(s, Resolved(s.st, u), u);
    ResolvedStore(s.st, t, u, s.q.kvNext, q);
    var s1 := Apply(s, LogCommit(u));
    assert Apply(s1, Resolve(|s.st.log|)) == s';
    if !SafeAfter(s') {
      StepBack(s1, Resolve(|s.st.log|));
      StepBack(s, LogCommit(u));
    }
  }

  // ---------------------------------------------------------------- the unsafe run

  lemma {:induction false} Drain(s: Pump, t: int, q: nat)
    requires Drained(s, s.q.kvNext) && Heading(s, t, q)
    ensures !SafeAfter(s)
    decreases q - s.q.kvNext, 0
  {
    var k := s.q.kvNext;
    PushNext(s, k);
    PushedHeading(s, t, q);
    if k == q {
      ReportTooMuch(s, t, q);
      UnsafeNow(Pushed(s, q));
    } else {
      TakePushed(s, t, q);
    }
  }

  lemma {:induction false} TakePushed(s: Pump, t: int, q: nat)
    requires Drained(s, s.q.kvNext) && Heading(s, t, q) && s.q.kvNext < q && Heading(Pushed(s, s.q.kvNext), t, q)
    ensures !SafeAfter(Pushed(s, s.q.kvNext))
    decreases q - s.q.kvNext - 1, 2
  {
    var k := s.q.kvNext;
    var s2 := Pushed(s, k);
    var b := s.st.log[k];
    assert s2.q.sorter.items == [Item(b, k)];
    var s3 := Apply(s2, SorterTake);
    assert s3.q.sorter.items == [] && s3.st == s2.st && s3.q.kvNext == k + 1;
    assert RecordOk(s.st, b);
    if b.kind.Prewrite? {
      Unblock(s3, t, b.start, q);
    } else {
      Drain(s3, t, q);
    }
    StepBack(s2, SorterTake);
  }

  lemma {:induction false} Unblock(s: Pump, t: int, u: int, q: nat)
    requires Heading(s, t, q) && Blocked(s, t, u)
    ensures !SafeAfter(s)
    decreases q - s.q.kvNext, 1
  {
    match s.st.txns[u].status
    case Committed(_, _) =>
      ResolveCommitted(s, t, u, q);
      Drain(Released(s, Resolved(s.st, u), u), t, q);
    case RolledBack =>
      ResolveRolledBack(s, t, u, q);
      Drain(Released(s, s.st, u), t, q);
    case _ =>
      AbortOther(s, t, u, q);
      var s' := s.(st := SetStatus(s.st, u, RolledBack));
      ResolveRolledBack(s', t, u, q);
      Drain(Released(s', s'.st, u), t, q);
  }

  // ---------------------------------------------------------------- exactness

  /** The first record from `k` on with a timestamp at or above `ts`. */
  lemma {:induction false} FirstAbove(log: seq<Binlog>, ts: int, k: nat) returns (q: nat)
    requires exists i :: k <= i < |log| && !log[i].kind.Prewrite? && ts <= log[i].commit
    ensures k <= q < |log| && !log[q].kind.Prewrite? && ts <= log[q].commit
    ensures forall i :: k <= i < q && !log[i].kind.Prewrite? ==> log[i].commit < ts
    decreases |log| - k
  {
    if k < |log| && !log[k].kind.Prewrite? && ts <= log[k].commit {
      q := k;
    } else {
      q := FirstAbove(log, ts, k + 1);
    }
  }

  /** A replay that does not meet the transaction in time runs into the high record. */
  lemma UnshieldedExposed(st: Store, base: nat, t: int, q: nat)
    requires Unsettled(st, t) && !Shielded(st, base, t) && base <= q < |st.log|
    requires !st.log[q].kind.Prewrite? && st.txns[t].status.ts <= st.log[q].commit
    requires forall i :: base <= i < q && !st.log[i].kind.Prewrite? ==> st.log[i].commit < st.txns[t].status.ts
    ensures Exposed(st, t, base, q)
  {
    forall i | base <= i <= q ensures st.log[i].start != t {
      assert MetInTime(st, base, t, i);
    }
  }

  /** The state right after a start. */
  ghost predicate Fresh(s: Pump) {
    StoreInv(s.st) && s.q == Queue(s.q.base, s.q.base, [], EMPTY_SORTER) && s.q.base <= s.st.kvHigh
  }

  lemma FreshUnsafe(s: Pump, t: int, q: nat)
    requires Fresh(s) && Exposed(s.st, t, s.q.base, q)
    ensures !SafeAfter(s)
  {
    Drain(s, t, q);
  }

  lemma CommittingUnsafe(s: Pump, t: int)
    requires Fresh(s) && Unsettled(s.st, t) && !Shielded(s.st, s.q.base, t)
    ensures !SafeAfter(s)
  {
    var st, base, ts := s.st, s.q.base, s.st.txns[t].status.ts;
    if exists i :: base <= i < |st.log| && !st.log[i].kind.Prewrite? && ts <= st.log[i].commit {
      var q := FirstAbove(st.log, ts, base);
      UnshieldedExposed(st, base, t, q);
      FreshUnsafe(s, t, q);
    } else {
      FakeUnsafe(s, t);
    }
  }

  /** The store after a fake binlog got a timestamp and was logged. */
  function WithFake(st: Store): Store {
    st.(now := st.now + 1, fakes := st.fakes + {st.now + 1}, log := st.log + [Binlog(Rollback, st.now + 1, st.now + 1)])
  }

  lemma FakeLogged(s: Pump)
    requires Fresh(s)
    ensures Fresh(s.(st := WithFake(s.st)))
    ensures !SafeAfter(s.(st := WithFake(s.st))) ==> !SafeAfter(s)
  {
    var fake := s.st.now + 1;
    var s1 := Apply(s, AllotFake(fake));
    TxnStoreKeeps(s.st, AllotFake(fake));
    TxnStoreKeeps(s1.st, LogFake(fake));
    assert Apply(s1, LogFake(fake)) == s.(st := WithFake(s.st));
    if !SafeAfter(s.(st := WithFake(s.st))) {
      StepBack(s1, LogFake(fake));
      StepBack(s, AllotFake(fake));
    }
  }

  /** Without a high record in the log, a fake binlog will do. */
  lemma FakeExposes(st: Store, base: nat, t: int)
    requires StoreInv(st) && Unsettled(st, t) && !Shielded(st, base, t) && base <= |st.log|
    requires forall i :: base <= i < |st.log| && !st.log[i].kind.Prewrite? ==> st.log[i].commit < st.txns[t].status.ts
    ensures Exposed(WithFake(st), t, base, |st.log|)
  {
    forall i | base <= i < |st.log| ensures st.log[i].start != t {
      assert MetInTime(st, base, t, i);
    }
  }

  lemma FakeUnsafe(s: Pump, t: int)
    requires Fresh(s) && Unsettled(s.st, t) && !Shielded(s.st, s.q.base, t)
    requires forall i :: s.q.base <= i < |s.st.log| && !s.st.log[i].kind.Prewrite? ==> s.st.log[i].commit < s.st.txns[t].status.ts
    ensures !SafeAfter(s)
  {
    FakeLogged(s);
    FakeExposes(s.st, s.q.base, t);
    FreshUnsafe(s.(st := WithFake(s.st)), t, |s.st.log|);
  }

  lemma OpenUnsafe(s: Pump, p: nat)
    requires Fresh(s) && p < s.q.base && p < |s.st.log| && s.st.log[p].kind.Prewrite?
    requires !Shielded(s.st, s.q.base, s.st.log[p].start)
    ensures !SafeAfter(s)
  {
    var t := s.st.log[p].start;
    assert RecordOk(s.st, s.st.log[p]);
    if s.st.txns[t].status.Active? {
      var a := AllotCommit(t, s.st.now + 1, p);
      var s1 := Apply(s, a);
      TxnStoreKeeps(s.st, a);
      forall i | s.q.base <= i < |s.st.log| ensures s.st.log[i].start != t {
        assert MetInTime(s.st, s.q.base, t, i);
      }
      CommittingUnsafe(s1, t);
      StepBack(s, a);
    } else {
      CommittingUnsafe(s, t);
    }
  }

  /** Main result: after a crash, every report in every continuation is safe if and only if the replay
      takes account of every open transaction with a prewrite before it. */
  lemma RestartExact(s: Pump)
    requires Core(s)
    ensures SafeAfter(Restart(s)) <==> Recoverable(s.st, ReplayFrom(s))
  {
    var s' := Restart(s);
    if Recoverable(s.st, ReplayFrom(s)) {
      RestartCore(s);
      CoreSafe(s');
    } else {
      var p :| 0 <= p < ReplayFrom(s) && s.st.log[p].kind.Prewrite? && !Shielded(s.st, ReplayFrom(s), s.st.log[p].start);
      OpenUnsafe(s', p);
    }
  }

  lemma CoreSafe(s: Pump)
    requires Core(s)
    ensures SafeAfter(s)
  {
    forall steps | Runs(s, steps) && Crash !in steps ensures ReportsSafely(End(s, steps)) {
      NoCrashIsSafe(s, steps);
      RunCore(s, steps);
      CoreReports(End(s, steps));
    }
  }
}
