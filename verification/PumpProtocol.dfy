/** The commit-order protocol of one pump.

    Prewrite (P) and commit (C) binlogs are appended to the value log, indexed by
    timestamp, and pushed in log order to the sorter.  The sorter reports a commit
    timestamp only after every prewrite ahead of it in the queue has been matched or
    resolved.  The reported timestamp becomes `maxCommitTS`, the bound up to which
    pullers stream commits.

    The protocol is a state machine over the steps of the concurrent parties:
    transactions, the index writer, the sorter, the resolver, the collector of
    garbage, a puller, and a crash of the process.  A value pointer is the position
    of the record in write order.
 */
module PumpProtocol {
  import opened Collections

  datatype Kind = Prewrite | Commit | Rollback

  datatype Binlog = Binlog(kind: Kind, start: int, commit: int) {
    /** The timestamp a record is indexed under. */
    function Ts(): int {
      if kind.Prewrite? then start else commit
    }
  }

  /** A sort item, with the log position of its record. */
  datatype Item = Item(binlog: Binlog, pos: nat)

  /** How long a transaction may last before garbage collection may drop its P binlog:
      600 seconds, as a difference of timestamps. */
  const TXN_WINDOW: int := 600 * 1000 * 262144

  // ---------------------------------------------------------------- the sorter

  /** `front` is the prewrite that `run` has taken off the queue and waits for. */
  datatype SorterState = SorterState(wait: set<int>, items: seq<Item>, front: Option<Item>, maxTS: int)

  const EMPTY_SORTER := SorterState({}, [], None, 0)

  function Push(s: SorterState, item: Item): SorterState {
    s.(wait := if item.binlog.kind.Prewrite? then s.wait + {item.binlog.start} else s.wait - {item.binlog.start},
       items := s.items + [item])
  }

  function Take(s: SorterState): SorterState
    requires s.items != []
  {
    var item := s.items[0];
    if item.binlog.kind.Prewrite? then
      s.(items := s.items[1..], front := Some(item))
    else
      s.(items := s.items[1..], maxTS := if item.binlog.commit > s.maxTS then item.binlog.commit else s.maxTS)
  }

  /** Whether taking the first item reports its commit timestamp. */
  predicate Reports(s: SorterState)
    requires s.items != []
  {
    !s.items[0].binlog.kind.Prewrite? && s.items[0].binlog.commit > s.maxTS
  }

  // ---------------------------------------------------------------- the system

  /** `at` is the position of a P binlog logged before the commit timestamp was allotted. */
  datatype Status = Active | Committing(ts: int, at: nat) | Committed(ts: int, at: nat) | RolledBack {
    predicate HasTs() {
      Committing? || Committed?
    }
  }

  /** `here` says the transaction sends its P binlog to this pump. */
  datatype Txn = Txn(here: bool, status: Status)

  /** The durable part and the transactions it serves: the timestamp oracle, the value
      log, and the index with its collected part.  `kvHigh` counts the records ever indexed. */
  datatype Store = Store(
    now: int, txns: map<int, Txn>, fakes: set<int>,
    log: seq<Binlog>, index: map<int, nat>, head: nat, kvHigh: nat, gcTS: int)

  /** The stream from the index writer (next at `kvNext`) through the sorter; since the last
      start it has come from position `base` on. */
  datatype Queue = Queue(base: nat, kvNext: nat, toSorter: seq<nat>, sorter: SorterState)

  /** Reported items, and what `handleSortItem` has made of them. */
  datatype Out = Out(reports: seq<Item>, history: seq<int>, maxCommitTS: int, toSave: Option<Item>,
                     savedHandle: nat, savedMax: int)

  /** `start` is where the iteration began. */
  datatype Iter = Iter(snap: map<int, nat>, start: int, cursor: int, limit: int)

  datatype Puller = Off | On(from: int, last: int, emitted: seq<int>, iter: Option<Iter>)

  datatype Pump = Pump(st: Store, q: Queue, out: Out, puller: Puller)

  function Init(): Pump {
    Pump(Store(0, map[], {}, [], map[], 0, 0, 0), Queue(0, 0, [], EMPTY_SORTER), Out([], [], 0, None, 0, 0), Off)
  }

  datatype Step =
    | Begin(ts: int, here: bool)
    | LogPrewrite(start: int)
    | AllotCommit(start: int, ts: int, at: nat)
    | CommitTxn(start: int)
    | Abort(start: int)
    | LogCommit(start: int)
    | LogRollback(start: int)
    | AllotFake(ts: int)
    | LogFake(ts: int)
    | KvWrite(again: bool)
    | SorterPush
    | SorterTake
    | SorterPass
    | Resolve(pos: nat)
    | HandleReport
    | PersistHandle
    | Gc(ts: int)
    | GcDelete(key: int)
    | PullStart(last: int)
    | PullIter(limit: int)
    | PullNext(key: int)
    | PullEnd
    | PullStop
    | Crash

  predicate NextKey(it: Iter, key: int) {
    && key in it.snap && it.cursor < key < it.limit
    && forall k :: k in it.snap && it.cursor < k ==> key <= k
  }

  /** What two-phase commit and the timestamp oracle guarantee of the steps of transactions. */
  predicate TxnStepEnabled(st: Store, a: Step) {
    match a
    case Begin(ts, _) => st.now < ts
    case LogPrewrite(start) =>
      start in st.txns && st.txns[start].here && (st.txns[start].status.Active? || Binlog(Prewrite, start, 0) in st.log)
    case AllotCommit(start, ts, at) =>
      && st.now < ts && start in st.txns && st.txns[start].status.Active?
      && (st.txns[start].here ==> at < |st.log| && st.log[at] == Binlog(Prewrite, start, 0))
    case CommitTxn(start) => start in st.txns && st.txns[start].status.Committing?
    case Abort(start) => start in st.txns && (st.txns[start].status.Active? || st.txns[start].status.Committing?)
    case LogCommit(start) => start in st.txns && st.txns[start].status.Committed?
    case LogRollback(start) => start in st.txns && st.txns[start].status.RolledBack?
    case AllotFake(ts) => st.now < ts
    case LogFake(ts) => ts in st.fakes
    case _ => false
  }

  predicate Enabled(s: Pump, a: Step) {
    match a
    case KvWrite(again) => if again then s.q.base < s.q.kvNext <= |s.st.log| else s.q.kvNext < |s.st.log|
    case SorterPush => s.q.toSorter != [] && s.q.toSorter[0] < |s.st.log|
    case SorterTake => s.q.sorter.items != [] && s.q.sorter.front.None?
    case SorterPass => s.q.sorter.front.Some? && s.q.sorter.front.value.binlog.start !in s.q.sorter.wait
    case Resolve(pos) => s.q.sorter.front.Some? && CanResolve(s.st, s.q.sorter.front.value.binlog.start, pos)
    case HandleReport => s.out.reports != []
    case PersistHandle => s.out.toSave.Some?
    case Gc(ts) => TXN_WINDOW <= ts
    case GcDelete(key) => key in s.st.index && key <= s.st.gcTS - TXN_WINDOW
    case PullStart(last) => s.puller.Off?
    case PullIter(limit) => s.puller.On? && s.puller.iter.None? && s.puller.last < limit <= s.out.maxCommitTS + 1
    case PullNext(key) => s.puller.On? && s.puller.iter.Some? && NextKey(s.puller.iter.value, key)
                          && s.puller.iter.value.snap[key] < |s.st.log|
    case PullEnd => s.puller.On? && s.puller.iter.Some? && forall k :: k in s.puller.iter.value.snap ==> !NextKey(s.puller.iter.value, k)
    case PullStop => s.puller.On?
    case Crash => true
    case _ => TxnStepEnabled(s.st, a)
  }

  /** The resolver can answer for a transaction once it is decided, and for a committed
      one after its commit binlog is in the log (at `pos`). */
  predicate CanResolve(st: Store, start: int, pos: nat) {
    && start in st.txns
    && (|| st.txns[start].status.RolledBack?
        || (st.txns[start].status.Committed? && pos < |st.log| && st.log[pos] == Binlog(Commit, start, st.txns[start].status.ts)))
  }

  function Append(st: Store, b: Binlog): Store {
    st.(log := st.log + [b])
  }

  function SetStatus(st: Store, start: int, status: Status): Store
    requires start in st.txns
  {
    st.(txns := st.txns[start := st.txns[start].(status := status)])
  }

  function TxnStep(st: Store, a: Step): Store
    requires TxnStepEnabled(st, a)
  {
    match a
    case Begin(ts, here) => st.(now := ts, txns := st.txns[ts := Txn(here, Active)])
    case LogPrewrite(start) => Append(st, Binlog(Prewrite, start, 0))
    case AllotCommit(start, ts, at) => SetStatus(st.(now := ts), start, Committing(ts, at))
    case CommitTxn(start) => SetStatus(st, start, Committed(st.txns[start].status.ts, st.txns[start].status.at))
    case Abort(start) => SetStatus(st, start, RolledBack)
    case LogCommit(start) => Append(st, Binlog(Commit, start, st.txns[start].status.ts))
    case LogRollback(start) => Append(st, Binlog(Rollback, start, 0))
    case AllotFake(ts) => st.(now := ts, fakes := st.fakes + {ts})
    case LogFake(ts) => Append(st, Binlog(Rollback, ts, ts))
  }

  function Apply(s: Pump, a: Step): Pump
    requires Enabled(s, a)
  {
    match a
    case KvWrite(again) => KvWriteAt(s, if again then s.q.kvNext - 1 else s.q.kvNext)
    case SorterPush =>
      var pos := s.q.toSorter[0];
      s.(q := s.q.(toSorter := s.q.toSorter[1..], sorter := Push(s.q.sorter, Item(s.st.log[pos], pos))))
    case SorterTake => s.(q := s.q.(sorter := Take(s.q.sorter)), out := Report(s.out, s.q.sorter))
    case SorterPass => s.(q := s.q.(sorter := s.q.sorter.(front := None)))
    case Resolve(pos) =>
      var start := s.q.sorter.front.value.binlog.start;
      s.(st := IndexResolved(s.st, start, pos), q := s.q.(sorter := Release(s.q.sorter, start)))
    case HandleReport => s.(out := Handle(s.out.(reports := s.out.reports[1..]), s.out.reports[0]))
    case PersistHandle => s.(out := Persist(s.out, s.st.index, s.out.toSave.value.binlog.commit).(toSave := None))
    case Gc(ts) => if s.st.gcTS < ts < s.out.maxCommitTS then s.(st := s.st.(gcTS := ts)) else s
    case GcDelete(key) => s.(st := s.st.(index := s.st.index - {key}))
    case PullStart(last) =>
      var from := if last < s.st.gcTS then s.st.gcTS else last;
      s.(puller := On(from, from, [], None))
    case PullIter(limit) => s.(puller := s.puller.(iter := Some(Iter(s.st.index, s.puller.last, s.puller.last, limit))))
    case PullNext(key) => s.(puller := PullKey(s.st, s.puller, key))
    case PullEnd => s.(puller := s.puller.(iter := None))
    case PullStop => s.(puller := Off)
    case Crash => Restart(s)
    case _ => s.(st := TxnStep(s.st, a))
  }

  /** The index writer stores one record, moves the head pointer and passes the record on. */
  function KvWriteAt(s: Pump, pos: nat): Pump
    requires pos < |s.st.log|
  {
    s.(st := IndexRecord(s.st, pos),
       q := s.q.(kvNext := if pos == s.q.kvNext then pos + 1 else s.q.kvNext, toSorter := s.q.toSorter + [pos]))
  }

  function IndexRecord(st: Store, pos: nat): Store
    requires pos < |st.log|
  {
    st.(index := st.index[st.log[pos].Ts() := pos], head := pos, kvHigh := if pos == st.kvHigh then pos + 1 else st.kvHigh)
  }

  /** The resolver puts a commit binlog into the index itself, before it lets the prewrite go. */
  function IndexResolved(st: Store, start: int, pos: nat): Store
    requires start in st.txns
  {
    if st.txns[start].status.Committed? then st.(index := st.index[st.txns[start].status.ts := pos]) else st
  }

  function Release(s: SorterState, start: int): SorterState {
    s.(wait := s.wait - {start}, front := None)
  }

  function Report(out: Out, s: SorterState): Out
    requires s.items != []
  {
    if Reports(s) then
      out.(reports := out.reports + [s.items[0]], history := out.history + [s.items[0].binlog.commit])
    else out
  }

  /** One iteration of `handleSortItem`. */
  function Handle(out: Out, item: Item): Out {
    if item.binlog.commit < out.maxCommitTS then out
    else out.(maxCommitTS := item.binlog.commit, toSave := Some(item))
  }

  /** `persistHandlePointer`: the handle pointer is whatever the index holds for the commit
      timestamp; without an entry nothing is saved. */
  function Persist(out: Out, index: map<int, nat>, commit: int): Out {
    if commit in index then out.(savedMax := commit, savedHandle := index[commit]) else out
  }

  /** A key of the iteration is sent unless it is a prewrite, or a commit without indexed prewrite. */
  predicate Deliverable(st: Store, snap: map<int, nat>, key: int) {
    && key in snap && snap[key] < |st.log|
    && var b := st.log[snap[key]]; !b.kind.Prewrite? && (b.commit == b.start || b.start in st.index)
  }

  /** One key of a pull iteration.  Prewrites are passed over, and so is a commit whose
      P binlog is not indexed. */
  function PullKey(st: Store, p: Puller, key: int): Puller
    requires p.On? && p.iter.Some? && key in p.iter.value.snap
    requires p.iter.value.snap[key] < |st.log|
  {
    var moved := p.(iter := Some(p.iter.value.(cursor := key)));
    if Deliverable(st, p.iter.value.snap, key) then moved.(emitted := p.emitted + [key], last := key) else moved
  }

  function ReplayFrom(s: Pump): nat {
    if s.out.savedHandle < s.st.head then s.out.savedHandle else s.st.head
  }

  /** The process dies and starts again: channels and the sorter are lost, and the log is
      replayed from the smaller of the head and the handle pointer. */
  function Restart(s: Pump): Pump {
    s.(q := Queue(ReplayFrom(s), ReplayFrom(s), [], EMPTY_SORTER),
       out := Out([], [], s.out.savedMax, None, s.out.savedHandle, s.out.savedMax),
       puller := Off)
  }

  // ---------------------------------------------------------------- invariants

  ghost predicate EnvInv(st: Store) {
    && 0 <= st.now
    && (forall t :: t in st.txns ==> 0 < t <= st.now)
    && (forall t :: t in st.txns && st.txns[t].status.HasTs() ==> t < st.txns[t].status.ts <= st.now)
    && (forall f :: f in st.fakes ==> 0 < f <= st.now && f !in st.txns)
    && (forall t :: t in st.txns && st.txns[t].status.HasTs() ==> st.txns[t].status.ts !in st.txns && st.txns[t].status.ts !in st.fakes)
    && (forall t, u :: t in st.txns && u in st.txns && t != u && st.txns[t].status.HasTs() && st.txns[u].status.HasTs()
                       ==> st.txns[t].status.ts != st.txns[u].status.ts)
  }

  predicate RecordOk(st: Store, b: Binlog) {
    match b.kind
    case Prewrite => b.start in st.txns && st.txns[b.start].here && b.commit == 0
    case Commit => b.start in st.txns && st.txns[b.start].status.Committed? && st.txns[b.start].status.ts == b.commit
    case Rollback => (b.start == b.commit && b.start in st.fakes)
                     || (b.commit == 0 && b.start in st.txns && st.txns[b.start].status.RolledBack?)
  }

  /** The transaction was prewritten on this pump and has a commit timestamp of at most `c`. */
  predicate CommitsBy(st: Store, t: int, c: int) {
    t in st.txns && st.txns[t].here && st.txns[t].status.HasTs() && st.txns[t].status.ts <= c
  }

  /** The last clause is what ties the log order to the timestamp order: a record with commit
      timestamp `c` lies after the prewrite of every transaction that commits by `c`. */
  ghost predicate LogInv(st: Store) {
    && (forall p :: 0 <= p < |st.log| ==> RecordOk(st, st.log[p]))
    && (forall t :: CommitsBy(st, t, st.now) ==>
          st.txns[t].status.at < |st.log| && st.log[st.txns[t].status.at] == Binlog(Prewrite, t, 0))
    && (forall q, t :: 0 <= q < |st.log| && !st.log[q].kind.Prewrite? && CommitsBy(st, t, st.log[q].commit)
                       ==> st.txns[t].status.at < q)
  }

  predicate Collected(st: Store, ts: int) {
    ts <= st.gcTS - TXN_WINDOW
  }

  predicate Indexed(st: Store, ts: int) {
    ts in st.index || Collected(st, ts)
  }

  ghost predicate IndexInv(st: Store) {
    && st.kvHigh <= |st.log|
    && (st.head < st.kvHigh || st.head == 0)
    && (forall p :: 0 <= p < st.kvHigh ==> Indexed(st, st.log[p].Ts()))
    && (forall k :: k in st.index ==> st.index[k] < |st.log| && st.log[st.index[k]].Ts() == k)
    && 0 <= st.gcTS
  }

  ghost predicate StoreInv(st: Store) {
    EnvInv(st) && LogInv(st) && IndexInv(st)
  }

  /** The transaction is decided, and its commit binlog is indexed if it committed. */
  predicate Settled(st: Store, start: int) {
    && start in st.txns
    && (st.txns[start].status.RolledBack? || (st.txns[start].status.Committed? && Indexed(st, st.txns[start].status.ts)))
  }

  /** Every prewrite logged from `low` up to `high` is settled. */
  ghost predicate SettledFrom(st: Store, low: nat, high: int) {
    && high <= |st.log|
    && forall p :: low <= p < high && st.log[p].kind.Prewrite? ==> Settled(st, st.log[p].start)
  }

  ghost predicate SettledBefore(st: Store, pos: int) {
    SettledFrom(st, 0, pos)
  }

  /** A replay from `base` meets the position before any record with a commit timestamp at or above
      that of the transaction. */
  ghost predicate MetInTime(st: Store, base: nat, t: int, pos: nat)
    requires t in st.txns && pos <= |st.log|
  {
    st.txns[t].status.HasTs() ==>
      forall q :: base <= q < pos && !st.log[q].kind.Prewrite? ==> st.log[q].commit < st.txns[t].status.ts
  }

  /** A replay from `base` takes account of the transaction: it is settled, or its prewrite or
      commit binlog is met in time. */
  ghost predicate Shielded(st: Store, base: nat, t: int) {
    && t in st.txns
    && (Settled(st, t) || exists p :: base <= p < |st.log| && st.log[p].start == t && MetInTime(st, base, t, p))
  }

  /** The condition for a restart: the replay takes account of every transaction whose prewrite
      lies before it. */
  ghost predicate Recoverable(st: Store, base: nat) {
    && base <= |st.log|
    && forall p :: 0 <= p < base && st.log[p].kind.Prewrite? ==> Shielded(st, base, st.log[p].start)
  }

  /** Every transaction prewritten on this pump with commit timestamp at most `c` has
      committed, and its commit binlog is in the index. */
  ghost predicate Complete(st: Store, c: int) {
    && c <= st.now
    && forall t :: CommitsBy(st, t, c) ==>
         st.txns[t].status.Committed? && Indexed(st, st.txns[t].status.ts) && st.txns[t].status.at < st.kvHigh
  }

  /** Log positions the sorter has not finished with, oldest first. */
  function Pending(q: Queue): seq<nat> {
    (if q.sorter.front.Some? then [q.sorter.front.value.pos] else [])
    + seq(|q.sorter.items|, i requires 0 <= i < |q.sorter.items| => q.sorter.items[i].pos)
    + q.toSorter
  }

  /** Everything before this position has gone through the sorter. */
  function Frontier(q: Queue): nat {
    if Pending(q) == [] then q.kvNext else Pending(q)[0]
  }

  /** Consecutive entries repeat a position or go on to the next, up to `end - 1`. */
  ghost predicate Stutter(ps: seq<nat>, end: int) {
    && (forall i :: 0 <= i < |ps| - 1 ==> ps[i] <= ps[i + 1] <= ps[i] + 1)
    && (ps != [] ==> ps[|ps| - 1] == end - 1)
  }

  predicate ItemOk(st: Store, item: Item) {
    item.pos < st.kvHigh && item.pos < |st.log| && item.binlog == st.log[item.pos]
  }

  predicate WaitedFor(st: Store, wait: set<int>, item: Item) {
    item.binlog.kind.Prewrite? ==> item.binlog.start in wait || Settled(st, item.binlog.start)
  }

  ghost predicate SorterInv(st: Store, sorter: SorterState) {
    && (forall i :: 0 <= i < |sorter.items| ==> ItemOk(st, sorter.items[i]) && WaitedFor(st, sorter.wait, sorter.items[i]))
    && (sorter.front.Some? ==> sorter.front.value.binlog.kind.Prewrite?
                               && ItemOk(st, sorter.front.value) && WaitedFor(st, sorter.wait, sorter.front.value))
    && 0 <= sorter.maxTS
  }

  ghost predicate QueueInv(st: Store, q: Queue) {
    && q.base <= Frontier(q) && q.base <= q.kvNext <= st.kvHigh
    && Stutter(Pending(q), q.kvNext)
    && SorterInv(st, q.sorter)
    && SettledFrom(st, q.base, Frontier(q))
  }

  ghost predicate ReportOk(st: Store, base: nat, item: Item) {
    Complete(st, item.binlog.commit) && SettledFrom(st, base, item.pos)
  }

  ghost predicate OutInv(st: Store, base: nat, out: Out) {
    && (forall i :: 0 <= i < |out.reports| ==> ReportOk(st, base, out.reports[i]))
    && Complete(st, out.maxCommitTS)
    && (out.toSave.Some? ==> ReportOk(st, base, out.toSave.value) && out.toSave.value.binlog.commit == out.maxCommitTS)
    && Complete(st, out.savedMax) && 0 <= out.savedMax <= out.maxCommitTS
  }

  /** Reports since the last start increase strictly. */
  ghost predicate HistoryInv(out: Out, maxTS: int) {
    && (forall i, j :: 0 <= i < j < |out.history| ==> out.history[i] < out.history[j])
    && (forall i :: 0 <= i < |out.history| ==> 0 < out.history[i] <= maxTS)
  }

  /** Every transaction prewritten here with commit timestamp in `(from, upto]` was
      streamed, unless its P binlog is old enough to have been collected. */
  ghost predicate Covered(st: Store, from: int, upto: int, emitted: seq<int>) {
    forall t :: CommitsBy(st, t, upto) && from < st.txns[t].status.ts ==> st.txns[t].status.ts in emitted || Collected(st, t)
  }

  /** A snapshot of the index that misses no transaction below its limit. */
  ghost predicate SnapInv(st: Store, it: Iter) {
    && it.limit - 1 <= st.now
    && (forall k :: k in it.snap ==> it.snap[k] < |st.log| && st.log[it.snap[k]].Ts() == k)
    && (forall t :: CommitsBy(st, t, it.limit - 1) ==>
          (st.txns[t].status.ts in it.snap || Collected(st, st.txns[t].status.ts)) && st.txns[t].status.at < st.kvHigh)
  }

  ghost predicate Increasing(s: seq<int>) {
    forall i, j :: 0 <= i < j < |s| ==> s[i] < s[j]
  }

  /** A commit or fake binlog with this commit timestamp is in the log. */
  ghost predicate IsCommit(st: Store, c: int) {
    exists p :: 0 <= p < |st.log| && !st.log[p].kind.Prewrite? && st.log[p].commit == c
  }

  /** How far the stream is known to be complete. */
  function Reach(p: Puller): int
    requires p.On?
  {
    if p.iter.Some? then p.iter.value.cursor else p.last
  }

  ghost predicate PullInv(st: Store, p: Puller) {
    p.On? ==>
      && 0 <= p.from <= p.last <= Reach(p)
      && (Reach(p) <= st.now || Reach(p) == p.from)
      && (p.emitted == [] ==> p.last == p.from)
      && (p.emitted != [] ==> p.last == p.emitted[|p.emitted| - 1])
      && (forall i :: 0 <= i < |p.emitted| ==> p.from < p.emitted[i] <= p.last && IsCommit(st, p.emitted[i]))
      && Increasing(p.emitted)
      && Covered(st, p.from, Reach(p), p.emitted)
      && (p.iter.Some? ==> SnapInv(st, p.iter.value))
  }

  ghost predicate Core(s: Pump) {
    && StoreInv(s.st)
    && QueueInv(s.st, s.q)
    && Recoverable(s.st, s.q.base)
    && OutInv(s.st, s.q.base, s.out)
    && HistoryInv(s.out, s.q.sorter.maxTS)
    && PullInv(s.st, s.puller)
  }

  // ---------------------------------------------------------------- what steps keep

  /** What every step keeps of what was already decided. */
  ghost predicate Extends(st: Store, st': Store) {
    && st.now <= st'.now && st.log <= st'.log && st.kvHigh <= st'.kvHigh && st.gcTS <= st'.gcTS
    && (forall t :: t in st.txns ==> t in st'.txns && st'.txns[t].here == st.txns[t].here && Later(st.txns[t].status, st'.txns[t].status, st.now))
    && (forall t :: t in st'.txns && t !in st.txns ==> st'.txns[t].status.Active?)
    && (forall ts :: ts in st.index ==> Indexed(st', ts))
  }

  predicate Later(x: Status, y: Status, now: int) {
    match x
    case Active => y.Active? || y.RolledBack? || (y.Committing? && now < y.ts)
    case Committing(ts, at) => y == x || y.RolledBack? || y == Committed(ts, at)
    case Committed(_, _) => y == x
    case RolledBack => y == x
  }

  lemma SettledStable(st: Store, st': Store, start: int)
    requires Extends(st, st') && Settled(st, start)
    ensures Settled(st', start)
  {
  }

  lemma SettledFromStable(st: Store, st': Store, low: nat, high: int)
    requires Extends(st, st') && SettledFrom(st, low, high)
    ensures SettledFrom(st', low, high)
  {
    forall p | low <= p < high && st'.log[p].kind.Prewrite? ensures Settled(st', st'.log[p].start) {
      assert st'.log[p] == st.log[p];
      SettledStable(st, st', st.log[p].start);
    }
  }

  /** A transaction cannot get a commit timestamp in the past. */
  lemma CommitsByStable(st: Store, st': Store, t: int, c: int)
    requires Extends(st, st') && CommitsBy(st', t, c) && c <= st.now
    ensures CommitsBy(st, t, c) && st.txns[t].status.ts == st'.txns[t].status.ts && st.txns[t].status.at == st'.txns[t].status.at
    ensures st.txns[t].status.Committed? ==> st'.txns[t].status.Committed?
  {
  }

  lemma CompleteStable(st: Store, st': Store, c: int)
    requires Extends(st, st') && Complete(st, c)
    ensures Complete(st', c)
  {
    forall t | CommitsBy(st', t, c)
      ensures st'.txns[t].status.Committed? && Indexed(st', st'.txns[t].status.ts) && st'.txns[t].status.at < st'.kvHigh
    {
      CommitsByStable(st, st', t, c);
    }
  }

  lemma CoveredStable(st: Store, st': Store, from: int, upto: int, emitted: seq<int>)
    requires Extends(st, st') && Covered(st, from, upto, emitted) && (upto <= st.now || upto == from)
    ensures Covered(st', from, upto, emitted)
  {
    forall t | CommitsBy(st', t, upto) && from < st'.txns[t].status.ts
      ensures st'.txns[t].status.ts in emitted || Collected(st', t)
    {
      CommitsByStable(st, st', t, upto);
    }
  }

  lemma SnapStable(st: Store, st': Store, it: Iter)
    requires Extends(st, st') && SnapInv(st, it)
    ensures SnapInv(st', it)
  {
    forall t | CommitsBy(st', t, it.limit - 1)
      ensures (st'.txns[t].status.ts in it.snap || Collected(st', st'.txns[t].status.ts)) && st'.txns[t].status.at < st'.kvHigh
    {
      CommitsByStable(st, st', t, it.limit - 1);
    }
  }

  /** What is met in time stays met in time: a timestamp allotted later is above every record. */
  lemma KeepShielded(st: Store, st': Store, base: nat, t: int)
    requires EnvInv(st) && LogInv(st) && Extends(st, st') && Shielded(st, base, t)
    ensures Shielded(st', base, t)
  {
    if Settled(st, t) {
      SettledStable(st, st', t);
    } else if !st'.txns[t].status.RolledBack? {
      var p :| base <= p < |st.log| && st.log[p].start == t && MetInTime(st, base, t, p);
      assert st'.log[p] == st.log[p];
      forall q | base <= q < p && !st'.log[q].kind.Prewrite? && st'.txns[t].status.HasTs()
        ensures st'.log[q].commit < st'.txns[t].status.ts
      {
        assert st'.log[q] == st.log[q];
        RecordsInPast(st, q);
      }
    }
  }

  lemma KeepRecoverable(st: Store, st': Store, base: nat)
    requires EnvInv(st) && LogInv(st) && Extends(st, st') && Recoverable(st, base)
    ensures Recoverable(st', base)
  {
    forall p | 0 <= p < base && st'.log[p].kind.Prewrite? ensures Shielded(st', base, st'.log[p].start) {
      assert st'.log[p] == st.log[p];
      KeepShielded(st, st', base, st.log[p].start);
    }
  }

  lemma KeepSorter(st: Store, st': Store, sorter: SorterState)
    requires SorterInv(st, sorter) && Extends(st, st')
    ensures SorterInv(st', sorter)
  {
    forall i | 0 <= i < |sorter.items| ensures WaitedFor(st', sorter.wait, sorter.items[i]) {
      assert WaitedFor(st, sorter.wait, sorter.items[i]);
    }
  }

  lemma KeepQueue(st: Store, st': Store, q: Queue)
    requires QueueInv(st, q) && Extends(st, st')
    ensures QueueInv(st', q)
  {
    KeepSorter(st, st', q.sorter);
    SettledFromStable(st, st', q.base, Frontier(q));
  }

  lemma KeepReport(st: Store, st': Store, base: nat, item: Item)
    requires ReportOk(st, base, item) && Extends(st, st')
    ensures ReportOk(st', base, item)
  {
    CompleteStable(st, st', item.binlog.commit);
    SettledFromStable(st, st', base, item.pos);
  }

  lemma KeepOut(st: Store, st': Store, base: nat, out: Out)
    requires OutInv(st, base, out) && Extends(st, st')
    ensures OutInv(st', base, out)
  {
    forall i | 0 <= i < |out.reports| ensures ReportOk(st', base, out.reports[i]) {
      KeepReport(st, st', base, out.reports[i]);
    }
    CompleteStable(st, st', out.maxCommitTS);
    CompleteStable(st, st', out.savedMax);
    if out.toSave.Some? {
      KeepReport(st, st', base, out.toSave.value);
    }
  }

  lemma IsCommitStable(st: Store, st': Store, c: int)
    requires Extends(st, st') && IsCommit(st, c)
    ensures IsCommit(st', c)
  {
    var p :| 0 <= p < |st.log| && !st.log[p].kind.Prewrite? && st.log[p].commit == c;
    assert st'.log[p] == st.log[p];
  }

  lemma KeepPuller(st: Store, st': Store, p: Puller)
    requires PullInv(st, p) && Extends(st, st')
    ensures PullInv(st', p)
  {
    if p.On? {
      forall i | 0 <= i < |p.emitted| ensures IsCommit(st', p.emitted[i]) {
        IsCommitStable(st, st', p.emitted[i]);
      }
      CoveredStable(st, st', p.from, Reach(p), p.emitted);
      if p.iter.Some? {
        SnapStable(st, st', p.iter.value);
      }
    }
  }

  lemma StoreKeeps(s: Pump, st': Store)
    requires Core(s) && StoreInv(st') && Extends(s.st, st')
    ensures Core(s.(st := st'))
  {
    KeepQueue(s.st, st', s.q);
    KeepRecoverable(s.st, st', s.q.base);
    KeepOut(s.st, st', s.q.base, s.out);
    KeepPuller(s.st, st', s.puller);
  }

  // ---------------------------------------------------------------- transactions

  lemma SetStatusKeeps(st: Store, start: int, status: Status)
    requires EnvInv(st) && start in st.txns && Later(st.txns[start].status, status, st.now)
    requires status.Committing? ==> status == st.txns[start].status
    ensures EnvInv(SetStatus(st, start, status)) && Extends(st, SetStatus(st, start, status))
  {
    SetStatusEnv(st, start, status);
  }

  lemma SetStatusEnv(st: Store, start: int, status: Status)
    requires EnvInv(st) && start in st.txns
    requires status.HasTs() ==> st.txns[start].status.HasTs() && st.txns[start].status.ts == status.ts
    ensures EnvInv(SetStatus(st, start, status))
  {
    var st' := SetStatus(st, start, status);
    assert st'.txns.Keys == st.txns.Keys;
    assert forall t :: t in st.txns && st'.txns[t].status.HasTs() ==>
             st.txns[t].status.HasTs() && st'.txns[t].status.ts == st.txns[t].status.ts;
  }

  lemma AllotCommitEnv(st: Store, start: int, ts: int, at: nat)
    requires EnvInv(st) && start in st.txns && st.now < ts
    ensures EnvInv(SetStatus(st.(now := ts), start, Committing(ts, at)))
  {
    var st' := SetStatus(st.(now := ts), start, Committing(ts, at));
    assert st'.txns.Keys == st.txns.Keys;
    assert forall t :: t in st.txns && t != start ==> st'.txns[t] == st.txns[t];
  }

  lemma AllotCommitKeeps(st: Store, start: int, ts: int, at: nat)
    requires EnvInv(st) && start in st.txns && st.txns[start].status.Active? && st.now < ts
    ensures var st' := SetStatus(st.(now := ts), start, Committing(ts, at)); EnvInv(st') && Extends(st, st')
  {
    AllotCommitEnv(st, start, ts, at);
    AllotCommitExtends(st, start, ts, at);
  }

  lemma AllotCommitExtends(st: Store, start: int, ts: int, at: nat)
    requires start in st.txns && st.txns[start].status.Active? && st.now < ts
    ensures Extends(st, SetStatus(st.(now := ts), start, Committing(ts, at)))
  {
  }

  lemma BeginKeeps(st: Store, ts: int, here: bool)
    requires EnvInv(st) && st.now < ts
    ensures var st' := st.(now := ts, txns := st.txns[ts := Txn(here, Active)]); EnvInv(st') && Extends(st, st')
  {
  }

  lemma AppendExtends(st: Store, b: Binlog)
    requires EnvInv(st)
    ensures EnvInv(Append(st, b)) && Extends(st, Append(st, b))
  {
  }

  lemma AllotFakeKeeps(st: Store, ts: int)
    requires EnvInv(st) && TxnStepEnabled(st, AllotFake(ts))
    ensures EnvInv(TxnStep(st, AllotFake(ts))) && Extends(st, TxnStep(st, AllotFake(ts)))
  {
  }

  lemma TxnExtends(st: Store, a: Step)
    requires EnvInv(st) && TxnStepEnabled(st, a)
    ensures EnvInv(TxnStep(st, a)) && Extends(st, TxnStep(st, a))
  {
    match a
    case Begin(ts, here) => BeginKeeps(st, ts, here);
    case AllotCommit(start, ts, at) => AllotCommitKeeps(st, start, ts, at);
    case CommitTxn(start) => SetStatusKeeps(st, start, Committed(st.txns[start].status.ts, st.txns[start].status.at));
    case Abort(start) => SetStatusKeeps(st, start, RolledBack);
    case AllotFake(ts) => AllotFakeKeeps(st, ts);
    case LogPrewrite(start) => AppendExtends(st, Binlog(Prewrite, start, 0));
    case LogCommit(start) => AppendExtends(st, Binlog(Commit, start, st.txns[start].status.ts));
    case LogRollback(start) => AppendExtends(st, Binlog(Rollback, start, 0));
    case LogFake(ts) => AppendExtends(st, Binlog(Rollback, ts, ts));
  }

  lemma AppendKeeps(st: Store, b: Binlog)
    requires LogInv(st) && RecordOk(st, b) && b.commit <= st.now
    ensures LogInv(Append(st, b))
  {
    var st' := Append(st, b);
    forall q, t | 0 <= q < |st'.log| && !st'.log[q].kind.Prewrite? && CommitsBy(st', t, st'.log[q].commit)
      ensures st'.txns[t].status.at < q
    {
      if q < |st.log| {
        assert st'.log[q] == st.log[q] && CommitsBy(st, t, st.log[q].commit);
      } else {
        assert CommitsBy(st, t, st.now);
      }
    }
  }

  /** A record's commit timestamp was allotted before, so no transaction that gets its
      timestamp now can commit by it. */
  lemma RecordsInPast(st: Store, q: nat)
    requires EnvInv(st) && LogInv(st) && q < |st.log|
    ensures st.log[q].commit <= st.now
  {
    assert RecordOk(st, st.log[q]);
  }

  lemma TxnLogKeeps(st: Store, a: Step)
    requires EnvInv(st) && LogInv(st) && TxnStepEnabled(st, a)
    requires !a.LogPrewrite? && !a.LogCommit? && !a.LogRollback? && !a.LogFake?
    ensures LogInv(TxnStep(st, a))
  {
    var st' := TxnStep(st, a);
    assert st'.log == st.log;
    TxnExtends(st, a);
    forall p | 0 <= p < |st.log| ensures RecordOk(st', st.log[p]) {
      assert RecordOk(st, st.log[p]);
    }
    forall q, t | 0 <= q < |st.log| && !st.log[q].kind.Prewrite? && CommitsBy(st', t, st.log[q].commit)
      ensures st'.txns[t].status.at < q
    {
      RecordsInPast(st, q);
      CommitsByStable(st, st', t, st.log[q].commit);
    }
    forall t | CommitsBy(st', t, st'.now)
      ensures st'.txns[t].status.at < |st.log| && st.log[st'.txns[t].status.at] == Binlog(Prewrite, t, 0)
    {
      if t in st.txns && st.txns[t].status.HasTs() {
        assert CommitsBy(st, t, st.now);
      }
    }
  }

  lemma TxnStoreKeeps(st: Store, a: Step)
    requires StoreInv(st) && TxnStepEnabled(st, a)
    ensures StoreInv(TxnStep(st, a)) && Extends(st, TxnStep(st, a))
  {
    TxnExtends(st, a);
    match a
    case LogPrewrite(start) =>
      if Binlog(Prewrite, start, 0) in st.log {
        var p :| 0 <= p < |st.log| && st.log[p] == Binlog(Prewrite, start, 0);
        assert RecordOk(st, st.log[p]);
      }
      AppendKeeps(st, Binlog(Prewrite, start, 0));
    case LogCommit(start) => AppendKeeps(st, Binlog(Commit, start, st.txns[start].status.ts));
    case LogRollback(start) => AppendKeeps(st, Binlog(Rollback, start, 0));
    case LogFake(ts) => AppendKeeps(st, Binlog(Rollback, ts, ts));
    case _ => TxnLogKeeps(st, a);
  }

  // ---------------------------------------------------------------- index writer and sorter

  /** What is said of transactions and log does not depend on the index. */
  lemma LogUntouched(st: Store, st': Store)
    requires EnvInv(st) && LogInv(st)
    requires st'.now == st.now && st'.txns == st.txns && st'.fakes == st.fakes && st'.log == st.log
    ensures EnvInv(st') && LogInv(st')
  {
    forall p | 0 <= p < |st.log| ensures RecordOk(st', st.log[p]) {
      assert RecordOk(st, st.log[p]);
    }
    forall t, c | CommitsBy(st', t, c) ensures CommitsBy(st, t, c) {
    }
  }

  lemma IndexGrows(st: Store, st': Store)
    requires st'.now == st.now && st'.txns == st.txns && st'.log == st.log && st'.gcTS == st.gcTS && st.kvHigh <= st'.kvHigh
    requires forall ts :: ts in st.index ==> ts in st'.index
    ensures Extends(st, st')
  {
  }

  lemma IndexRecordKeeps(st: Store, pos: nat)
    requires StoreInv(st) && pos < |st.log| && pos <= st.kvHigh
    ensures StoreInv(IndexRecord(st, pos)) && Extends(st, IndexRecord(st, pos))
  {
    LogUntouched(st, IndexRecord(st, pos));
    IndexGrows(st, IndexRecord(st, pos));
  }

  lemma StutterExtend(ps: seq<nat>, end: nat, pos: nat)
    requires Stutter(ps, end) && (pos == end || pos == end - 1)
    ensures Stutter(ps + [pos], if pos == end then end + 1 else end)
  {
    var ps' := ps + [pos];
    forall i | 0 <= i < |ps'| - 1 ensures ps'[i] <= ps'[i + 1] <= ps'[i] + 1 {
      if i + 1 < |ps| {
        assert ps[i] <= ps[i + 1] <= ps[i] + 1;
      }
    }
  }

  lemma KvWriteKeeps(s: Pump, pos: nat)
    requires Core(s) && (pos == s.q.kvNext || pos == s.q.kvNext - 1) && s.q.base <= pos < |s.st.log|
    ensures Core(KvWriteAt(s, pos))
  {
    var s' := KvWriteAt(s, pos);
    IndexRecordKeeps(s.st, pos);
    StoreKeeps(s, s'.st);
    KvWriteQueue(s'.st, s.q, pos);
  }

  lemma KvWriteQueue(st: Store, q: Queue, pos: nat)
    requires QueueInv(st, q) && (pos == q.kvNext || pos == q.kvNext - 1) && q.base <= pos < st.kvHigh
    ensures QueueInv(st, q.(kvNext := if pos == q.kvNext then pos + 1 else q.kvNext, toSorter := q.toSorter + [pos]))
  {
    var q' := q.(kvNext := if pos == q.kvNext then pos + 1 else q.kvNext, toSorter := q.toSorter + [pos]);
    assert Pending(q') == Pending(q) + [pos];
    StutterExtend(Pending(q), q.kvNext, pos);
  }

  /** A commit or rollback binlog stops the wait for a prewrite only when that prewrite
      is settled: its record was indexed before it was pushed. */
  lemma PushMatches(st: Store, wait: set<int>, pushed: Item, other: Item)
    requires StoreInv(st) && ItemOk(st, pushed) && ItemOk(st, other)
    requires WaitedFor(st, wait, other)
    requires !pushed.binlog.kind.Prewrite?
    ensures WaitedFor(st, wait - {pushed.binlog.start}, other)
  {
    assert RecordOk(st, st.log[pushed.pos]) && RecordOk(st, st.log[other.pos]);
    assert Indexed(st, st.log[pushed.pos].Ts());
  }

  lemma SorterPushKeeps(st: Store, sorter: SorterState, item: Item)
    requires StoreInv(st) && SorterInv(st, sorter) && ItemOk(st, item)
    ensures SorterInv(st, Push(sorter, item))
  {
    var s' := Push(sorter, item);
    forall i | 0 <= i < |s'.items| ensures ItemOk(st, s'.items[i]) && WaitedFor(st, s'.wait, s'.items[i]) {
      if i < |sorter.items| {
        assert s'.items[i] == sorter.items[i];
        if !item.binlog.kind.Prewrite? {
          PushMatches(st, sorter.wait, item, sorter.items[i]);
        }
      }
    }
    if sorter.front.Some? && !item.binlog.kind.Prewrite? {
      PushMatches(st, sorter.wait, item, sorter.front.value);
    }
  }

  lemma PendingBounded(st: Store, q: Queue, i: nat)
    requires QueueInv(st, q) && i < |Pending(q)|
    ensures Pending(q)[i] < q.kvNext
    decreases |Pending(q)| - i
  {
    if i + 1 < |Pending(q)| {
      PendingBounded(st, q, i + 1);
      assert Pending(q)[i] <= Pending(q)[i + 1];
    }
  }

  /** Pushing moves an item from one queue to the next. */
  lemma PushPending(q: Queue, item: Item)
    requires q.toSorter != [] && q.toSorter[0] == item.pos
    ensures Pending(q.(toSorter := q.toSorter[1..], sorter := Push(q.sorter, item))) == Pending(q)
  {
  }

  lemma PushQueue(st: Store, q: Queue)
    requires StoreInv(st) && QueueInv(st, q) && q.toSorter != [] && q.toSorter[0] < |st.log|
    ensures var pos := q.toSorter[0];
            QueueInv(st, q.(toSorter := q.toSorter[1..], sorter := Push(q.sorter, Item(st.log[pos], pos))))
  {
    var pos := q.toSorter[0];
    var q' := q.(toSorter := q.toSorter[1..], sorter := Push(q.sorter, Item(st.log[pos], pos)));
    PushPending(q, Item(st.log[pos], pos));
    PendingBounded(st, q, |Pending(q)| - |q.toSorter|);
    SorterPushKeeps(st, q.sorter, Item(st.log[pos], pos));
  }

  /** The heart of the protocol: when the sorter is about to report a commit timestamp,
      every transaction prewritten here that commits by it has its commit binlog indexed. */
  lemma ReportComplete(st: Store, q: Queue)
    requires StoreInv(st) && QueueInv(st, q) && Recoverable(st, q.base)
    requires q.sorter.items != [] && q.sorter.front.None? && !q.sorter.items[0].binlog.kind.Prewrite?
    ensures ReportOk(st, q.base, q.sorter.items[0])
  {
    var item := q.sorter.items[0];
    assert Pending(q)[0] == item.pos;
    assert ItemOk(st, item);
    RecordsInPast(st, item.pos);
    forall t | CommitsBy(st, t, item.binlog.commit)
      ensures st.txns[t].status.Committed? && Indexed(st, st.txns[t].status.ts) && st.txns[t].status.at < st.kvHigh
    {
      assert CommitsBy(st, t, st.now);
      var at := st.txns[t].status.at;
      assert at < item.pos;
      if at < q.base {
        assert Shielded(st, q.base, st.log[at].start);
        MetSettles(st, q.base, item.pos, t);
      } else {
        assert Settled(st, st.log[at].start);
      }
    }
  }

  /** By the time a replay reaches a record with a commit timestamp at or above that of a shielded
      transaction, the transaction is settled. */
  lemma MetSettles(st: Store, base: nat, pos: nat, t: int)
    requires StoreInv(st) && Shielded(st, base, t) && SettledFrom(st, base, pos)
    requires base <= pos < st.kvHigh && !st.log[pos].kind.Prewrite? && CommitsBy(st, t, st.log[pos].commit)
    ensures Settled(st, t)
  {
    if p :| base <= p < |st.log| && st.log[p].start == t && MetInTime(st, base, t, p) {
      assert p <= pos;
      assert RecordOk(st, st.log[p]) && Indexed(st, st.log[p].Ts());
    }
  }

  lemma StutterDrop(ps: seq<nat>, end: nat)
    requires ps != [] && Stutter(ps, end)
    ensures Stutter(ps[1..], end)
    ensures var next := if |ps| > 1 then ps[1] else end; next == ps[0] || next == ps[0] + 1
  {
    if |ps| > 1 {
      assert ps[0] <= ps[0 + 1] <= ps[0] + 1;
    }
    forall i | 0 <= i < |ps| - 2 ensures ps[1..][i] <= ps[1..][i + 1] <= ps[1..][i] + 1 {
      assert ps[i + 1] <= ps[i + 1 + 1] <= ps[i + 1] + 1;
    }
  }

  /** The oldest pending record can leave once it is no unsettled prewrite. */
  lemma LeaveQueue(st: Store, q: Queue, q': Queue)
    requires QueueInv(st, q) && Pending(q) != [] && Pending(q') == Pending(q)[1..]
    requires q'.kvNext == q.kvNext && q'.base == q.base
    requires SorterInv(st, q'.sorter)
    requires Pending(q)[0] < |st.log|
    requires st.log[Pending(q)[0]].kind.Prewrite? ==> Settled(st, st.log[Pending(q)[0]].start)
    ensures QueueInv(st, q')
  {
    var ps := Pending(q);
    StutterDrop(ps, q.kvNext);
    PendingBounded(st, q, 0);
    if |ps| > 1 {
      PendingBounded(st, q, 1);
    }
    assert Frontier(q') == if |ps| > 1 then ps[1] else q.kvNext;
  }

  /** A prewrite taken by the sorter is still pending; anything else leaves the queue. */
  lemma TakePending(q: Queue)
    requires q.sorter.items != [] && q.sorter.front.None?
    ensures Pending(q) != [] && Pending(q)[0] == q.sorter.items[0].pos
    ensures Pending(q.(sorter := Take(q.sorter)))
         == if q.sorter.items[0].binlog.kind.Prewrite? then Pending(q) else Pending(q)[1..]
  {
  }

  lemma TakeSorter(st: Store, sorter: SorterState)
    requires SorterInv(st, sorter) && sorter.items != [] && sorter.front.None?
    ensures SorterInv(st, Take(sorter)) && ItemOk(st, sorter.items[0])
  {
  }

  lemma TakeQueue(st: Store, q: Queue)
    requires StoreInv(st) && QueueInv(st, q) && q.sorter.items != [] && q.sorter.front.None?
    ensures QueueInv(st, q.(sorter := Take(q.sorter)))
  {
    var q' := q.(sorter := Take(q.sorter));
    TakePending(q);
    TakeSorter(st, q.sorter);
    if !q.sorter.items[0].binlog.kind.Prewrite? {
      LeaveQueue(st, q, q');
    }
  }

  lemma ReportKeeps(st: Store, base: nat, out: Out, sorter: SorterState)
    requires OutInv(st, base, out) && HistoryInv(out, sorter.maxTS) && sorter.items != [] && 0 <= sorter.maxTS
    requires Reports(sorter) ==> ReportOk(st, base, sorter.items[0])
    ensures OutInv(st, base, Report(out, sorter)) && HistoryInv(Report(out, sorter), Take(sorter).maxTS)
  {
  }

  lemma SorterTakeKeeps(s: Pump)
    requires Core(s) && Enabled(s, SorterTake)
    ensures Core(Apply(s, SorterTake))
  {
    TakeQueue(s.st, s.q);
    if !s.q.sorter.items[0].binlog.kind.Prewrite? {
      ReportComplete(s.st, s.q);
    }
    ReportKeeps(s.st, s.q.base, s.out, s.q.sorter);
  }

  lemma ReleaseQueue(st: Store, q: Queue, wait: set<int>)
    requires QueueInv(st, q) && q.sorter.front.Some? && Settled(st, q.sorter.front.value.binlog.start)
    requires q.sorter.wait - {q.sorter.front.value.binlog.start} <= wait
    ensures QueueInv(st, q.(sorter := q.sorter.(wait := wait, front := None)))
  {
    var q' := q.(sorter := q.sorter.(wait := wait, front := None));
    assert Pending(q') == Pending(q)[1..];
    forall i | 0 <= i < |q.sorter.items| ensures WaitedFor(st, wait, q.sorter.items[i]) {
      assert WaitedFor(st, q.sorter.wait, q.sorter.items[i]);
    }
    assert ItemOk(st, q.sorter.front.value);
    LeaveQueue(st, q, q');
  }

  lemma IndexResolvedKeeps(st: Store, start: int, pos: nat)
    requires StoreInv(st) && CanResolve(st, start, pos)
    ensures StoreInv(IndexResolved(st, start, pos)) && Extends(st, IndexResolved(st, start, pos))
    ensures Settled(IndexResolved(st, start, pos), start)
  {
    LogUntouched(st, IndexResolved(st, start, pos));
    IndexGrows(st, IndexResolved(st, start, pos));
  }

  lemma ResolveKeeps(s: Pump, pos: nat)
    requires Core(s) && Enabled(s, Resolve(pos))
    ensures Core(Apply(s, Resolve(pos)))
  {
    var start := s.q.sorter.front.value.binlog.start;
    IndexResolvedKeeps(s.st, start, pos);
    StoreKeeps(s, IndexResolved(s.st, start, pos));
    ReleaseQueue(IndexResolved(s.st, start, pos), s.q, s.q.sorter.wait - {start});
  }

  // ---------------------------------------------------------------- reports and garbage collection

  lemma HandleKeeps(st: Store, base: nat, out: Out)
    requires OutInv(st, base, out) && out.reports != []
    ensures OutInv(st, base, Handle(out.(reports := out.reports[1..]), out.reports[0]))
  {
    assert ReportOk(st, base, out.reports[0]);
    forall i | 0 <= i < |out.reports| - 1 ensures ReportOk(st, base, out.reports[1..][i]) {
      assert out.reports[1..][i] == out.reports[i + 1];
    }
  }

  lemma GcKeeps(st: Store, ts: int)
    requires StoreInv(st) && st.gcTS < ts
    ensures StoreInv(st.(gcTS := ts)) && Extends(st, st.(gcTS := ts))
  {
    var st' := st.(gcTS := ts);
    assert LogInv(st') by {
      forall p | 0 <= p < |st.log| ensures RecordOk(st', st.log[p]) {
        assert RecordOk(st, st.log[p]);
      }
      forall t, c | CommitsBy(st', t, c) ensures CommitsBy(st, t, c) {
      }
    }
  }

  lemma GcDeleteKeeps(st: Store, key: int)
    requires StoreInv(st) && Collected(st, key)
    ensures StoreInv(st.(index := st.index - {key})) && Extends(st, st.(index := st.index - {key}))
  {
    var st' := st.(index := st.index - {key});
    assert LogInv(st') by {
      forall p | 0 <= p < |st.log| ensures RecordOk(st', st.log[p]) {
        assert RecordOk(st, st.log[p]);
      }
      forall t, c | CommitsBy(st', t, c) ensures CommitsBy(st, t, c) {
      }
    }
  }

  // ---------------------------------------------------------------- puller

  lemma PullIterKeeps(st: Store, p: Puller, max: int, limit: int)
    requires StoreInv(st) && PullInv(st, p) && Complete(st, max) && p.On? && p.iter.None? && p.last < limit <= max + 1
    ensures PullInv(st, p.(iter := Some(Iter(st.index, p.last, p.last, limit))))
  {
  }

  /** Of a transaction prewritten here, the index entry at its commit timestamp is its own
      commit binlog, and its P binlog is indexed unless it was collected. */
  lemma IndexEntryOf(st: Store, t: int, pos: nat)
    requires StoreInv(st) && CommitsBy(st, t, st.now) && pos < |st.log| && st.log[pos].Ts() == st.txns[t].status.ts
    ensures st.log[pos] == Binlog(Commit, t, st.txns[t].status.ts)
    ensures st.txns[t].status.at < st.kvHigh ==> Indexed(st, t)
  {
    assert RecordOk(st, st.log[pos]);
    if st.txns[t].status.at < st.kvHigh {
      assert st.log[st.txns[t].status.at].Ts() == t;
    }
  }

  lemma PullNextCovers(st: Store, p: Puller, key: int)
    requires StoreInv(st) && PullInv(st, p) && p.On? && p.iter.Some? && NextKey(p.iter.value, key)
    ensures Covered(st, p.from, key, PullKey(st, p, key).emitted)
  {
    var it, p' := p.iter.value, PullKey(st, p, key);
    forall t | CommitsBy(st, t, key) && p.from < st.txns[t].status.ts
      ensures st.txns[t].status.ts in p'.emitted || Collected(st, t)
    {
      var ts := st.txns[t].status.ts;
      if ts <= it.cursor {
        assert CommitsBy(st, t, Reach(p));
      } else {
        assert CommitsBy(st, t, it.limit - 1) && CommitsBy(st, t, st.now);
        if ts == key {
          IndexEntryOf(st, t, it.snap[key]);
          assert st.txns[t].status.at < st.kvHigh;
          assert t in st.index ==> p'.emitted == p.emitted + [key];
        }
      }
    }
  }

  lemma PullNextKeeps(st: Store, p: Puller, key: int)
    requires StoreInv(st) && PullInv(st, p) && p.On? && p.iter.Some? && NextKey(p.iter.value, key)
    ensures PullInv(st, PullKey(st, p, key))
  {
    PullNextCovers(st, p, key);
  }

  lemma PullEndKeeps(st: Store, p: Puller)
    requires PullInv(st, p) && p.On? && p.iter.Some?
    ensures PullInv(st, p.(iter := None))
  {
    forall t | CommitsBy(st, t, p.last) ensures CommitsBy(st, t, Reach(p)) {
    }
  }

  // ---------------------------------------------------------------- every run

  predicate QueueStep(a: Step) {
    a.KvWrite? || a.SorterPush? || a.SorterTake? || a.SorterPass? || a.Resolve?
  }

  predicate PullStep(a: Step) {
    a.PullStart? || a.PullIter? || a.PullNext? || a.PullEnd? || a.PullStop?
  }

  predicate OutStep(a: Step) {
    a.HandleReport? || a.PersistHandle? || a.Gc? || a.GcDelete?
  }

  lemma KvWriteStep(s: Pump, again: bool)
    requires Core(s) && Enabled(s, KvWrite(again))
    ensures Core(Apply(s, KvWrite(again)))
  {
    KvWriteKeeps(s, if again then s.q.kvNext - 1 else s.q.kvNext);
  }

  lemma SorterPushStep(s: Pump)
    requires Core(s) && Enabled(s, SorterPush)
    ensures Core(Apply(s, SorterPush))
  {
    PushQueue(s.st, s.q);
  }

  lemma SorterPassStep(s: Pump)
    requires Core(s) && Enabled(s, SorterPass)
    ensures Core(Apply(s, SorterPass))
  {
    assert WaitedFor(s.st, s.q.sorter.wait, s.q.sorter.front.value);
    ReleaseQueue(s.st, s.q, s.q.sorter.wait);
  }

  lemma QueueStepKeeps(s: Pump, a: Step)
    requires Core(s) && Enabled(s, a) && QueueStep(a)
    ensures Core(Apply(s, a))
  {
    match a
    case KvWrite(again) => KvWriteStep(s, again);
    case SorterPush => SorterPushStep(s);
    case SorterTake => SorterTakeKeeps(s);
    case SorterPass => SorterPassStep(s);
    case Resolve(pos) => ResolveKeeps(s, pos);
  }

  lemma PullStartKeeps(st: Store, last: int)
    requires StoreInv(st)
    ensures var from := if last < st.gcTS then st.gcTS else last; PullInv(st, On(from, from, [], None))
  {
  }

  lemma PullStepKeeps(s: Pump, a: Step)
    requires StoreInv(s.st) && PullInv(s.st, s.puller) && Complete(s.st, s.out.maxCommitTS) && Enabled(s, a) && PullStep(a)
    ensures PullInv(s.st, Apply(s, a).puller) && Apply(s, a) == s.(puller := Apply(s, a).puller)
  {
    match a
    case PullStart(last) => PullStartKeeps(s.st, last);
    case PullIter(limit) => PullIterKeeps(s.st, s.puller, s.out.maxCommitTS, limit);
    case PullNext(key) => PullNextKeeps(s.st, s.puller, key);
    case PullEnd => PullEndKeeps(s.st, s.puller);
    case PullStop =>
  }

  lemma PersistKeeps(st: Store, base: nat, out: Out)
    requires OutInv(st, base, out) && out.toSave.Some?
    ensures OutInv(st, base, Persist(out, st.index, out.toSave.value.binlog.commit).(toSave := None))
  {
  }

  lemma OutStepKeeps(s: Pump, a: Step)
    requires Core(s) && Enabled(s, a) && OutStep(a)
    ensures Core(Apply(s, a))
  {
    match a
    case HandleReport => HandleKeeps(s.st, s.q.base, s.out);
    case PersistHandle => PersistKeeps(s.st, s.q.base, s.out);
    case Gc(ts) =>
      if s.st.gcTS < ts < s.out.maxCommitTS {
        GcKeeps(s.st, ts);
        StoreKeeps(s, s.st.(gcTS := ts));
      }
    case GcDelete(key) =>
      GcDeleteKeeps(s.st, key);
      StoreKeeps(s, s.st.(index := s.st.index - {key}));
  }

  lemma StepKeeps(s: Pump, a: Step)
    requires Core(s) && Enabled(s, a) && !a.Crash?
    ensures Core(Apply(s, a))
  {
    if QueueStep(a) {
      QueueStepKeeps(s, a);
    } else if PullStep(a) {
      PullStepKeeps(s, a);
    } else if OutStep(a) {
      OutStepKeeps(s, a);
    } else {
      TxnStoreKeeps(s.st, a);
      StoreKeeps(s, TxnStep(s.st, a));
    }
  }

  /** A restart keeps the invariant if the replay takes account of every open prewrite before it. */
  lemma RestartCore(s: Pump)
    requires Core(s) && Recoverable(s.st, ReplayFrom(s))
    ensures Core(Restart(s))
  {
    var s' := Restart(s);
    assert Pending(s'.q) == [];
    assert Frontier(s'.q) == s'.q.kvNext;
  }

  /** The log before the replay and before the saved handle pointer is settled. */
  ghost predicate HandleOk(s: Pump) {
    SettledBefore(s.st, s.q.base) && SettledBefore(s.st, s.out.savedHandle)
  }

  /** At the moment the handle pointer is persisted, the index entry of the commit timestamp
      is not after the record that was reported.  It can be after it when the same commit
      binlog was logged twice, by the client and by the resolver. */
  predicate Careful(s: Pump, a: Step) {
    a.PersistHandle? && s.out.toSave.Some? && s.out.toSave.value.binlog.commit in s.st.index
    ==> s.st.index[s.out.toSave.value.binlog.commit] <= s.out.toSave.value.pos
  }

  lemma SettledBeforeLess(st: Store, low: int, high: int)
    requires SettledBefore(st, high) && low <= high
    ensures SettledBefore(st, low)
  {
  }

  lemma IndexExtends(s: Pump, a: Step)
    requires StoreInv(s.st) && s.q.kvNext <= s.st.kvHigh && Enabled(s, a) && (a.KvWrite? || a.Resolve?)
    ensures Extends(s.st, Apply(s, a).st)
  {
    if a.KvWrite? {
      IndexRecordKeeps(s.st, if a.again then s.q.kvNext - 1 else s.q.kvNext);
    } else {
      IndexResolvedKeeps(s.st, s.q.sorter.front.value.binlog.start, a.pos);
    }
  }

  lemma GcExtends(s: Pump, a: Step)
    requires StoreInv(s.st) && Enabled(s, a) && (a.Gc? || a.GcDelete?)
    ensures Extends(s.st, Apply(s, a).st)
  {
    SameExtends(s.st);
    if a.Gc? {
      if s.st.gcTS < a.ts {
        GcKeeps(s.st, a.ts);
      }
    } else {
      GcDeleteKeeps(s.st, a.key);
    }
  }

  lemma SameExtends(st: Store)
    ensures Extends(st, st)
  {
  }

  lemma OtherExtends(s: Pump, a: Step)
    requires StoreInv(s.st) && Enabled(s, a) && !a.KvWrite? && !a.Resolve? && !a.Gc? && !a.GcDelete?
    ensures Extends(s.st, Apply(s, a).st)
  {
    SameExtends(s.st);
    if Apply(s, a).st != s.st {
      TxnStoreKeeps(s.st, a);
    }
  }

  lemma StepExtends(s: Pump, a: Step)
    requires StoreInv(s.st) && s.q.kvNext <= s.st.kvHigh && Enabled(s, a)
    ensures Extends(s.st, Apply(s, a).st)
  {
    if a.KvWrite? || a.Resolve? {
      IndexExtends(s, a);
    } else if a.Gc? || a.GcDelete? {
      GcExtends(s, a);
    } else {
      OtherExtends(s, a);
    }
  }

  lemma CarefulKeeps(s: Pump, a: Step)
    requires Core(s) && HandleOk(s) && Enabled(s, a) && Careful(s, a)
    ensures Core(Apply(s, a)) && HandleOk(Apply(s, a))
    ensures a.Crash? ==> Recoverable(s.st, ReplayFrom(s))
  {
    if a.Crash? {
      SettledBeforeLess(s.st, ReplayFrom(s), s.out.savedHandle);
      SettledRecoverable(s.st, ReplayFrom(s));
      RestartCore(s);
    } else {
      StepKeeps(s, a);
      StepExtends(s, a);
      SameBase(s, a);
      SettledFromStable(s.st, Apply(s, a).st, 0, s.q.base);
      SettledFromStable(s.st, Apply(s, a).st, 0, s.out.savedHandle);
      if a.PersistHandle? && s.out.toSave.value.binlog.commit in s.st.index {
        SettledJoin(s.st, s.q.base, s.out.toSave.value.pos);
        SettledBeforeLess(s.st, Apply(s, a).out.savedHandle, s.out.toSave.value.pos);
      } else {
        SameHandle(s, a);
      }
    }
  }

  lemma SettledRecoverable(st: Store, pos: nat)
    requires SettledBefore(st, pos)
    ensures Recoverable(st, pos)
  {
  }

  lemma SettledJoin(st: Store, low: nat, high: int)
    requires SettledBefore(st, low) && SettledFrom(st, low, high)
    ensures SettledBefore(st, high)
  {
  }

  lemma SameBase(s: Pump, a: Step)
    requires Enabled(s, a) && !a.Crash?
    ensures Apply(s, a).q.base == s.q.base
  {
  }

  lemma SameHandle(s: Pump, a: Step)
    requires Enabled(s, a) && (a.PersistHandle? ==> s.out.toSave.value.binlog.commit !in s.st.index)
    ensures Apply(s, a).out.savedHandle == s.out.savedHandle
  {
  }

  ghost predicate Runs(s: Pump, steps: seq<Step>)
    decreases |steps|
  {
    steps == [] || (Enabled(s, steps[0]) && Runs(Apply(s, steps[0]), steps[1..]))
  }

  ghost function End(s: Pump, steps: seq<Step>): Pump
    requires Runs(s, steps)
    decreases |steps|
  {
    if steps == [] then s else End(Apply(s, steps[0]), steps[1..])
  }

  /** Whenever the process crashes, the replay takes account of every open prewrite before it. */
  ghost predicate SafeRun(s: Pump, steps: seq<Step>)
    requires Runs(s, steps)
    decreases |steps|
  {
    steps == [] ||
    ((steps[0].Crash? ==> Recoverable(s.st, ReplayFrom(s))) && SafeRun(Apply(s, steps[0]), steps[1..]))
  }

  /** Handle pointers never overshoot. */
  ghost predicate CarefulRun(s: Pump, steps: seq<Step>)
    requires Runs(s, steps)
    decreases |steps|
  {
    steps == [] || (Careful(s, steps[0]) && CarefulRun(Apply(s, steps[0]), steps[1..]))
  }

  lemma {:induction false} RunCore(s: Pump, steps: seq<Step>)
    requires Core(s) && Runs(s, steps) && SafeRun(s, steps)
    ensures Core(End(s, steps))
    decreases |steps|
  {
    if steps != [] {
      if steps[0].Crash? {
        RestartCore(s);
      } else {
        StepKeeps(s, steps[0]);
      }
      RunCore(Apply(s, steps[0]), steps[1..]);
    }
  }

  /** Runs in which handle pointers never overshoot are safe. */
  lemma {:induction false} CarefulIsSafe(s: Pump, steps: seq<Step>)
    requires Core(s) && HandleOk(s) && Runs(s, steps) && CarefulRun(s, steps)
    ensures SafeRun(s, steps)
    decreases |steps|
  {
    if steps != [] {
      CarefulKeeps(s, steps[0]);
      CarefulIsSafe(Apply(s, steps[0]), steps[1..]);
    }
  }

  lemma {:induction false} NoCrashIsSafe(s: Pump, steps: seq<Step>)
    requires Runs(s, steps) && Crash !in steps
    ensures SafeRun(s, steps)
    decreases |steps|
  {
    if steps != [] {
      assert Crash !in steps[1..];
      NoCrashIsSafe(Apply(s, steps[0]), steps[1..]);
    }
  }

  lemma InitCore()
    ensures Core(Init()) && HandleOk(Init())
  {
    assert Pending(Init().q) == [];
  }

  lemma ReachableCore(steps: seq<Step>)
    requires Runs(Init(), steps) && SafeRun(Init(), steps)
    ensures Core(End(Init(), steps))
  {
    InitCore();
    RunCore(Init(), steps);
  }

  lemma CoreReports(s: Pump)
    requires Core(s)
    ensures Complete(s.st, s.out.maxCommitTS) && Increasing(s.out.history)
    ensures Enabled(s, SorterTake) && Reports(s.q.sorter) ==>
              var c := s.q.sorter.items[0].binlog.commit;
              Complete(s.st, c) && forall h :: h in s.out.history ==> h < c
  {
    if Enabled(s, SorterTake) && Reports(s.q.sorter) {
      ReportComplete(s.st, s.q);
    }
  }

  /** Main result for the sorter.  In every run: `maxCommitTS` is complete, and whenever the
      sorter is about to report `c`, then `c` is above everything reported before and every
      transaction prewritten on this pump with commit timestamp at most `c` has committed and
      has its commit binlog in the index (or it is old enough to have been collected). */
  lemma SorterSafety(steps: seq<Step>)
    requires Runs(Init(), steps) && SafeRun(Init(), steps)
    ensures var s := End(Init(), steps);
      && Complete(s.st, s.out.maxCommitTS)
      && Increasing(s.out.history)
      && (Enabled(s, SorterTake) && Reports(s.q.sorter) ==>
            var c := s.q.sorter.items[0].binlog.commit;
            Complete(s.st, c) && forall h :: h in s.out.history ==> h < c)
  {
    ReachableCore(steps);
    CoreReports(End(Init(), steps));
  }

  /** `maxCommitTS` never falls while the process lives. */
  lemma MaxCommitMonotone(s: Pump, a: Step)
    requires Enabled(s, a) && !a.Crash?
    ensures s.out.maxCommitTS <= Apply(s, a).out.maxCommitTS
  {
  }

  /** A transaction that lasted less than 600 seconds. */
  predicate Short(st: Store, t: int) {
    t in st.txns && st.txns[t].status.HasTs() && st.txns[t].status.ts - t < TXN_WINDOW
  }

  /** Main result for the puller.  In every run the emitted commit timestamps increase, and
      every short transaction prewritten here whose commit timestamp lies above the start of
      the stream and the collected part, up to the last emitted one, has been emitted: nothing
      can turn up behind the stream. */
  lemma PullerSafety(steps: seq<Step>)
    requires Runs(Init(), steps) && SafeRun(Init(), steps)
    ensures var s := End(Init(), steps); s.puller.On? ==>
      && Increasing(s.puller.emitted)
      && (forall c :: c in s.puller.emitted ==> s.puller.from < c && IsCommit(s.st, c))
      && (forall t :: CommitsBy(s.st, t, s.puller.last) && s.puller.from < s.st.txns[t].status.ts
                      && Short(s.st, t) && s.st.gcTS < s.st.txns[t].status.ts
                      ==> s.st.txns[t].status.ts in s.puller.emitted)
  {
    ReachableCore(steps);
    var s := End(Init(), steps);
    if s.puller.On? {
      forall t | CommitsBy(s.st, t, s.puller.last) && s.puller.from < s.st.txns[t].status.ts
                 && Short(s.st, t) && s.st.gcTS < s.st.txns[t].status.ts
        ensures s.st.txns[t].status.ts in s.puller.emitted
      {
        assert CommitsBy(s.st, t, Reach(s.puller));
        assert !Collected(s.st, t);
      }
    }
  }

}
