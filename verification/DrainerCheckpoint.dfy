/** The drainer's checkpoint: items are handed to the downstream syncer and acknowledged later;
    binlogs that are not handed over become fake binlogs, whose timestamp may be saved only once
    everything handed over before them is acknowledged. */
module DrainerCheckpoint {
  import opened Collections
  import LoaderBatch

  /** `urgent` items, such as DDL, are saved at once; `empty` ones have no row changes left
      and the downstream may be late to acknowledge them. */
  datatype Item = Item(ts: int, urgent: bool, empty: bool)

  /** A fake binlog waiting for the item handed over before it. */
  datatype Fake = Fake(ts: int, preAddTS: int)

  /** What the run loop owns: the fake binlogs waiting and the one being pushed. */
  datatype Loop = Loop(fakes: seq<Fake>, staged: Option<int>, lastAdd: int, lastFakeTime: Option<int>, running: bool)

  /** What the acknowledging loop owns. */
  datatype Acker = Acker(lastTS: int, lastSaveTS: int, saved: seq<int>)

  /** `lastIn`, `handed` and `acked` record the history: the last timestamp consumed, the items
      handed over, and which of them are acknowledged. */
  datatype State = State(lastIn: int, handed: seq<Item>, acked: set<nat>, loop: Loop, channel: seq<int>, acker: Acker)

  datatype Step =
    | Ignore(ts: int)
    | Quiet(ts: int)
    | Hand(item: Item)
    | HandFails(ts: int)
    | Stage
    | Push
    | Stop
    | Ack(i: nat, elapsed: bool)
    | TakeFake(elapsed: bool)
    | LastSave
    | SaveConsistent

  /** The state after a start from checkpoint `cp`. */
  function Init(cp: int): State {
    State(cp, [], {}, Loop([], None, 0, None, true), [], Acker(0, 0, [cp]))
  }

  const MS := 262144

  /** A fake binlog is kept only if the last one is more than three seconds older. */
  predicate FakeNeeded(l: Loop, ts: int) {
    l.lastFakeTime == None || ts / MS - l.lastFakeTime.value > 3000
  }

  function AppendFake(l: Loop, ts: int): Loop {
    if FakeNeeded(l, ts) then l.(fakes := l.fakes + [Fake(ts, l.lastAdd)], lastFakeTime := Some(ts / MS)) else l
  }

  predicate CanStage(l: Loop, lastTS: int) {
    l.staged == None && l.fakes != [] && l.fakes[0].preAddTS <= lastTS
  }

  /** Raise the last timestamp, and save it if it is new and the time has come. */
  function Raise(a: Acker, ts: int, now: bool): Acker {
    var last := if ts > a.lastTS then ts else a.lastTS;
    if last > a.lastSaveTS && now then Acker(last, last, a.saved + [last]) else a.(lastTS := last)
  }

  /** All earlier items are acknowledged, but for those without row changes. */
  predicate Next(handed: seq<Item>, acked: set<nat>, i: nat) {
    i < |handed| && i !in acked && forall j :: 0 <= j < i && j !in acked ==> handed[j].empty
  }

  /** Timestamps arrive in increasing order; acknowledgements arrive in the order of handing over,
      except that an item without row changes may be overtaken. */
  predicate Enabled(s: State, step: Step) {
    match step
    case Ignore(ts) => s.loop.running && ts > s.lastIn
    case Quiet(ts) => s.loop.running && ts > s.lastIn
    case Hand(item) => s.loop.running && item.ts > s.lastIn
    case HandFails(ts) => s.loop.running && ts > s.lastIn
    case Stage => s.loop.running && CanStage(s.loop, s.acker.lastTS)
    case Push => s.loop.running && s.loop.staged != None
    case Stop => s.loop.running
    case Ack(i, _) => Next(s.handed, s.acked, i)
    case TakeFake(_) => s.channel != []
    case LastSave => !s.loop.running && s.channel == []
    case SaveConsistent => !s.loop.running && s.channel == [] && s.acker.saved != []
  }

  function Apply(s: State, step: Step): State
    requires Enabled(s, step)
  {
    match step
    case Ignore(ts) => s.(lastIn := ts)
    case Quiet(ts) => s.(lastIn := ts, loop := AppendFake(s.loop, ts))
    case Hand(item) => s.(lastIn := item.ts, handed := s.handed + [item], loop := s.loop.(lastAdd := item.ts))
    case HandFails(ts) => s.(lastIn := ts, loop := s.loop.(lastAdd := ts, running := false))
    case Stage => s.(loop := s.loop.(staged := Some(s.loop.fakes[0].ts), fakes := s.loop.fakes[1..]))
    case Push => s.(channel := s.channel + [s.loop.staged.value], loop := s.loop.(staged := None))
    case Stop => s.(loop := s.loop.(running := false))
    case Ack(i, elapsed) =>
      s.(acked := s.acked + {i}, acker := Raise(s.acker, s.handed[i].ts, s.handed[i].urgent || elapsed))
    case TakeFake(elapsed) => s.(channel := s.channel[1..], acker := Raise(s.acker, s.channel[0], elapsed))
    case LastSave => s.(acker := Raise(s.acker, s.acker.lastTS, true))
    case SaveConsistent =>
      // The checkpoint's own timestamp, the last one saved, is saved again as consistent.
      s.(acker := s.acker.(saved := s.acker.saved + [s.acker.saved[|s.acker.saved| - 1]]))
  }

  ghost predicate Runs(s: State, steps: seq<Step>, t: State)
    decreases |steps|
  {
    if steps == [] then s == t
    else Enabled(s, steps[0]) && Runs(Apply(s, steps[0]), steps[1..], t)
  }

  // ---------------------------------------------------------------- invariants

  /** Everything handed over with a timestamp up to `ts` is acknowledged or has no row changes. */
  ghost predicate Covered(handed: seq<Item>, acked: set<nat>, ts: int) {
    forall i :: 0 <= i < |handed| && handed[i].ts <= ts ==> i in acked || handed[i].empty
  }

  ghost predicate HandInv(s: State) {
    && (forall i :: i in s.acked ==> i < |s.handed|)
    && (forall i, j :: 0 <= i < j < |s.handed| ==> s.handed[i].ts < s.handed[j].ts)
    && (forall i :: 0 <= i < |s.handed| ==> s.handed[i].ts <= s.lastIn)
  }

  /** Items handed over up to a waiting fake binlog's timestamp were handed over before it. */
  ghost predicate FakeInv(s: State) {
    && (forall i, k :: 0 <= i < |s.loop.fakes| && 0 <= k < |s.handed| && s.handed[k].ts <= s.loop.fakes[i].ts ==>
          s.handed[k].ts <= s.loop.fakes[i].preAddTS)
    && (forall i :: 0 <= i < |s.loop.fakes| ==> s.loop.fakes[i].ts <= s.lastIn)
    && (s.loop.running ==> forall k :: 0 <= k < |s.handed| ==> s.handed[k].ts <= s.loop.lastAdd)
  }

  ghost predicate ReadyInv(s: State) {
    && (s.loop.staged != None ==> Covered(s.handed, s.acked, s.loop.staged.value) && s.loop.staged.value <= s.lastIn)
    && (forall i :: 0 <= i < |s.channel| ==> Covered(s.handed, s.acked, s.channel[i]) && s.channel[i] <= s.lastIn)
  }

  ghost predicate SaveInv(s: State) {
    && Covered(s.handed, s.acked, s.acker.lastTS)
    && (forall i :: 0 <= i < |s.acker.saved| ==> Covered(s.handed, s.acked, s.acker.saved[i]))
    && (s.acker.lastTS == 0 || s.acker.lastTS <= s.lastIn)
    && (forall i :: 0 <= i < |s.acker.saved| ==> s.acker.saved[i] <= s.lastIn)
  }

  /** The saved timestamps only grow, from the checkpoint the drainer started at. */
  ghost predicate OrderInv(a: Acker, cp: int) {
    && a.saved != [] && a.saved[0] == cp
    && (forall i, j :: 0 <= i <= j < |a.saved| ==> a.saved[i] <= a.saved[j])
    && (a.lastTS == 0 || a.lastTS > cp)
    && a.lastSaveTS <= a.lastTS
    && (if a.lastSaveTS == 0 then a.saved[|a.saved| - 1] == cp else a.saved[|a.saved| - 1] == a.lastSaveTS)
  }

  ghost predicate AboveInv(s: State, cp: int) {
    && 0 <= cp <= s.lastIn
    && (forall i :: 0 <= i < |s.handed| ==> s.handed[i].ts > cp)
    && (forall i :: 0 <= i < |s.loop.fakes| ==> s.loop.fakes[i].ts > cp)
    && (s.loop.staged != None ==> s.loop.staged.value > cp)
    && (forall i :: 0 <= i < |s.channel| ==> s.channel[i] > cp)
  }

  /** No fake binlog is stuck behind an item that was never handed over. */
  ghost predicate WaitInv(s: State) {
    && (s.acker.lastTS >= 0)
    && (forall k :: 0 <= k < |s.handed| && k in s.acked ==> s.handed[k].ts <= s.acker.lastTS)
    && (s.loop.running ==> s.loop.lastAdd == 0 || exists k :: 0 <= k < |s.handed| && s.handed[k].ts == s.loop.lastAdd)
    && (forall i :: 0 <= i < |s.loop.fakes| ==>
          s.loop.fakes[i].preAddTS == 0 || exists k :: 0 <= k < |s.handed| && s.handed[k].ts == s.loop.fakes[i].preAddTS)
  }

  ghost predicate Inv(s: State, cp: int) {
    HandInv(s) && FakeInv(s) && ReadyInv(s) && SaveInv(s) && OrderInv(s.acker, cp) && AboveInv(s, cp) && WaitInv(s)
  }

  lemma InitInv(cp: int)
    requires 0 <= cp
    ensures Inv(Init(cp), cp)
  {
  }

  lemma RaiseKeeps(a: Acker, ts: int, now: bool, cp: int)
    requires 0 <= cp && OrderInv(a, cp) && a.lastTS >= 0 && (ts > cp || ts == a.lastTS)
    ensures OrderInv(Raise(a, ts, now), cp) && Raise(a, ts, now).lastTS >= 0
    ensures Raise(a, ts, now).lastTS == if ts > a.lastTS then ts else a.lastTS
    ensures forall x :: x in Raise(a, ts, now).saved ==> x in a.saved || x == Raise(a, ts, now).lastTS
  {
  }

  lemma StepKeepsHand(s: State, step: Step)
    requires Enabled(s, step) && HandInv(s)
    ensures HandInv(Apply(s, step))
  {
  }

  lemma StepKeepsFakes(s: State, step: Step)
    requires Enabled(s, step) && HandInv(s) && FakeInv(s)
    ensures FakeInv(Apply(s, step))
  {
  }

  /** A waiting fake binlog may be pushed once the item before it is acknowledged. */
  lemma StageReady(s: State)
    requires Enabled(s, Stage) && FakeInv(s) && Covered(s.handed, s.acked, s.acker.lastTS)
    ensures Covered(s.handed, s.acked, s.loop.fakes[0].ts)
  {
  }

  lemma StepKeepsReady(s: State, step: Step)
    requires Enabled(s, step) && HandInv(s) && FakeInv(s) && ReadyInv(s) && SaveInv(s)
    ensures ReadyInv(Apply(s, step))
  {
    if step == Stage {
      StageReady(s);
    }
  }

  lemma AckCovers(s: State, step: Step)
    requires Enabled(s, step) && HandInv(s) && step.Ack?
    ensures Covered(s.handed, s.acked + {step.i}, s.handed[step.i].ts)
    ensures forall ts :: Covered(s.handed, s.acked, ts) ==> Covered(s.handed, s.acked + {step.i}, ts)
  {
  }

  lemma RaiseCovers(s: State, handed: seq<Item>, acked: set<nat>, ts: int, now: bool)
    requires SaveInv(s) && Covered(handed, acked, ts) && ts <= s.lastIn && 0 <= s.lastIn
    requires forall x :: Covered(s.handed, s.acked, x) ==> Covered(handed, acked, x)
    ensures SaveInv(s.(handed := handed, acked := acked, acker := Raise(s.acker, ts, now)))
  {
  }

  lemma StepKeepsSave(s: State, step: Step, cp: int)
    requires Enabled(s, step) && HandInv(s) && ReadyInv(s) && SaveInv(s) && OrderInv(s.acker, cp) && AboveInv(s, cp)
    ensures SaveInv(Apply(s, step))
  {
    match step
    case Ack(i, elapsed) =>
      AckCovers(s, step);
      RaiseCovers(s, s.handed, s.acked + {i}, s.handed[i].ts, s.handed[i].urgent || elapsed);
    case TakeFake(elapsed) => RaiseCovers(s, s.handed, s.acked, s.channel[0], elapsed);
    case LastSave =>
    case _ =>
  }

  lemma StepKeepsOrder(s: State, step: Step, cp: int)
    requires Enabled(s, step) && OrderInv(s.acker, cp) && AboveInv(s, cp) && s.acker.lastTS >= 0
    ensures OrderInv(Apply(s, step).acker, cp)
  {
    match step
    case Ack(i, elapsed) => RaiseKeeps(s.acker, s.handed[i].ts, s.handed[i].urgent || elapsed, cp);
    case TakeFake(elapsed) => RaiseKeeps(s.acker, s.channel[0], elapsed, cp);
    case LastSave => RaiseKeeps(s.acker, s.acker.lastTS, true, cp);
    case _ =>
  }

  lemma StepKeepsAbove(s: State, step: Step, cp: int)
    requires Enabled(s, step) && AboveInv(s, cp)
    ensures AboveInv(Apply(s, step), cp)
  {
  }

  lemma StepKeepsWait(s: State, step: Step)
    requires Enabled(s, step) && HandInv(s) && WaitInv(s)
    ensures WaitInv(Apply(s, step))
  {
    var t := Apply(s, step);
    match step
    case Hand(item) =>
      assert t.handed[|s.handed|].ts == t.loop.lastAdd;
      assert forall k :: 0 <= k < |s.handed| ==> t.handed[k] == s.handed[k];
    case _ =>
  }

  lemma StepKeeps(s: State, step: Step, cp: int)
    requires Enabled(s, step) && Inv(s, cp)
    ensures Inv(Apply(s, step), cp)
  {
    StepKeepsHand(s, step);
    StepKeepsFakes(s, step);
    StepKeepsReady(s, step);
    StepKeepsSave(s, step, cp);
    StepKeepsOrder(s, step, cp);
    StepKeepsAbove(s, step, cp);
    StepKeepsWait(s, step);
  }

  lemma {:induction false} RunKeeps(s: State, steps: seq<Step>, t: State, cp: int)
    requires Runs(s, steps, t) && Inv(s, cp)
    ensures Inv(t, cp)
    decreases |steps|
  {
    if steps != [] {
      StepKeeps(s, steps[0], cp);
      RunKeeps(Apply(s, steps[0]), steps[1..], t, cp);
    }
  }

  /** Main result: in every run, every item handed over up to a saved timestamp is acknowledged or
      has no row changes, and the saved timestamps never fall, nor below the checkpoint of the start. */
  lemma CheckpointSafe(cp: int, steps: seq<Step>, t: State)
    requires 0 <= cp && Runs(Init(cp), steps, t)
    ensures forall x, i :: x in t.acker.saved && 0 <= i < |t.handed| && t.handed[i].ts <= x ==> i in t.acked || t.handed[i].empty
    ensures forall i, j :: 0 <= i <= j < |t.acker.saved| ==> cp <= t.acker.saved[i] <= t.acker.saved[j]
  {
    InitInv(cp);
    RunKeeps(Init(cp), steps, t, cp);
  }

  /** Fake binlogs are not stuck: once all items are acknowledged, the next waiting one can be
      pushed. */
  lemma FakeNotStuck(cp: int, steps: seq<Step>, t: State)
    requires 0 <= cp && Runs(Init(cp), steps, t)
    requires t.loop.running && (forall k :: 0 <= k < |t.handed| ==> k in t.acked) && t.loop.staged == None && t.loop.fakes != []
    ensures Enabled(t, Stage)
  {
    InitInv(cp);
    RunKeeps(Init(cp), steps, t, cp);
  }

  /** The loader acknowledges in an order that the steps above allow: whatever it has reported, its
      next report is enabled. */
  lemma LoaderAcks(s: State, enableDispatch: bool, limit: nat, steps: seq<LoaderBatch.Step>,
                   input: seq<LoaderBatch.Txn>, c: LoaderBatch.Batch)
    returns (order: seq<nat>)
    requires LoaderBatch.Runs(LoaderBatch.INIT, enableDispatch, limit, steps, input, c)
    requires |s.handed| == |input|
    requires forall i :: 0 <= i < |input| ==> (s.handed[i].empty <==> LoaderBatch.OpsOf(input[i]) == [])
    ensures LoaderBatch.Reports(input, c.successes, order)
    ensures forall k, elapsed :: 0 <= k < |order| ==>
              Enabled(s.(acked := LoaderBatch.Indices(order[..k])), Ack(order[k], elapsed))
  {
    order := LoaderBatch.ReportOrder(enableDispatch, limit, steps, input, c);
    forall k, elapsed | 0 <= k < |order|
      ensures Enabled(s.(acked := LoaderBatch.Indices(order[..k])), Ack(order[k], elapsed))
    {
      assert LoaderBatch.ReportedNext(input, order, k);
    }
  }

  // ---------------------------------------------------------------- the syncer's own steps

  function Fakes(tss: seq<int>, preAdds: seq<int>): (fs: seq<Fake>)
    requires |tss| == |preAdds|
    ensures |fs| == |tss|
  {
    seq(|tss|, i requires 0 <= i < |tss| => Fake(tss[i], preAdds[i]))
  }

  /** The variables of the run loop and of the acknowledging loop; fake binlogs and the
      timestamps they wait for are kept in two lists. */
  class Syncer {
    var fakeBinlogs: seq<int>
    var fakeBinlogPreAddTS: seq<int>
    var pushFakeBinlog: bool
    var fakeBinlog: int
    var lastAddCommitTS: int
    var lastFakeCommitTime: Option<int>
    var lastSuccessTS: int
    var lastSaveTS: int
    var saved: seq<int>

    ghost predicate Valid() reads this {
      |fakeBinlogs| == |fakeBinlogPreAddTS|
    }

    ghost function RunLoop(): Loop
      reads this
      requires Valid()
    {
      Loop(Fakes(fakeBinlogs, fakeBinlogPreAddTS), if pushFakeBinlog then Some(fakeBinlog) else None,
           lastAddCommitTS, lastFakeCommitTime, true)
    }

    ghost function Success(): Acker reads this {
      Acker(lastSuccessTS, lastSaveTS, saved)
    }

    constructor (cp: int)
      ensures Valid() && RunLoop() == Init(cp).loop && Success() == Init(cp).acker
    {
      fakeBinlogs, fakeBinlogPreAddTS, pushFakeBinlog, fakeBinlog := [], [], false, 0;
      lastAddCommitTS, lastFakeCommitTime := 0, None;
      lastSuccessTS, lastSaveTS, saved := 0, 0, [cp];
    }

    method AppendFakeBinlogIfNeeded(commitTS: int)
      requires Valid()
      modifies this
      ensures Valid() && RunLoop() == AppendFake(old(RunLoop()), commitTS) && Success() == old(Success())
    {
      var fakeCommitTime := commitTS / MS;
      if lastFakeCommitTime == None || fakeCommitTime - lastFakeCommitTime.value > 3000 {
        lastFakeCommitTime := Some(fakeCommitTime);
        fakeBinlogs := fakeBinlogs + [commitTS];
        fakeBinlogPreAddTS := fakeBinlogPreAddTS + [lastAddCommitTS];
      }
      assert RunLoop().fakes == AppendFake(old(RunLoop()), commitTS).fakes;
    }

    /** The check at the head of the run loop. */
    method StageFakeBinlog()
      requires Valid()
      modifies this
      ensures Valid() && Success() == old(Success())
      ensures RunLoop() == if CanStage(old(RunLoop()), lastSuccessTS)
                           then old(RunLoop()).(staged := Some(old(RunLoop()).fakes[0].ts), fakes := old(RunLoop()).fakes[1..])
                           else old(RunLoop())
    {
      if !pushFakeBinlog && |fakeBinlogs| > 0 {
        assert RunLoop().fakes[0] == Fake(fakeBinlogs[0], fakeBinlogPreAddTS[0]);
        if fakeBinlogPreAddTS[0] <= lastSuccessTS {
          pushFakeBinlog := true;
          fakeBinlog := fakeBinlogs[0];
          fakeBinlogs := fakeBinlogs[1..];
          fakeBinlogPreAddTS := fakeBinlogPreAddTS[1..];
          assert RunLoop().fakes == old(RunLoop()).fakes[1..];
        }
      }
    }

    /** One turn of the acknowledging loop, for an item or a fake binlog. */
    method HandleSuccess(ts: int, saveNow: bool, elapsed: bool)
      requires Valid()
      modifies this
      ensures Valid() && RunLoop() == old(RunLoop()) && Success() == Raise(old(Success()), ts, saveNow || elapsed)
    {
      if ts > lastSuccessTS {
        lastSuccessTS := ts;
      }
      if lastSuccessTS > lastSaveTS {
        if saveNow || elapsed {
          saved := saved + [lastSuccessTS];
          lastSaveTS := lastSuccessTS;
        }
      }
    }
  }
}
