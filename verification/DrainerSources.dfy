/** The drainer's merger while the collector adds and removes sources: the steps of both, as far as
    locks allow them to interleave. */
module DrainerSources {
  import opened Collections
  import opened DrainerMerge

  /** The output so far and its last timestamp; `dropped` records what was not emitted and
      `disorder` counts those below the latest timestamp. */
  datatype Out = Out(latest: int, output: seq<Item>, dropped: multiset<Item>, disorder: nat)

  /** Where the run loop is: at its top, after resetting the flag, receiving from a copy of the
      sources, with an item popped, with an item that has passed the check of the flag, or about to
      publish the latest timestamp. */
  datatype Phase =
    | Top
    | Ready
    | Reading(snapshot: set<string>)
    | Popped(snapshot: set<string>, item: Item)
    | Sending(item: Item)
    | Publishing

  /** Where the collector is: it has read the published timestamp for a new source, or it holds the
      lock and has changed the sources without raising the flag yet. */
  datatype Collector = Idle | Asked(id: string, from: int) | Adding(id: string) | Removing(id: string)

  /** `changed` is the flag, and `published` the timestamp the collector can read. `received` records
      what came from the sources, and `reached` the timestamp below which each delivers no more. */
  datatype Merger = Merger(sources: set<string>, collector: Collector, changed: bool, phase: Phase,
                           held: map<string, Item>, published: int, reached: map<string, int>,
                           received: multiset<Item>, out: Out)

  /** The collector's steps, and the steps of the run loop: `Check` pushes the item back if the flag
      is up. No lock is held between `Check`, `Send` and `Publish`. */
  datatype Step =
    | Ask(id: string)
    | Add
    | Remove(id: string)
    | Flag
    | Reset
    | Snap
    | Skip
    | Receive(item: Item)
    | Pop(id: string)
    | Check
    | Send
    | Publish

  predicate Locked(m: Merger) {
    m.collector.Adding? || m.collector.Removing?
  }

  ghost predicate Enabled(m: Merger, step: Step) {
    match step
    case Ask(id) => m.collector.Idle?
    case Add => m.collector.Asked?
    case Remove(id) => m.collector.Idle?
    case Flag => Locked(m)
    case Reset => m.phase.Top?
    case Snap => m.phase.Ready? && !Locked(m) && m.sources != {}
    case Skip => m.phase.Ready? || m.phase.Reading?
    case Receive(item) => m.phase.Reading? && !Locked(m) && item.source in m.phase.snapshot - m.held.Keys
    case Pop(id) => m.phase.Reading? && !Locked(m) && m.phase.snapshot <= m.held.Keys && LeastHeld(m.held, id)
    case Check => m.phase.Popped? && !(m.changed && Locked(m))
    case Send => m.phase.Sending?
    case Publish => m.phase.Publishing? && !Locked(m)
  }

  function Emit(o: Out, item: Item): Out {
    if item.ts < o.latest then o.(dropped := o.dropped + multiset{item}, disorder := o.disorder + 1)
    else if item.ts == o.latest then o.(dropped := o.dropped + multiset{item})
    else o.(output := o.output + [item], latest := item.ts)
  }

  /** A source that is asked from a timestamp delivers above it, and not below what it had reached. */
  function Join(reached: map<string, int>, id: string, from: int): map<string, int> {
    if id in reached && from < reached[id] then reached else reached[id := from + 1]
  }

  ghost function Apply(m: Merger, step: Step): Merger
    requires Enabled(m, step)
  {
    match step
    case Ask(id) => m.(collector := Asked(id, m.published))
    case Add =>
      var id := m.collector.id;
      m.(sources := m.sources + {id}, collector := Adding(id), reached := Join(m.reached, id, m.collector.from))
    case Remove(id) => m.(sources := m.sources - {id}, collector := Removing(id))
    case Flag => m.(collector := Idle, changed := true)
    case Reset => m.(phase := Ready, changed := false)
    case Snap => m.(phase := Reading(m.sources))
    case Skip => m.(phase := Top)
    case Receive(item) =>
      m.(held := m.held[item.source := item], reached := m.reached[item.source := item.ts],
         received := m.received + multiset{item})
    case Pop(id) => m.(held := m.held - {id}, phase := Popped(m.phase.snapshot, m.held[id]))
    case Check =>
      var item := m.phase.item;
      if m.changed then m.(phase := Top, held := m.held[item.source := item]) else m.(phase := Sending(item))
    case Send => m.(phase := Publishing, out := Emit(m.out, m.phase.item))
    case Publish => m.(phase := Top, published := m.out.latest)
  }

  function Init(sources: set<string>, ts: int): Merger {
    Merger(sources, Idle, false, Top, map[], ts, map id | id in sources :: ts, multiset{}, Out(ts, [], multiset{}, 0))
  }

  ghost predicate Runs(m: Merger, steps: seq<Step>, n: Merger)
    decreases |steps|
  {
    if steps == [] then m == n
    else Enabled(m, steps[0]) && Runs(Apply(m, steps[0]), steps[1..], n)
  }

  /** The output increases strictly from the start, and only items not above it are dropped. */
  ghost predicate Ordered(o: Out, start: int) {
    && (forall i, j :: 0 <= i < j < |o.output| ==> o.output[i].ts < o.output[j].ts)
    && (forall i :: 0 <= i < |o.output| ==> start < o.output[i].ts)
    && o.latest == (if o.output == [] then start else o.output[|o.output| - 1].ts)
    && (forall x :: x in o.dropped ==> x.ts <= o.latest)
  }

  /** The item popped from those held and not yet emitted or pushed back. */
  function InHand(m: Merger): Option<Item> {
    if m.phase.Popped? || m.phase.Sending? then Some(m.phase.item) else None
  }

  /** The item waits to be emitted. */
  predicate Waits(m: Merger, x: Item) {
    IsHeld(m.held, x) || InHand(m) == Some(x)
  }

  /** Items are held under their source, and not while one of that source is in hand. */
  ghost predicate Placed(m: Merger) {
    && (forall id :: id in m.held ==> m.held[id].source == id)
    && (InHand(m) != None ==> InHand(m).value.source !in m.held)
  }

  /** Every item received was emitted, dropped or waits, as often as it was received. */
  ghost predicate Conserved(m: Merger) {
    forall x :: m.received[x] == multiset(m.out.output)[x] + m.out.dropped[x] + if Waits(m, x) then 1 else 0
  }

  /** What the collector can read is the latest timestamp, or an older one before it is published. */
  predicate Lags(m: Merger) {
    m.published <= m.out.latest && (!m.phase.Publishing? ==> m.published == m.out.latest)
  }

  lemma EmitOrdered(o: Out, item: Item, start: int)
    requires Ordered(o, start)
    ensures Ordered(Emit(o, item), start) && o.output <= Emit(o, item).output
  {
  }

  lemma EmitCounts(o: Out, item: Item, x: Item)
    ensures multiset(Emit(o, item).output)[x] + Emit(o, item).dropped[x]
         == multiset(o.output)[x] + o.dropped[x] + if x == item then 1 else 0
  {
  }

  lemma StepPlaced(m: Merger, step: Step)
    requires Enabled(m, step) && Placed(m)
    ensures Placed(Apply(m, step))
  {
  }

  lemma StepWaits(m: Merger, step: Step, x: Item)
    requires Enabled(m, step) && Placed(m)
    ensures step.Receive? ==> (Waits(Apply(m, step), x) <==> Waits(m, x) || x == step.item)
    ensures step.Receive? ==> !Waits(m, step.item)
    ensures step.Send? ==> (Waits(Apply(m, step), x) <==> Waits(m, x) && x != m.phase.item)
    ensures !step.Receive? && !step.Send? ==> (Waits(Apply(m, step), x) <==> Waits(m, x))
  {
  }

  lemma StepConserves(m: Merger, step: Step)
    requires Enabled(m, step) && Placed(m) && Conserved(m)
    ensures Placed(Apply(m, step)) && Conserved(Apply(m, step))
  {
    var n := Apply(m, step);
    StepPlaced(m, step);
    forall x
      ensures n.received[x] == multiset(n.out.output)[x] + n.out.dropped[x] + if Waits(n, x) then 1 else 0
    {
      StepWaits(m, step, x);
      if step.Send? {
        EmitCounts(m.out, m.phase.item, x);
      }
    }
  }

  lemma StepOrdered(m: Merger, step: Step, start: int)
    requires Enabled(m, step) && Ordered(m.out, start) && Lags(m)
    ensures Ordered(Apply(m, step).out, start) && m.out.output <= Apply(m, step).out.output && Lags(Apply(m, step))
  {
    if step.Send? {
      EmitOrdered(m.out, m.phase.item, start);
    }
  }

  ghost predicate Sound(m: Merger, start: int) {
    Ordered(m.out, start) && Placed(m) && Conserved(m) && Lags(m)
  }

  lemma StepSound(m: Merger, step: Step, start: int)
    requires Enabled(m, step) && Sound(m, start)
    ensures Sound(Apply(m, step), start) && m.out.output <= Apply(m, step).out.output
  {
    StepOrdered(m, step, start);
    StepConserves(m, step);
  }

  lemma {:induction false} RunKeeps(m: Merger, steps: seq<Step>, n: Merger, start: int)
    requires Runs(m, steps, n) && Sound(m, start)
    ensures Sound(n, start) && m.out.output <= n.out.output
    decreases |steps|
  {
    if steps != [] {
      StepSound(m, steps[0], start);
      RunKeeps(Apply(m, steps[0]), steps[1..], n, start);
    }
  }

  /** Main result for any run, whatever happens to the sources: the output is strictly increasing
      above the start, every item received was emitted, or dropped at or below the latest timestamp,
      or still waits, exactly once, and the published timestamp is never ahead of the output. */
  lemma MergerSafe(sources: set<string>, start: int, steps: seq<Step>, m: Merger)
    requires Runs(Init(sources, start), steps, m)
    ensures Ordered(m.out, start) && Conserved(m) && Lags(m)
    ensures forall x :: x in m.received ==> x in m.out.output || Waits(m, x) || x.ts <= m.out.latest
  {
    RunKeeps(Init(sources, start), steps, m, start);
    forall x | x in m.received ensures x in m.out.output || Waits(m, x) || x.ts <= m.out.latest {
      assert m.received[x] == multiset(m.out.output)[x] + m.out.dropped[x] + if Waits(m, x) then 1 else 0;
      assert x in multiset(m.out.output) ==> x in m.out.output;
    }
  }

  // ---------------------------------------------------------------- sources that change

  /** The source that is being added or removed. */
  function Changing(m: Merger): Option<string> {
    if Locked(m) then Some(m.collector.id) else None
  }

  /** The sources of the round, until its item has passed the check. */
  function Snapshot(m: Merger): set<string> {
    if m.phase.Reading? || m.phase.Popped? then m.phase.snapshot else {}
  }

  /** With the flag down the round reads the sources there are, but for one being changed. */
  ghost predicate Current(m: Merger) {
    (m.phase.Reading? || m.phase.Popped?) && !m.changed ==>
      forall id :: Changing(m) != Some(id) ==> (id in m.phase.snapshot <==> id in m.sources)
  }

  /** The item in hand is a least one; until it has passed the check, of one from each source of the
      round. */
  ghost predicate Least(m: Merger) {
    && (m.phase.Popped? ==> forall id :: id in m.phase.snapshot ==> id in m.held || id == m.phase.item.source)
    && (InHand(m) != None ==> forall id :: id in m.held ==> InHand(m).value.ts <= m.held[id].ts)
  }

  lemma StepCurrent(m: Merger, step: Step)
    requires Enabled(m, step) && Placed(m) && Current(m) && Least(m)
    ensures Current(Apply(m, step)) && Least(Apply(m, step))
  {
  }

  lemma {:induction false} RunCurrent(m: Merger, steps: seq<Step>, n: Merger)
    requires Runs(m, steps, n) && Placed(m) && Current(m) && Least(m)
    ensures Current(n) && Least(n)
    decreases |steps|
  {
    if steps != [] {
      StepPlaced(m, steps[0]);
      StepCurrent(m, steps[0]);
      RunCurrent(Apply(m, steps[0]), steps[1..], n);
    }
  }

  /** Main result when sources come and go: an item passes the check only when every source there is
      at that moment has an item held at or above it, or it is that source's own. The one exception
      is a source whose addition has not raised the flag yet. */
  lemma EmitsLeast(sources: set<string>, start: int, steps: seq<Step>, m: Merger, id: string)
    requires Runs(Init(sources, start), steps, m) && Enabled(m, Check) && Apply(m, Check).phase.Sending?
    requires id in m.sources && Changing(m) != Some(id)
    ensures id == m.phase.item.source || (id in m.held && m.phase.item.ts <= m.held[id].ts)
  {
    RunCurrent(Init(sources, start), steps, m);
  }

  /** How far the output is decided: an item that has passed the check will be sent. */
  function Ahead(m: Merger): int {
    if m.phase.Sending? && m.out.latest < m.phase.item.ts then m.phase.item.ts else m.out.latest
  }

  lemma StepAhead(m: Merger, step: Step)
    requires Enabled(m, step)
    ensures Ahead(m) <= Ahead(Apply(m, step)) && m.out.latest <= Apply(m, step).out.latest
    ensures var n := Apply(m, step);
      n.out.output == m.out.output ||
      (|n.out.output| == |m.out.output| + 1 && n.out.output[..|m.out.output|] == m.out.output
       && Ahead(m) <= n.out.output[|m.out.output|].ts && m.out.latest < n.out.output[|m.out.output|].ts)
  {
  }

  lemma NotAppended(before: seq<Item>, after: seq<Item>, x: Item)
    requires |after| == |before| + 1 && after[..|before|] == before && after[|before|] != x
    ensures multiset(after)[x] == multiset(before)[x]
  {
    assert after == before + [after[|before|]];
  }

  /** Whatever has not left by then and lies below the decided timestamp, or at or below the latest
      one, never leaves the merger, in any continuation. */
  lemma {:induction false} StaleIsLost(m: Merger, steps: seq<Step>, n: Merger, x: Item)
    requires Runs(m, steps, n) && (x.ts < Ahead(m) || x.ts <= m.out.latest)
    ensures multiset(n.out.output)[x] == multiset(m.out.output)[x]
    decreases |steps|
  {
    if steps != [] {
      var next := Apply(m, steps[0]);
      StepAhead(m, steps[0]);
      if next.out.output != m.out.output {
        NotAppended(m.out.output, next.out.output, x);
      }
      StaleIsLost(next, steps[1..], n, x);
    }
  }

  // ---------------------------------------------------------------- nothing lost

  predicate Reached(m: Merger, id: string, ts: int) {
    id in m.reached && m.reached[id] <= ts
  }

  /** Everything the source still delivers is at or above what is decided. */
  predicate Punctual(m: Merger, id: string) {
    id in m.reached && Ahead(m) <= m.reached[id]
  }

  /** No source delivers below what it had reached, and one that joins is punctual. */
  predicate Steady(m: Merger, step: Step) {
    && (step.Receive? ==> Reached(m, step.item.source, step.item.ts))
    && (step.Flag? && m.collector.Adding? ==> Punctual(m, m.collector.id))
  }

  ghost predicate SteadyRun(m: Merger, steps: seq<Step>, n: Merger)
    decreases |steps|
  {
    if steps == [] then m == n
    else Enabled(m, steps[0]) && Steady(m, steps[0]) && SteadyRun(Apply(m, steps[0]), steps[1..], n)
  }

  /** There is a steady run. */
  ghost predicate Goes(m: Merger, n: Merger) {
    exists steps :: SteadyRun(m, steps, n)
  }

  /** The source has an item waiting, or delivers at or above what is decided. */
  predicate Covered(m: Merger, id: string) {
    id in m.held || (InHand(m) != None && InHand(m).value.source == id) || Punctual(m, id)
  }

  ghost predicate AllCovered(m: Merger) {
    && (forall id :: id in m.sources && Changing(m) != Some(id) ==> Covered(m, id))
    && (forall id :: id in Snapshot(m) ==> Covered(m, id))
    && (m.collector.Adding? ==> m.collector.id in m.sources && m.collector.id in m.reached)
    && (m.collector.Removing? ==> m.collector.id !in m.sources)
  }

  predicate InTime(m: Merger, x: Item) {
    m.out.latest <= x.ts && x.source in m.reached && x.ts <= m.reached[x.source]
  }

  /** What waits is at or above the latest timestamp, and was reached by its source. */
  ghost predicate AllInTime(m: Merger) {
    && (forall id :: id in m.held ==> InTime(m, m.held[id]))
    && (InHand(m) != None ==> InTime(m, InHand(m).value))
  }

  /** Nothing is lost: an item dropped repeats a timestamp that was emitted, or the start. */
  ghost predicate OnlyRepeats(o: Out, start: int) {
    && o.disorder == 0
    && (forall x :: x in o.dropped ==> x.ts == start || exists y :: y in o.output && y.ts == x.ts)
  }

  ghost predicate Timely(m: Merger) {
    Placed(m) && Current(m) && Least(m) && AllCovered(m) && AllInTime(m)
  }

  lemma SendTimely(m: Merger)
    requires Enabled(m, Send) && Timely(m)
    ensures AllCovered(Apply(m, Send)) && AllInTime(Apply(m, Send))
  {
  }

  lemma CheckTimely(m: Merger)
    requires Enabled(m, Check) && Timely(m)
    ensures AllCovered(Apply(m, Check)) && AllInTime(Apply(m, Check))
  {
  }

  lemma ReceiveTimely(m: Merger, item: Item)
    requires Enabled(m, Receive(item)) && Steady(m, Receive(item)) && Timely(m)
    ensures AllCovered(Apply(m, Receive(item))) && AllInTime(Apply(m, Receive(item)))
  {
    var n := Apply(m, Receive(item));
    assert Covered(m, item.source);
    forall id | Covered(m, id) ensures Covered(n, id) {
    }
  }

  /** Steps of the collector and turns of the loop that receive and emit nothing. */
  lemma QuietTimely(m: Merger, step: Step)
    requires Enabled(m, step) && Steady(m, step) && Timely(m)
    requires !step.Send? && !step.Check? && !step.Receive?
    ensures AllCovered(Apply(m, step)) && AllInTime(Apply(m, step))
  {
    var n := Apply(m, step);
    forall id | Covered(m, id) ensures Covered(n, id) {
    }
  }

  lemma StepTimely(m: Merger, step: Step)
    requires Enabled(m, step) && Steady(m, step) && Timely(m)
    ensures Timely(Apply(m, step))
  {
    StepPlaced(m, step);
    StepCurrent(m, step);
    match step
    case Send => SendTimely(m);
    case Check => CheckTimely(m);
    case Receive(item) => ReceiveTimely(m, item);
    case _ => QuietTimely(m, step);
  }

  lemma EmitRepeats(o: Out, item: Item, start: int)
    requires Ordered(o, start) && OnlyRepeats(o, start) && o.latest <= item.ts
    ensures OnlyRepeats(Emit(o, item), start)
  {
    var n := Emit(o, item);
    forall x | x in n.dropped ensures x.ts == start || exists y :: y in n.output && y.ts == x.ts {
      if x in o.dropped && x.ts != start {
        var y :| y in o.output && y.ts == x.ts;
        assert y in n.output;
      } else if o.output != [] {
        assert o.output[|o.output| - 1] in n.output;
      }
    }
  }

  lemma {:induction false} RunTimely(m: Merger, steps: seq<Step>, n: Merger, start: int)
    requires SteadyRun(m, steps, n) && Sound(m, start) && Timely(m) && OnlyRepeats(m.out, start)
    ensures Sound(n, start) && Timely(n) && OnlyRepeats(n.out, start)
    decreases |steps|
  {
    if steps != [] {
      StepSound(m, steps[0], start);
      StepTimely(m, steps[0]);
      if steps[0].Send? {
        EmitRepeats(m.out, m.phase.item, start);
      }
      RunTimely(Apply(m, steps[0]), steps[1..], n, start);
    }
  }

  /** Main result for steady sources, however they come and go: nothing is dropped as out of order,
      and the timestamp of every item received is the start, was emitted, or still waits. */
  lemma NothingLost(sources: set<string>, start: int, steps: seq<Step>, m: Merger, x: Item)
    requires SteadyRun(Init(sources, start), steps, m) && x in m.received
    ensures m.out.disorder == 0
    ensures x.ts == start || Waits(m, x) || exists y :: y in m.out.output && y.ts == x.ts
  {
    RunTimely(Init(sources, start), steps, m, start);
    assert m.received[x] == multiset(m.out.output)[x] + m.out.dropped[x] + if Waits(m, x) then 1 else 0;
    assert x in multiset(m.out.output) ==> x in m.out.output;
  }

  // ---------------------------------------------------------------- when a source joins

  /** No steady continuation drops an item as out of order. */
  ghost predicate SafeAfter(m: Merger) {
    forall n :: Goes(m, n) ==> n.out.disorder == 0
  }

  lemma GoesStep(m: Merger, step: Step)
    requires Enabled(m, step) && Steady(m, step)
    ensures Goes(m, Apply(m, step))
  {
    var n := Apply(m, step);
    assert SteadyRun(n, [], n);
    assert [step][1..] == [];
    assert SteadyRun(m, [step], n);
  }

  lemma {:induction false} SteadyJoined(m: Merger, steps: seq<Step>, n: Merger, steps': seq<Step>, n': Merger)
    requires SteadyRun(m, steps, n) && SteadyRun(n, steps', n')
    ensures SteadyRun(m, steps + steps', n')
    decreases |steps|
  {
    var all := steps + steps';
    if steps == [] {
      assert all == steps';
    } else {
      SteadyJoined(Apply(m, steps[0]), steps[1..], n, steps', n');
      assert all[1..] == steps[1..] + steps';
    }
  }

  lemma GoesOn(m: Merger, n: Merger, n': Merger)
    requires Goes(m, n) && Goes(n, n')
    ensures Goes(m, n')
  {
    var steps :| SteadyRun(m, steps, n);
    var steps' :| SteadyRun(n, steps', n');
    SteadyJoined(m, steps, n, steps', n');
  }

  /** At the top of the loop, with everything held in time and every source but one covered. */
  ghost predicate Resting(m: Merger, late: string) {
    && m.phase.Top? && m.collector.Idle? && m.out.disorder == 0
    && (forall id :: id in m.held ==> m.out.latest <= m.held[id].ts)
    && late in m.sources && late !in m.held && late in m.reached && m.reached[late] < m.out.latest
    && (forall id :: id in m.sources && id != late ==> id in m.held || (id in m.reached && m.out.latest <= m.reached[id]))
  }

  /** A source with an item waiting has reached what is decided. */
  lemma WaitingPunctual(m: Merger, id: string)
    requires Timely(m) && (id in m.held || (InHand(m) != None && InHand(m).value.source == id))
    ensures Punctual(m, id)
  {
  }

  /** The run loop returns to its top, without receiving anything. */
  lemma FinishRound(m: Merger) returns (n: Merger)
    requires m.collector.Idle? && m.changed
    ensures Goes(m, n) && n.phase.Top? && n.collector.Idle?
    ensures n.sources == m.sources && n.reached == m.reached
    ensures m.phase.Sending? ==> n.held == m.held && n.out == Emit(m.out, m.phase.item)
    ensures !m.phase.Sending? ==> n.out == m.out
    ensures !m.phase.Sending? && !m.phase.Popped? ==> n.held == m.held
    ensures m.phase.Popped? ==> n.held == m.held[m.phase.item.source := m.phase.item]
  {
    match m.phase
    case Top =>
      n := m;
      assert SteadyRun(m, [], m);
    case Ready =>
      GoesStep(m, Skip);
      n := Apply(m, Skip);
    case Reading(_) =>
      GoesStep(m, Skip);
      n := Apply(m, Skip);
    case Popped(_, _) =>
      GoesStep(m, Check);
      n := Apply(m, Check);
    case Sending(_) =>
      GoesStep(m, Send);
      GoesStep(Apply(m, Send), Publish);
      n := Apply(Apply(m, Send), Publish);
      GoesOn(m, Apply(m, Send), n);
    case Publishing =>
      GoesStep(m, Publish);
      n := Apply(m, Publish);
  }

  lemma FinishLate(m: Merger) returns (n: Merger)
    requires m.collector.Adding? && Timely(m) && m.out.disorder == 0 && !Punctual(m, m.collector.id)
    ensures Goes(Apply(m, Flag), n) && Resting(n, m.collector.id)
    ensures n.sources == m.sources && n.reached == m.reached && n.out.latest == Ahead(m)
    ensures forall x :: m.out.dropped[x] <= n.out.dropped[x]
  {
    var late := m.collector.id;
    n := FinishRound(Apply(m, Flag));
    forall id | id in m.held || (InHand(m) != None && InHand(m).value.source == id) ensures id != late {
      WaitingPunctual(m, id);
    }
    forall id | id in m.sources && id != late
      ensures id in n.held || (id in n.reached && n.out.latest <= n.reached[id])
    {
      assert Covered(m, id);
    }
  }

  /** Every source of a set delivers what it had reached. */
  lemma {:induction false} FillFrom(m: Merger, todo: set<string>) returns (n: Merger)
    requires m.phase.Reading? && !Locked(m) && todo <= m.phase.snapshot - m.held.Keys && todo <= m.reached.Keys
    requires forall id :: id in todo ==> m.out.latest <= m.reached[id]
    requires forall id :: id in m.held ==> m.out.latest <= m.held[id].ts
    ensures Goes(m, n) && n.phase == m.phase && n.collector == m.collector && n.changed == m.changed && n.out == m.out
    ensures n.held.Keys == m.held.Keys + todo && n.reached == m.reached
    ensures forall id :: id in n.held ==> n.out.latest <= n.held[id].ts
    decreases todo
  {
    if todo == {} {
      n := m;
      assert SteadyRun(m, [], m);
    } else {
      var id :| id in todo;
      var step := Receive(Item(m.reached[id], id, ""));
      var next := Apply(m, step);
      assert next.reached == m.reached;
      GoesStep(m, step);
      n := FillFrom(next, todo - {id});
      GoesOn(m, next, n);
      assert m.held.Keys + {id} + (todo - {id}) == m.held.Keys + todo;
    }
  }

  /** With all other sources filled, the item of the late one is received, popped and dropped. */
  lemma DropLate(m: Merger, y: Item) returns (n: Merger)
    requires m.phase.Reading? && m.collector.Idle? && !m.changed && m.out.disorder == 0
    requires y.source in m.phase.snapshot - m.held.Keys && m.phase.snapshot <= m.held.Keys + {y.source}
    requires Reached(m, y.source, y.ts) && y.ts < m.out.latest
    requires forall id :: id in m.held ==> m.out.latest <= m.held[id].ts
    ensures Goes(m, n) && n.out.disorder == 1 && n.out.dropped[y] == m.out.dropped[y] + 1
  {
    var m1 := Apply(m, Receive(y));
    GoesStep(m, Receive(y));
    assert LeastHeld(m1.held, y.source);
    var m2 := Apply(m1, Pop(y.source));
    GoesStep(m1, Pop(y.source));
    var m3 := Apply(m2, Check);
    GoesStep(m2, Check);
    n := Apply(m3, Send);
    GoesStep(m3, Send);
    GoesOn(m, m1, m2);
    GoesOn(m, m2, m3);
    GoesOn(m, m3, n);
  }

  lemma LateRound(m: Merger, y: Item) returns (n: Merger)
    requires Resting(m, y.source) && m.reached[y.source] <= y.ts < m.out.latest
    ensures Goes(m, n) && n.out.disorder == 1 && n.out.dropped[y] == m.out.dropped[y] + 1
  {
    var m1 := Apply(m, Reset);
    GoesStep(m, Reset);
    var m2 := Apply(m1, Snap);
    GoesStep(m1, Snap);
    var m3 := FillFrom(m2, m.sources - m.held.Keys - {y.source});
    n := DropLate(m3, y);
    GoesOn(m, m1, m2);
    GoesOn(m, m2, m3);
    GoesOn(m, m3, n);
  }

  /** A source that joins late can lose every item between what it reached and what is decided. */
  lemma LateJoins(m: Merger, y: Item) returns (n: Merger)
    requires m.collector.Adding? && Timely(m) && m.out.disorder == 0
    requires y.source == m.collector.id && Reached(m, y.source, y.ts) && y.ts < Ahead(m)
    ensures Goes(Apply(m, Flag), n) && n.out.disorder == 1 && m.out.dropped[y] < n.out.dropped[y]
  {
    var m1 := FinishLate(m);
    n := LateRound(m1, y);
    GoesOn(Apply(m, Flag), m1, n);
  }

  /** Main result when a source joins: all steady continuations are free of loss if and only if no
      item emitted, and none that has passed the check, is above what the source delivers. */
  lemma JoinExact(sources: set<string>, start: int, steps: seq<Step>, m: Merger)
    requires SteadyRun(Init(sources, start), steps, m) && m.collector.Adding?
    ensures SafeAfter(Apply(m, Flag)) <==> Punctual(m, m.collector.id)
  {
    RunTimely(Init(sources, start), steps, m, start);
    var id, next := m.collector.id, Apply(m, Flag);
    if Punctual(m, id) {
      StepSound(m, Flag, start);
      StepTimely(m, Flag);
      forall n | Goes(next, n) ensures n.out.disorder == 0 {
        var rest :| SteadyRun(next, rest, n);
        RunTimely(next, rest, n, start);
      }
    } else {
      var n := LateJoins(m, Item(m.reached[id], id, ""));
      assert Goes(next, n) && n.out.disorder != 0;
    }
  }

  lemma FourSteps(m: Merger, a: Step, m1: Merger, b: Step, m2: Merger, c: Step, m3: Merger, d: Step, n: Merger)
    requires Enabled(m, a) && Steady(m, a) && m1 == Apply(m, a)
    requires Enabled(m1, b) && Steady(m1, b) && m2 == Apply(m1, b)
    requires Enabled(m2, c) && Steady(m2, c) && m3 == Apply(m2, c)
    requires Enabled(m3, d) && Steady(m3, d) && n == Apply(m3, d)
    ensures SteadyRun(m, [a, b, c, d], n)
  {
    var steps := [a, b, c, d];
    assert SteadyRun(n, [], n);
    assert steps[1..] == [b, c, d] && [b, c, d][1..] == [c, d] && [c, d][1..] == [d] && [d][1..] == [];
    assert SteadyRun(m3, [d], n);
    assert SteadyRun(m2, [c, d], n);
    assert SteadyRun(m1, [b, c, d], n);
  }

  /** One source, whose first item is popped; the collector is where it is. */
  function FirstPopped(a: string, start: int, x: Item, collector: Collector): Merger {
    Merger({a}, collector, false, Popped({a}, x), map[], start, map[a := x.ts], multiset{x}, Out(start, [], multiset{}, 0))
  }

  lemma PopFirst(a: string, start: int, x: Item, collector: Collector)
    requires x.source == a && start <= x.ts && (collector.Idle? || collector.Asked?)
    ensures SteadyRun(Init({a}, start).(collector := collector), [Reset, Snap, Receive(x), Pop(a)],
                      FirstPopped(a, start, x, collector))
  {
    var m := Init({a}, start).(collector := collector);
    var m1 := Apply(m, Reset);
    var m2 := Apply(m1, Snap);
    var m3 := Apply(m2, Receive(x));
    assert m3.held == map[a := x] && m3.reached == map[a := x.ts] && m3.received == multiset{x};
    assert m3.held - {a} == map[];
    FourSteps(m, Reset, m1, Snap, m2, Receive(x), m3, Pop(a), FirstPopped(a, start, x, collector));
  }

  /** The collector reads the published timestamp before it adds the source. If an item is emitted in
      between, the source joins too late, and some continuation loses an item of it. */
  lemma JoinRace(start: int, a: string, x: Item, b: string) returns (m: Merger)
    requires a != b && x.source == a && start + 1 < x.ts
    ensures SteadyRun(Init({a}, start), [Ask(b)] + [Reset, Snap, Receive(x), Pop(a)] + [Check, Send, Publish, Add], m)
    ensures m.collector == Adding(b) && !SafeAfter(Apply(m, Flag))
  {
    var first := Init({a}, start);
    var asked := first.(collector := Asked(b, start));
    var popped := FirstPopped(a, start, x, Asked(b, start));
    assert SteadyRun(asked, [], asked) && [Ask(b)][1..] == [];
    assert SteadyRun(first, [Ask(b)], asked);
    PopFirst(a, start, x, Asked(b, start));
    var m1 := Apply(popped, Check);
    var m2 := Apply(m1, Send);
    var m3 := Apply(m2, Publish);
    m := Apply(m3, Add);
    FourSteps(popped, Check, m1, Send, m2, Publish, m3, Add, m);
    SteadyJoined(first, [Ask(b)], asked, [Reset, Snap, Receive(x), Pop(a)], popped);
    SteadyJoined(first, [Ask(b)] + [Reset, Snap, Receive(x), Pop(a)], popped, [Check, Send, Publish, Add], m);
    JoinExact({a}, start, [Ask(b)] + [Reset, Snap, Receive(x), Pop(a)] + [Check, Send, Publish, Add], m);
  }

  /** The same although nothing is emitted in between: an item has passed the check and is not sent
      yet when the collector reads the timestamp, adds the source and raises the flag. */
  lemma SendRace(start: int, a: string, x: Item, b: string) returns (m: Merger)
    requires a != b && x.source == a && start + 1 < x.ts
    ensures SteadyRun(Init({a}, start), [Reset, Snap, Receive(x), Pop(a)] + [Check, Ask(b), Add], m)
    ensures m.phase == Sending(x) && m.collector == Adding(b) && m.out.output == [] && !SafeAfter(Apply(m, Flag))
  {
    var first := Init({a}, start);
    var popped := FirstPopped(a, start, x, Idle);
    PopFirst(a, start, x, Idle);
    assert first.(collector := Idle) == first;
    var m1 := Apply(popped, Check);
    var m2 := Apply(m1, Ask(b));
    m := Apply(m2, Add);
    assert SteadyRun(m, [], m) && [Add][1..] == [] && [Ask(b), Add][1..] == [Add];
    assert [Check, Ask(b), Add][1..] == [Ask(b), Add];
    assert SteadyRun(m2, [Add], m);
    assert SteadyRun(m1, [Ask(b), Add], m);
    SteadyJoined(first, [Reset, Snap, Receive(x), Pop(a)], popped, [Check, Ask(b), Add], m);
    JoinExact({a}, start, [Reset, Snap, Receive(x), Pop(a)] + [Check, Ask(b), Add], m);
  }
}
