/** What the drainer's checkpoint makes progress with: which timestamp is saved and when, and what becomes
    of the binlogs that are not handed downstream. */
module DrainerSaves {
  import opened Collections
  import opened DrainerCheckpoint

  // ---------------------------------------------------------------- what is saved

  /** The timestamp that the acknowledging loop takes in a step, of an item or of a fake binlog. */
  function TakenBy(s: State, step: Step): seq<int>
    requires Enabled(s, step)
  {
    match step
    case Ack(i, _) => [s.handed[i].ts]
    case TakeFake(_) => [s.channel[0]]
    case _ => []
  }

  /** All timestamps taken in a run, in order. */
  ghost function Taken(s: State, steps: seq<Step>, t: State): seq<int>
    requires Runs(s, steps, t)
    decreases |steps|
  {
    if steps == [] then [] else TakenBy(s, steps[0]) + Taken(Apply(s, steps[0]), steps[1..], t)
  }

  ghost predicate Largest(m: int, tss: seq<int>) {
    m in tss && forall i :: 0 <= i < |tss| ==> tss[i] <= m
  }

  ghost predicate LastIs(a: Acker, taken: seq<int>) {
    if taken == [] then a.lastTS == 0 else Largest(a.lastTS, taken)
  }

  function LastSaved(s: State): int
    requires s.acker.saved != []
  {
    s.acker.saved[|s.acker.saved| - 1]
  }

  lemma LargestNext(m: int, tss: seq<int>, ts: int)
    requires if tss == [] then m == 0 && 0 < ts else Largest(m, tss)
    ensures Largest(if ts > m then ts else m, tss + [ts])
  {
    assert (tss + [ts])[|tss|] == ts;
    if tss != [] {
      assert m in tss + [ts];
    }
  }

  lemma StepLast(s: State, step: Step, cp: int, taken: seq<int>)
    requires Enabled(s, step) && Inv(s, cp) && LastIs(s.acker, taken)
    ensures LastIs(Apply(s, step).acker, taken + TakenBy(s, step))
  {
    if TakenBy(s, step) == [] {
      assert taken + [] == taken;
    } else {
      LargestNext(s.acker.lastTS, taken, TakenBy(s, step)[0]);
    }
  }

  lemma Append3<T>(a: seq<T>, b: seq<T>, c: seq<T>)
    ensures a + b + c == a + (b + c) && a + [] == a && [] + a == a
  {
  }

  lemma {:induction false} RunLast(s: State, steps: seq<Step>, t: State, cp: int, taken: seq<int>)
    requires Runs(s, steps, t) && Inv(s, cp) && LastIs(s.acker, taken)
    ensures LastIs(t.acker, taken + Taken(s, steps, t))
    decreases |steps|
  {
    if steps == [] {
      Append3(taken, [], []);
    } else {
      var next, here := Apply(s, steps[0]), TakenBy(s, steps[0]);
      StepKeeps(s, steps[0], cp);
      StepLast(s, steps[0], cp, taken);
      RunLast(next, steps[1..], t, cp, taken + here);
      Append3(taken, here, Taken(next, steps[1..], t));
    }
  }

  /** A step that has to save: an urgent item, any item or fake binlog when the time has come, and the end. */
  predicate Saves(s: State, step: Step)
    requires Enabled(s, step)
  {
    match step
    case Ack(i, elapsed) => s.handed[i].urgent || elapsed
    case TakeFake(elapsed) => elapsed
    case LastSave => true
    case _ => false
  }

  lemma RaiseSaves(a: Acker, ts: int, now: bool, cp: int)
    requires 0 <= cp && OrderInv(a, cp) && (ts > cp || ts == a.lastTS)
    ensures var b := Raise(a, ts, now);
      && b.saved != [] && a.saved != []
      && (now ==> b.saved[|b.saved| - 1] == if b.lastTS == 0 then cp else b.lastTS)
      && (!now ==> b.saved == a.saved)
  {
  }

  lemma SaveStep(s: State, step: Step, cp: int)
    requires Enabled(s, step) && Inv(s, cp)
    ensures s.acker.saved != [] && Apply(s, step).acker.saved != []
    ensures var t := Apply(s, step);
      && (Saves(s, step) ==> LastSaved(t) == if t.acker.lastTS == 0 then cp else t.acker.lastTS)
      && (!Saves(s, step) ==> LastSaved(t) == LastSaved(s))
  {
    match step
    case Ack(i, elapsed) => RaiseSaves(s.acker, s.handed[i].ts, s.handed[i].urgent || elapsed, cp);
    case TakeFake(elapsed) => RaiseSaves(s.acker, s.channel[0], elapsed, cp);
    case LastSave => RaiseSaves(s.acker, s.acker.lastTS, true, cp);
    case _ =>
  }

  lemma TakenAbove(s: State, step: Step, cp: int)
    requires Enabled(s, step) && AboveInv(s, cp)
    ensures forall i :: 0 <= i < |TakenBy(s, step)| ==> cp < TakenBy(s, step)[i]
  {
  }

  lemma {:induction false} AllAbove(s: State, steps: seq<Step>, t: State, cp: int)
    requires Runs(s, steps, t) && AboveInv(s, cp)
    ensures forall i :: 0 <= i < |Taken(s, steps, t)| ==> cp < Taken(s, steps, t)[i]
    decreases |steps|
  {
    if steps != [] {
      TakenAbove(s, steps[0], cp);
      StepKeepsAbove(s, steps[0], cp);
      AllAbove(Apply(s, steps[0]), steps[1..], t, cp);
    }
  }

  /** The last timestamp is the largest one taken in the run. */
  lemma RunTaken(cp: int, steps: seq<Step>, s: State)
    requires 0 <= cp && Runs(Init(cp), steps, s)
    ensures LastIs(s.acker, Taken(Init(cp), steps, s))
    ensures forall i :: 0 <= i < |Taken(Init(cp), steps, s)| ==> cp < Taken(Init(cp), steps, s)[i]
  {
    InitInv(cp);
    Append3(Taken(Init(cp), steps, s), [], []);
    RunLast(Init(cp), steps, s, cp, []);
    AllAbove(Init(cp), steps, s, cp);
  }

  lemma SaveNext(s: State, step: Step, cp: int, before: seq<int>)
    requires Enabled(s, step) && Inv(s, cp) && LastIs(s.acker, before)
    requires forall i :: 0 <= i < |before| ==> cp < before[i]
    ensures s.acker.saved != [] && Apply(s, step).acker.saved != []
    ensures var taken, t := before + TakenBy(s, step), Apply(s, step);
      && (Saves(s, step) && taken == [] ==> LastSaved(t) == cp)
      && (Saves(s, step) && taken != [] ==> Largest(LastSaved(t), taken))
      && (!Saves(s, step) ==> LastSaved(t) == LastSaved(s))
  {
    StepLast(s, step, cp, before);
    SaveStep(s, step, cp);
    TakenAbove(s, step, cp);
  }

  /** Main result: in every run, after a step that has to save, the last saved timestamp is the largest one
      taken so far, or the checkpoint of the start if none was; other steps save nothing new. */
  lemma SavesLargest(cp: int, steps: seq<Step>, s: State, step: Step)
    requires 0 <= cp && Runs(Init(cp), steps, s) && Enabled(s, step)
    ensures s.acker.saved != [] && Apply(s, step).acker.saved != []
    ensures var taken, t := Taken(Init(cp), steps, s) + TakenBy(s, step), Apply(s, step);
      && (Saves(s, step) && taken == [] ==> LastSaved(t) == cp)
      && (Saves(s, step) && taken != [] ==> Largest(LastSaved(t), taken))
      && (!Saves(s, step) ==> LastSaved(t) == LastSaved(s))
  {
    InitInv(cp);
    RunKeeps(Init(cp), steps, s, cp);
    RunTaken(cp, steps, s);
    SaveNext(s, step, cp, Taken(Init(cp), steps, s));
  }

  // ---------------------------------------------------------------- fake binlogs

  /** The fake binlogs that a step adds to those waiting. */
  function KeptBy(s: State, step: Step): seq<Fake>
    requires Enabled(s, step)
  {
    var before, after := s.loop.fakes, Apply(s, step).loop.fakes;
    if step.Quiet? && |before| <= |after| then after[|before|..] else []
  }

  ghost function Kept(s: State, steps: seq<Step>, t: State): seq<Fake>
    requires Runs(s, steps, t)
    decreases |steps|
  {
    if steps == [] then [] else KeptBy(s, steps[0]) + Kept(Apply(s, steps[0]), steps[1..], t)
  }

  function TimestampsOf(fakes: seq<Fake>): seq<int> {
    seq(|fakes|, i requires 0 <= i < |fakes| => fakes[i].ts)
  }

  function Waiting(s: State): seq<int> {
    s.channel + (if s.loop.staged == None then [] else [s.loop.staged.value]) + TimestampsOf(s.loop.fakes)
  }

  function FakesTakenBy(s: State, step: Step): seq<int>
    requires Enabled(s, step)
  {
    if step.TakeFake? then [s.channel[0]] else []
  }

  ghost function FakesTaken(s: State, steps: seq<Step>, t: State): seq<int>
    requires Runs(s, steps, t)
    decreases |steps|
  {
    if steps == [] then [] else FakesTakenBy(s, steps[0]) + FakesTaken(Apply(s, steps[0]), steps[1..], t)
  }

  lemma StepMoves(s: State, step: Step)
    requires Enabled(s, step)
    ensures FakesTakenBy(s, step) + Waiting(Apply(s, step)) == Waiting(s) + TimestampsOf(KeptBy(s, step))
  {
    var t := Apply(s, step);
    match step
    case Quiet(ts) =>
      var more := KeptBy(s, step);
      assert t.loop.fakes == s.loop.fakes + more;
      assert TimestampsOf(t.loop.fakes) == TimestampsOf(s.loop.fakes) + TimestampsOf(more);
    case Stage =>
      assert s.loop.fakes == [s.loop.fakes[0]] + t.loop.fakes;
      assert TimestampsOf(s.loop.fakes) == [s.loop.fakes[0].ts] + TimestampsOf(t.loop.fakes);
    case Push => assert TimestampsOf(t.loop.fakes) == TimestampsOf(s.loop.fakes);
    case TakeFake(_) => assert s.channel == [s.channel[0]] + t.channel;
    case _ =>
  }

  lemma Regroup(a: seq<int>, b: seq<int>, c: seq<int>, d: seq<int>, e: seq<int>)
    requires a + b == c + d
    ensures a + (b + e) == c + (d + e)
  {
    assert a + (b + e) == a + b + e && c + (d + e) == c + d + e;
  }

  lemma TimestampsJoin(a: seq<Fake>, b: seq<Fake>)
    ensures TimestampsOf(a + b) == TimestampsOf(a) + TimestampsOf(b)
  {
  }

  /** Main result: no fake binlog that was kept is lost or overtaken on its way through the run loop and the
      channel to the acknowledging loop. */
  lemma {:induction false} FakesConserved(s: State, steps: seq<Step>, t: State)
    requires Runs(s, steps, t)
    ensures FakesTaken(s, steps, t) + Waiting(t) == Waiting(s) + TimestampsOf(Kept(s, steps, t))
    decreases |steps|
  {
    if steps == [] {
      assert [] + Waiting(t) == Waiting(t) + TimestampsOf([]);
    } else {
      var next, rest := Apply(s, steps[0]), steps[1..];
      FakesConserved(next, rest, t);
      StepMoves(s, steps[0]);
      TimestampsJoin(KeptBy(s, steps[0]), Kept(next, rest, t));
      var x, y := FakesTakenBy(s, steps[0]), FakesTaken(next, rest, t);
      var k, l := TimestampsOf(KeptBy(s, steps[0])), TimestampsOf(Kept(next, rest, t));
      Append3(x, y, Waiting(t));
      Regroup(x, Waiting(next), Waiting(s), k, l);
    }
  }

  /** The last fake binlog that was kept is the one whose time is remembered, and they are far apart. */
  ghost predicate Spaced(l: Loop, kept: seq<Fake>) {
    && (l.lastFakeTime == None <==> kept == [])
    && (kept != [] ==> l.lastFakeTime == Some(kept[|kept| - 1].ts / MS))
    && (forall i :: 0 <= i < |kept| - 1 ==> kept[i + 1].ts / MS - kept[i].ts / MS > 3000)
  }

  /** A fake binlog not later than the timestamp, and at most three seconds older, was kept. */
  ghost predicate Represented(ts: int, kept: seq<Fake>) {
    exists i :: 0 <= i < |kept| && kept[i].ts <= ts && ts / MS - kept[i].ts / MS <= 3000
  }

  lemma StepSpaced(s: State, step: Step, kept: seq<Fake>)
    requires Enabled(s, step) && Spaced(s.loop, kept) && (forall i :: 0 <= i < |kept| ==> kept[i].ts <= s.lastIn)
    ensures Spaced(Apply(s, step).loop, kept + KeptBy(s, step))
    ensures forall i :: 0 <= i < |kept + KeptBy(s, step)| ==> (kept + KeptBy(s, step))[i].ts <= Apply(s, step).lastIn
    ensures step.Quiet? ==> Represented(step.ts, kept + KeptBy(s, step))
    ensures step.Quiet? && KeptBy(s, step) != [] ==> KeptBy(s, step) == [Fake(step.ts, s.loop.lastAdd)]
  {
    var all := kept + KeptBy(s, step);
    assert kept + [] == kept;
    if step.Quiet? {
      if KeptBy(s, step) == [] {
        assert all[|kept| - 1] == kept[|kept| - 1];
      } else {
        assert KeptBy(s, step) == [Fake(step.ts, s.loop.lastAdd)];
        assert all[|kept|].ts == step.ts;
      }
    }
  }

  lemma RepresentedLonger(ts: int, kept: seq<Fake>, more: seq<Fake>)
    requires Represented(ts, kept)
    ensures Represented(ts, kept + more)
  {
    var i :| 0 <= i < |kept| && kept[i].ts <= ts && ts / MS - kept[i].ts / MS <= 3000;
    assert (kept + more)[i] == kept[i];
  }

  lemma FirstAndRest(steps: seq<Step>, kept: seq<Fake>)
    requires steps != [] && (steps[0].Quiet? ==> Represented(steps[0].ts, kept))
    requires forall i :: 0 <= i < |steps[1..]| && steps[1..][i].Quiet? ==> Represented(steps[1..][i].ts, kept)
    ensures forall i :: 0 <= i < |steps| && steps[i].Quiet? ==> Represented(steps[i].ts, kept)
  {
    forall i | 0 < i < |steps| && steps[i].Quiet? ensures Represented(steps[i].ts, kept) {
      assert steps[1..][i - 1] == steps[i];
    }
  }

  lemma {:induction false} RunSpaced(s: State, steps: seq<Step>, t: State, kept: seq<Fake>)
    requires Runs(s, steps, t) && Spaced(s.loop, kept) && (forall i :: 0 <= i < |kept| ==> kept[i].ts <= s.lastIn)
    ensures Spaced(t.loop, kept + Kept(s, steps, t))
    ensures forall i :: 0 <= i < |steps| && steps[i].Quiet? ==> Represented(steps[i].ts, kept + Kept(s, steps, t))
    decreases |steps|
  {
    if steps == [] {
      Append3(kept, [], []);
    } else {
      var next, rest, here := Apply(s, steps[0]), steps[1..], kept + KeptBy(s, steps[0]);
      StepSpaced(s, steps[0], kept);
      RunSpaced(next, rest, t, here);
      Append3(kept, KeptBy(s, steps[0]), Kept(next, rest, t));
      if steps[0].Quiet? {
        RepresentedLonger(steps[0].ts, here, Kept(next, rest, t));
      }
      FirstAndRest(steps, here + Kept(next, rest, t));
    }
  }

  /** In every run each binlog that is not handed downstream is represented by a fake binlog at most three
      seconds older, and the fake binlogs are more than three seconds apart. */
  lemma QuietRepresented(cp: int, steps: seq<Step>, t: State, i: nat)
    requires Runs(Init(cp), steps, t) && i < |steps| && steps[i].Quiet?
    ensures Represented(steps[i].ts, Kept(Init(cp), steps, t)) && Spaced(t.loop, Kept(Init(cp), steps, t))
  {
    Append3(Kept(Init(cp), steps, t), [], []);
    RunSpaced(Init(cp), steps, t, []);
  }
}
