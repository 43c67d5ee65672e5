/** The drainer's merger: one item per source is held, the one with the least timestamp is popped,
    and it is emitted unless its timestamp is not above the latest one. */
module DrainerMerge {
  import opened Collections

  datatype Item = Item(ts: int, source: string, body: string)

  /** What a strategy's `Pop` may return. */
  ghost predicate LeastHeld(held: map<string, Item>, id: string) {
    id in held && forall other :: other in held ==> held[id].ts <= held[other].ts
  }

  predicate IsHeld(held: map<string, Item>, x: Item) {
    x.source in held && held[x.source] == x
  }

  /** The timestamps of each source, in order. */
  type Sources = map<string, seq<int>>

  ghost predicate Sorted(s: seq<int>) {
    forall i, j :: 0 <= i < j < |s| ==> s[i] <= s[j]
  }

  ghost predicate AllSorted(all: Sources) {
    forall id :: id in all ==> Sorted(all[id])
  }

  /** How many items of each source are popped, the last timestamp popped, the latest emitted and
      the output. */
  datatype Round = Round(pos: map<string, nat>, low: Option<int>, latest: int, output: seq<int>)

  function Start(all: Sources, ts: int): Round {
    Round(map id | id in all :: 0, None, ts, [])
  }

  /** In each round one item is held from every source and a least one is popped; a drained source
      stops the merge. */
  ghost predicate CanPop(all: Sources, r: Round, id: string) {
    && r.pos.Keys == all.Keys && id in all
    && (forall other :: other in all ==> r.pos[other] < |all[other]|)
    && (forall other :: other in all ==> all[id][r.pos[id]] <= all[other][r.pos[other]])
  }

  ghost function PopFrom(all: Sources, r: Round, id: string): Round
    requires CanPop(all, r, id)
  {
    var ts, pos := all[id][r.pos[id]], r.pos[id := r.pos[id] + 1];
    if ts <= r.latest then Round(pos, Some(ts), r.latest, r.output)
    else Round(pos, Some(ts), ts, r.output + [ts])
  }

  ghost predicate Rounds(all: Sources, r: Round, ids: seq<string>, t: Round)
    decreases |ids|
  {
    if ids == [] then r == t
    else CanPop(all, r, ids[0]) && Rounds(all, PopFrom(all, r, ids[0]), ids[1..], t)
  }

  ghost predicate Drained(all: Sources, r: Round) {
    exists id :: id in all && id in r.pos && r.pos[id] == |all[id]|
  }

  /** The part popped is at or below `low`, the rest at or above, and if all is popped then `low`
      is the last timestamp. */
  ghost predicate Split(source: seq<int>, pos: nat, low: Option<int>) {
    && pos <= |source|
    && (low == None ==> pos == 0)
    && (low != None ==> source != [])
    && (low != None ==> forall i :: 0 <= i < pos ==> source[i] <= low.value)
    && (low != None ==> forall i :: pos <= i < |source| ==> low.value <= source[i])
    && (pos == |source| > 0 ==> low == Some(source[|source| - 1]))
  }

  ghost predicate SplitAll(all: Sources, r: Round) {
    r.pos.Keys == all.Keys && forall id :: id in all ==> Split(all[id], r.pos[id], r.low)
  }

  /** A timestamp was popped. */
  ghost predicate Popped(all: Sources, pos: map<string, nat>, ts: int) {
    exists id, i :: id in all && id in pos && 0 <= i < |all[id]| && i < pos[id] && all[id][i] == ts
  }

  /** The output has the timestamps popped above the start. */
  ghost predicate OutputIs(all: Sources, r: Round, start: int) {
    forall ts :: ts in r.output <==> start < ts && Popped(all, r.pos, ts)
  }

  ghost predicate Rising(s: seq<int>) {
    forall i, j :: 0 <= i < j < |s| ==> s[i] < s[j]
  }

  ghost predicate Latest(low: Option<int>, latest: int, output: seq<int>, start: int) {
    && Rising(output)
    && (forall i :: 0 <= i < |output| ==> output[i] <= latest)
    && latest == (if low == None || low.value <= start then start else low.value)
    && (low != None && start < low.value ==> low.value in output)
    && (low == None ==> output == [])
  }

  ghost predicate RoundInv(all: Sources, r: Round, start: int) {
    SplitAll(all, r) && OutputIs(all, r, start) && Latest(r.low, r.latest, r.output, start)
  }

  lemma SplitMoves(source: seq<int>, pos: nat, low: Option<int>, ts: int)
    requires Sorted(source) && Split(source, pos, low) && pos < |source| && ts <= source[pos]
    requires low != None ==> low.value <= ts
    ensures Split(source, pos, Some(ts)) && (ts == source[pos] ==> Split(source, pos + 1, Some(ts)))
  {
  }

  lemma PopKeepsSplit(all: Sources, r: Round, id: string)
    requires AllSorted(all) && SplitAll(all, r) && CanPop(all, r, id)
    ensures SplitAll(all, PopFrom(all, r, id))
    ensures r.low != None ==> r.low.value <= all[id][r.pos[id]]
  {
    var ts := all[id][r.pos[id]];
    assert Split(all[id], r.pos[id], r.low);
    forall other | other in all ensures Split(all[other], PopFrom(all, r, id).pos[other], Some(ts)) {
      assert Split(all[other], r.pos[other], r.low);
      SplitMoves(all[other], r.pos[other], r.low, ts);
    }
  }

  lemma PoppedGrows(all: Sources, r: Round, id: string, ts: int)
    requires CanPop(all, r, id)
    ensures Popped(all, PopFrom(all, r, id).pos, ts) <==> Popped(all, r.pos, ts) || ts == all[id][r.pos[id]]
  {
    var pos := PopFrom(all, r, id).pos;
    if Popped(all, pos, ts) {
      var other, i :| other in all && other in pos && 0 <= i < |all[other]| && i < pos[other] && all[other][i] == ts;
      assert other != id ==> pos[other] == r.pos[other];
      assert (other == id && i == r.pos[id]) || i < r.pos[other];
    }
    if Popped(all, r.pos, ts) {
      var other, i :| other in all && other in r.pos && 0 <= i < |all[other]| && i < r.pos[other] && all[other][i] == ts;
      assert i < pos[other];
    }
    if ts == all[id][r.pos[id]] {
      assert r.pos[id] < pos[id];
    }
  }

  lemma LatestKept(low: Option<int>, latest: int, output: seq<int>, start: int, ts: int)
    requires Latest(low, latest, output, start) && (low != None ==> low.value <= ts)
    ensures ts <= latest ==> Latest(Some(ts), latest, output, start) && (start < ts ==> ts in output)
    ensures latest < ts ==> Latest(Some(ts), ts, output + [ts], start)
  {
  }

  lemma PopKeepsOutput(all: Sources, r: Round, id: string, start: int)
    requires AllSorted(all) && CanPop(all, r, id) && RoundInv(all, r, start)
    ensures RoundInv(all, PopFrom(all, r, id), start)
  {
    var m, next := all[id][r.pos[id]], PopFrom(all, r, id);
    PopKeepsSplit(all, r, id);
    LatestKept(r.low, r.latest, r.output, start, m);
    forall ts ensures ts in next.output <==> start < ts && Popped(all, next.pos, ts) {
      PoppedGrows(all, r, id, ts);
      assert ts in r.output <==> start < ts && Popped(all, r.pos, ts);
      assert ts in next.output <==> ts in r.output || (start < ts && ts == m);
    }
  }

  lemma {:induction false} RoundsKeep(all: Sources, r: Round, ids: seq<string>, t: Round, start: int)
    requires AllSorted(all) && Rounds(all, r, ids, t) && RoundInv(all, r, start)
    ensures RoundInv(all, t, start)
    decreases |ids|
  {
    if ids != [] {
      PopKeepsOutput(all, r, ids[0], start);
      RoundsKeep(all, PopFrom(all, r, ids[0]), ids[1..], t, start);
    }
  }

  /** How far the sources can be merged: the least of their last timestamps. */
  ghost predicate IsCut(all: Sources, cut: int) {
    && (forall id :: id in all ==> all[id] != [] && cut <= all[id][|all[id]| - 1])
    && (exists id :: id in all && all[id] != [] && cut == all[id][|all[id]| - 1])
  }

  ghost predicate Occurs(all: Sources, ts: int) {
    exists id :: id in all && ts in all[id]
  }

  /** The merge of the sources: strictly increasing, and with exactly the timestamps that occur
      above the start and up to the cut; nothing at all if a source is empty. */
  ghost predicate IsMerge(all: Sources, start: int, output: seq<int>) {
    && Rising(output)
    && (forall cut, ts :: IsCut(all, cut) ==> (ts in output <==> start < ts <= cut && Occurs(all, ts)))
    && ((exists id :: id in all && all[id] == []) ==> output == [])
  }

  lemma DrainedAtCut(all: Sources, r: Round)
    requires SplitAll(all, r) && Drained(all, r) && r.low != None
    ensures IsCut(all, r.low.value) && Popped(all, r.pos, r.low.value)
  {
    var id :| id in all && id in r.pos && r.pos[id] == |all[id]|;
    assert Split(all[id], r.pos[id], r.low);
    assert |all[id]| - 1 < r.pos[id] && all[id][|all[id]| - 1] == r.low.value;
    forall other | other in all ensures all[other] != [] && r.low.value <= all[other][|all[other]| - 1] {
      assert Split(all[other], r.pos[other], r.low);
    }
  }

  lemma PoppedIsOccurs(all: Sources, r: Round, ts: int)
    requires SplitAll(all, r) && r.low != None && Popped(all, r.pos, r.low.value)
    ensures Popped(all, r.pos, ts) <==> ts <= r.low.value && Occurs(all, ts)
  {
    if Popped(all, r.pos, ts) {
      var id, i :| id in all && id in r.pos && 0 <= i < |all[id]| && i < r.pos[id] && all[id][i] == ts;
      assert Split(all[id], r.pos[id], r.low) && ts in all[id];
    }
    if ts <= r.low.value && Occurs(all, ts) {
      var id :| id in all && ts in all[id];
      var i :| 0 <= i < |all[id]| && all[id][i] == ts;
      assert Split(all[id], r.pos[id], r.low);
      assert r.pos[id] <= i ==> ts == r.low.value;
    }
  }

  lemma NothingPopped(all: Sources, r: Round, start: int)
    requires RoundInv(all, r, start) && Drained(all, r) && r.low == None
    ensures r.output == [] && exists id :: id in all && all[id] == []
  {
    var id :| id in all && id in r.pos && r.pos[id] == |all[id]|;
    assert Split(all[id], r.pos[id], r.low);
  }

  lemma CutUnique(all: Sources, a: int, b: int)
    requires IsCut(all, a) && IsCut(all, b)
    ensures a == b
  {
  }

  lemma DrainedIsMerge(all: Sources, r: Round, start: int)
    requires RoundInv(all, r, start) && Drained(all, r)
    ensures IsMerge(all, start, r.output)
  {
    if r.low == None {
      NothingPopped(all, r, start);
    } else {
      DrainedAtCut(all, r);
      forall cut, ts | IsCut(all, cut) ensures ts in r.output <==> start < ts <= cut && Occurs(all, ts) {
        CutUnique(all, cut, r.low.value);
        PoppedIsOccurs(all, r, ts);
      }
    }
  }

  /** Main result for fixed sources: once a source is drained, the output is the sorted union of
      the sources without repeated timestamps, up to the cut. */
  lemma MergeIsSorted(all: Sources, start: int, ids: seq<string>, r: Round)
    requires AllSorted(all) && Rounds(all, Start(all, start), ids, r) && Drained(all, r)
    ensures IsMerge(all, start, r.output)
  {
    RoundsKeep(all, Start(all, start), ids, r, start);
    DrainedIsMerge(all, r, start);
  }

  /** There is a cut exactly when there are sources and none is empty. */
  lemma CutExists(all: Sources, r: Round, start: int)
    requires RoundInv(all, r, start) && Drained(all, r)
    ensures (exists cut :: IsCut(all, cut)) || exists id :: id in all && all[id] == []
  {
    if r.low == None {
      NothingPopped(all, r, start);
    } else {
      DrainedAtCut(all, r);
    }
  }

  lemma LastEqual(a: seq<int>, b: seq<int>)
    requires Rising(a) && Rising(b) && a != [] && b != [] && forall x :: x in a <==> x in b
    ensures a[|a| - 1] == b[|b| - 1]
  {
    assert a[|a| - 1] in a && b[|b| - 1] in b;
  }

  /** Strictly increasing sequences with the same elements are equal. */
  lemma {:induction false} SameElements(a: seq<int>, b: seq<int>)
    requires Rising(a) && Rising(b) && forall x :: x in a <==> x in b
    ensures a == b
  {
    assert (a != [] ==> a[0] in a) && (b != [] ==> b[0] in b);
    if a != [] && b != [] {
      LastEqual(a, b);
      var a', b' := a[..|a| - 1], b[..|b| - 1];
      forall z ensures z in a' <==> z in b' {
        assert z in a' <==> z in a && z != a[|a| - 1];
        assert z in b' <==> z in b && z != b[|b| - 1];
      }
      SameElements(a', b');
      assert a == a' + [a[|a| - 1]] && b == b' + [b[|b| - 1]];
    }
  }

  lemma MergeUnique(all: Sources, start: int, cut: int, x: seq<int>, y: seq<int>)
    requires IsMerge(all, start, x) && IsMerge(all, start, y) && IsCut(all, cut)
    ensures x == y
  {
    forall ts ensures ts in x <==> ts in y {
      assert ts in x <==> start < ts <= cut && Occurs(all, ts);
      assert ts in y <==> start < ts <= cut && Occurs(all, ts);
    }
    SameElements(x, y);
  }

  /** Whichever least item each run pops, as the heap and the linear strategy may choose
      differently, the merged timestamps are the same. */
  lemma StrategiesAgree(all: Sources, start: int, ids: seq<string>, r: Round, ids': seq<string>, r': Round)
    requires AllSorted(all)
    requires Rounds(all, Start(all, start), ids, r) && Drained(all, r)
    requires Rounds(all, Start(all, start), ids', r') && Drained(all, r')
    ensures r.output == r'.output
  {
    MergeIsSorted(all, start, ids, r);
    MergeIsSorted(all, start, ids', r');
    RoundsKeep(all, Start(all, start), ids, r, start);
    CutExists(all, r, start);
    if cut :| IsCut(all, cut) {
      MergeUnique(all, start, cut, r.output, r'.output);
    }
  }
}
