/** The two ways the merger finds the least item it holds, and the merge of a fixed set of
    sources. */
module DrainerStrategy {
  import opened Collections
  import opened DrainerMerge

  /** Items are kept under their own source. */
  ghost predicate Named(held: map<string, Item>) {
    forall id :: id in held ==> held[id].source == id
  }

  // ---------------------------------------------------------------- linear search

  class NormalStrategy {
    var items: map<string, Item>

    constructor ()
      ensures items == map[]
    {
      items := map[];
    }

    method Push(item: Item)
      modifies this
      ensures items == old(items)[item.source := item]
    {
      items := items[item.source := item];
    }

    /** The items are visited in any order, as a map is. */
    method Pop() returns (r: Option<Item>)
      requires Named(items)
      modifies this
      ensures old(items) == map[] ==> r == None && items == old(items)
      ensures old(items) != map[] ==>
                r != None && LeastHeld(old(items), r.value.source) && IsHeld(old(items), r.value) &&
                items == old(items) - {r.value.source}
    {
      r := None;
      var todo := items.Keys;
      while todo != {}
        invariant items == old(items) && todo <= items.Keys
        invariant r == None ==> todo == items.Keys
        invariant r != None ==> IsHeld(items, r.value)
        invariant r != None ==> forall id :: id in items && id !in todo ==> r.value.ts <= items[id].ts
        decreases todo
      {
        InhabitedStrings(todo);
        var id :| id in todo;
        var item := items[id];
        if r == None || item.ts < r.value.ts {
          r := Some(item);
        }
        todo := todo - {id};
      }
      if r == None {
        assert items.Keys == {};
        return;
      }
      items := items - {r.value.source};
    }

    method Exist(id: string) returns (ok: bool)
      ensures ok <==> id in items
    {
      ok := id in items;
    }
  }

  // ---------------------------------------------------------------- binary heap

  function Parent(i: int): int
    requires 0 < i
  {
    (i - 1) / 2
  }

  ghost predicate Heap(s: seq<Item>, n: nat) {
    n <= |s| && forall i :: 0 < i < n ==> s[Parent(i)].ts <= s[i].ts
  }

  /** In a heap the first item is a least one. */
  lemma {:induction false} RootLeast(s: seq<Item>, n: nat, i: nat)
    requires Heap(s, n) && i < n
    ensures s[0].ts <= s[i].ts
    decreases i
  {
    if i > 0 {
      RootLeast(s, n, Parent(i));
    }
  }

  function Swap(s: seq<Item>, i: nat, j: nat): (t: seq<Item>)
    requires i < |s| && j < |s|
    ensures |t| == |s|
  {
    s[i := s[j]][j := s[i]]
  }

  lemma SwapKeeps(s: seq<Item>, i: nat, j: nat)
    requires i < |s| && j < |s|
    ensures multiset(Swap(s, i, j)) == multiset(s)
  {
  }

  /** The heap order holds except between `j` and its parent, and around `j`. */
  ghost predicate HeapAbove(s: seq<Item>, j: nat) {
    && j < |s|
    && (forall i :: 0 < i < |s| && i != j ==> s[Parent(i)].ts <= s[i].ts)
    && (forall i :: 0 < i < |s| && j > 0 && Parent(i) == j ==> s[Parent(j)].ts <= s[i].ts)
  }

  method Up(s: seq<Item>) returns (t: seq<Item>)
    requires s != [] && Heap(s, |s| - 1)
    ensures |t| == |s| && multiset(t) == multiset(s) && Heap(t, |t|)
  {
    t := s;
    var j: nat := |s| - 1;
    while true
      invariant |t| == |s| && multiset(t) == multiset(s)
      invariant HeapAbove(t, j)
      decreases j
    {
      if j == 0 {
        break;
      }
      var i := Parent(j);
      if !(t[j].ts < t[i].ts) {
        break;
      }
      SwapKeeps(t, i, j);
      UpStep(t, j);
      t := Swap(t, i, j);
      j := i;
    }
  }

  lemma UpStep(s: seq<Item>, j: nat)
    requires 0 < j && HeapAbove(s, j) && s[j].ts < s[Parent(j)].ts
    ensures HeapAbove(Swap(s, Parent(j), j), Parent(j))
  {
  }

  /** The heap order of the first `n` items holds except below `j`. */
  ghost predicate HeapBelow(s: seq<Item>, n: nat, j: nat) {
    && n <= |s|
    && (forall i :: 0 < i < n && Parent(i) != j ==> s[Parent(i)].ts <= s[i].ts)
    && (forall i :: 0 < i < n && 0 < j < n && Parent(i) == j ==> s[Parent(j)].ts <= s[i].ts)
  }

  method LesserChild(s: seq<Item>, n: nat, i: nat) returns (j: nat)
    requires 2 * i + 1 < n <= |s|
    ensures i < j < n && Parent(j) == i
    ensures forall k :: 0 < k < n && Parent(k) == i ==> s[j].ts <= s[k].ts
  {
    j := 2 * i + 1;
    var j2 := j + 1;
    if j2 < n && s[j2].ts < s[j].ts {
      j := j2;
    }
  }

  method Down(s: seq<Item>, n: nat) returns (t: seq<Item>)
    requires n < |s| && HeapBelow(s, n, 0)
    ensures |t| == |s| && multiset(t) == multiset(s) && Heap(t, n) && t[n..] == s[n..]
  {
    t := s;
    var i := 0;
    while true
      invariant 0 <= i && |t| == |s| && multiset(t) == multiset(s) && t[n..] == s[n..]
      invariant HeapBelow(t, n, i) && (i < n || n == 0)
      decreases n - i
    {
      if 2 * i + 1 >= n {
        break;
      }
      var j := LesserChild(t, n, i);
      if !(t[j].ts < t[i].ts) {
        break;
      }
      SwapKeeps(t, i, j);
      DownStep(t, n, i, j);
      t := Swap(t, i, j);
      i := j;
    }
  }

  lemma DownStep(s: seq<Item>, n: nat, i: nat, j: nat)
    requires HeapBelow(s, n, i) && i < j < n < |s| && Parent(j) == i && s[j].ts < s[i].ts
    requires forall k :: 0 < k < n && Parent(k) == i ==> s[j].ts <= s[k].ts
    ensures HeapBelow(Swap(s, i, j), n, j) && Swap(s, i, j)[n..] == s[n..]
  {
    var t := Swap(s, i, j);
    forall k | 0 < k < n && Parent(k) != j ensures t[Parent(k)].ts <= t[k].ts {
      if k == i {
        assert s[Parent(i)].ts <= s[j].ts;
      }
    }
  }

  method TakeRoot(s: seq<Item>) returns (t: seq<Item>)
    requires s != [] && Heap(s, |s|)
    ensures Heap(t, |t|) && multiset(t) == multiset(s) - multiset{s[0]}
  {
    var n := |s| - 1;
    SwapKeeps(s, 0, n);
    var moved := Swap(s, 0, n);
    var sunk := Down(moved, n);
    assert sunk[n] == sunk[n..][0] && moved[n] == moved[n..][0];
    assert sunk == sunk[..n] + [sunk[n]];
    t := sunk[..n];
  }

  /** The items in the heap are those held, once each. */
  ghost predicate Represents(bag: multiset<Item>, held: map<string, Item>) {
    Named(held) && forall x :: bag[x] == if IsHeld(held, x) then 1 else 0
  }

  lemma EmptyHeap(items: seq<Item>, held: map<string, Item>)
    requires Represents(multiset(items), held)
    ensures items == [] <==> held == map[]
  {
    assert forall id :: id in held ==> IsHeld(held, held[id]) && held[id] in multiset(items);
    if items != [] {
      assert items[0] in multiset(items);
    }
  }

  lemma RemoveHeld(bag: multiset<Item>, held: map<string, Item>, item: Item)
    requires Represents(bag, held) && IsHeld(held, item)
    ensures Represents(bag - multiset{item}, held - {item.source})
  {
  }

  lemma RootHeld(items: seq<Item>, held: map<string, Item>)
    requires Heap(items, |items|) && Represents(multiset(items), held) && items != []
    ensures IsHeld(held, items[0]) && LeastHeld(held, items[0].source)
  {
    assert items[0] in multiset(items);
    forall id | id in held ensures items[0].ts <= held[id].ts {
      assert IsHeld(held, held[id]) && held[id] in multiset(items);
      var i :| 0 <= i < |items| && items[i] == held[id];
      RootLeast(items, |items|, i);
    }
  }

  class HeapStrategy {
    var items: seq<Item>
    var sourceIDs: set<string>
    ghost var held: map<string, Item>

    ghost predicate Valid() reads this {
      Heap(items, |items|) && Represents(multiset(items), held) && sourceIDs == held.Keys
    }

    constructor ()
      ensures Valid() && held == map[]
    {
      items, sourceIDs, held := [], {}, map[];
    }

    method Push(item: Item)
      requires Valid() && item.source !in held
      modifies this
      ensures Valid() && held == old(held)[item.source := item]
    {
      ghost var bag := multiset(items);
      items := Up(items + [item]);
      assert multiset(items) == bag + multiset{item};
      sourceIDs := sourceIDs + {item.source};
      held := held[item.source := item];
    }

    method Pop() returns (r: Option<Item>)
      requires Valid()
      modifies this
      ensures Valid()
      ensures old(held) == map[] ==> r == None && held == old(held)
      ensures old(held) != map[] ==>
                r != None && LeastHeld(old(held), r.value.source) && IsHeld(old(held), r.value) &&
                held == old(held) - {r.value.source}
    {
      EmptyHeap(items, held);
      if |items| == 0 {
        return None;
      }
      var min := items[0];
      RootHeld(items, held);
      RemoveHeld(multiset(items), held, min);
      items := TakeRoot(items);
      sourceIDs := sourceIDs - {min.source};
      held := held - {min.source};
      return Some(min);
    }

    method Exist(id: string) returns (ok: bool)
      requires Valid()
      ensures ok <==> id in held
    {
      ok := id in sourceIDs;
    }
  }

  // ---------------------------------------------------------------- merging fixed sources

  /** The strategy the merger was set up with. */
  class Strategy {
    const useHeap: bool
    const heap: HeapStrategy
    const normal: NormalStrategy

    constructor (useHeap: bool)
      ensures Valid() && Held() == map[] && fresh(heap) && fresh(normal)
    {
      this.useHeap := useHeap;
      heap := new HeapStrategy();
      normal := new NormalStrategy();
    }

    ghost predicate Valid() reads heap, normal {
      if useHeap then heap.Valid() else Named(normal.items)
    }

    ghost function Held(): map<string, Item> reads heap, normal {
      if useHeap then heap.held else normal.items
    }

    method Push(item: Item)
      requires Valid() && item.source !in Held()
      modifies heap, normal
      ensures Valid() && Held() == old(Held())[item.source := item]
    {
      if useHeap {
        heap.Push(item);
      } else {
        normal.Push(item);
      }
    }

    method Pop() returns (r: Option<Item>)
      requires Valid()
      modifies heap, normal
      ensures Valid()
      ensures old(Held()) == map[] ==> r == None && Held() == old(Held())
      ensures old(Held()) != map[] ==>
                r != None && LeastHeld(old(Held()), r.value.source) && IsHeld(old(Held()), r.value) &&
                Held() == old(Held()) - {r.value.source}
    {
      if useHeap {
        r := heap.Pop();
      } else {
        r := normal.Pop();
      }
    }

    method Exist(id: string) returns (ok: bool)
      requires Valid()
      ensures ok <==> id in Held()
    {
      if useHeap {
        ok := heap.Exist(id);
      } else {
        ok := normal.Exist(id);
      }
    }
  }

  type Feeds = map<string, seq<Item>>

  function Timestamps(s: seq<Item>): (r: seq<int>)
    ensures |r| == |s| && forall i :: 0 <= i < |s| ==> r[i] == s[i].ts
  {
    seq(|s|, i requires 0 <= i < |s| => s[i].ts)
  }

  function SourcesOf(feeds: Feeds): (all: Sources)
    ensures all.Keys == feeds.Keys && forall id :: id in feeds ==> all[id] == Timestamps(feeds[id])
  {
    map id | id in feeds :: Timestamps(feeds[id])
  }

  ghost predicate Labelled(feeds: Feeds) {
    forall id, i :: id in feeds && 0 <= i < |feeds[id]| ==> feeds[id][i].source == id
  }

  /** `count` items were received from each source; all but the one held were popped. */
  ghost predicate Tied(feeds: Feeds, held: map<string, Item>, count: map<string, nat>, pos: map<string, nat>) {
    && count.Keys == feeds.Keys && pos.Keys == feeds.Keys && held.Keys <= feeds.Keys
    && (forall id :: id in feeds ==> count[id] <= |feeds[id]|)
    && (forall id :: id in feeds && id !in held ==> pos[id] == count[id])
    && (forall id :: id in held ==> pos[id] + 1 == count[id] && held[id] == feeds[id][pos[id]])
  }

  lemma ReceiveTied(feeds: Feeds, held: map<string, Item>, count: map<string, nat>, pos: map<string, nat>, id: string)
    requires Tied(feeds, held, count, pos) && id in feeds && id !in held && count[id] < |feeds[id]|
    ensures Tied(feeds, held[id := feeds[id][count[id]]], count[id := count[id] + 1], pos)
  {
  }

  /** Receive an item from every source that has none held. */
  method Fill(feeds: Feeds, strategy: Strategy, count: map<string, nat>, ghost pos: map<string, nat>)
    returns (skip: bool, count': map<string, nat>)
    requires Labelled(feeds) && strategy.Valid() && Tied(feeds, strategy.Held(), count, pos)
    modifies strategy.heap, strategy.normal
    ensures strategy.Valid() && Tied(feeds, strategy.Held(), count', pos)
    ensures !skip ==> strategy.Held().Keys == feeds.Keys
    ensures skip ==> exists id :: id in feeds && id in pos && pos[id] == |feeds[id]|
  {
    skip, count' := false, count;
    var todo := feeds.Keys;
    while todo != {}
      invariant strategy.Valid() && Tied(feeds, strategy.Held(), count', pos)
      invariant todo <= feeds.Keys
      invariant !skip ==> feeds.Keys - todo <= strategy.Held().Keys
      invariant skip ==> exists id :: id in feeds && id in pos && pos[id] == |feeds[id]|
      decreases todo
    {
      InhabitedStrings(todo);
      var id :| id in todo;
      todo := todo - {id};
      var exist := strategy.Exist(id);
      if exist {
        continue;
      }
      if count'[id] < |feeds[id]| {
        ReceiveTied(feeds, strategy.Held(), count', pos, id);
        strategy.Push(feeds[id][count'[id]]);
        count' := count'[id := count'[id] + 1];
      } else {
        skip := true;
        assert pos[id] == |feeds[id]|;
      }
    }
  }

  function LeftOf(all: Sources, pos: map<string, nat>, id: string): nat {
    if id in all && id in pos && pos[id] <= |all[id]| then |all[id]| - pos[id] else 0
  }

  /** How many items are still to be popped. */
  ghost function Remaining(names: seq<string>, all: Sources, pos: map<string, nat>): nat {
    if names == [] then 0 else LeftOf(all, pos, names[0]) + Remaining(names[1..], all, pos)
  }

  lemma {:induction false} RemainingFalls(names: seq<string>, all: Sources, pos: map<string, nat>, id: string)
    requires id in all && id in pos && pos[id] < |all[id]|
    ensures Remaining(names, all, pos[id := pos[id] + 1]) <= Remaining(names, all, pos)
    ensures id in names ==> Remaining(names, all, pos[id := pos[id] + 1]) < Remaining(names, all, pos)
  {
    if names != [] {
      RemainingFalls(names[1..], all, pos, id);
    }
  }

  lemma RoundProgress(names: seq<string>, all: Sources, r: Round, id: string)
    requires CanPop(all, r, id) && id in names
    ensures Remaining(names, all, PopFrom(all, r, id).pos) < Remaining(names, all, r.pos)
  {
    RemainingFalls(names, all, r.pos, id);
  }

  lemma DrainedSource(feeds: Feeds, r: Round, start: int)
    requires RoundInv(SourcesOf(feeds), r, start)
    requires exists id :: id in feeds && id in r.pos && r.pos[id] == |feeds[id]|
    ensures IsMerge(SourcesOf(feeds), start, r.output)
  {
    DrainedIsMerge(SourcesOf(feeds), r, start);
  }

  lemma PopTied(feeds: Feeds, held: map<string, Item>, count: map<string, nat>, r: Round, id: string)
    requires Tied(feeds, held, count, r.pos) && held.Keys == feeds.Keys && LeastHeld(held, id)
    ensures CanPop(SourcesOf(feeds), r, id) && SourcesOf(feeds)[id][r.pos[id]] == held[id].ts
    ensures Tied(feeds, held - {id}, count, PopFrom(SourcesOf(feeds), r, id).pos)
  {
  }

  /** Pop a least item, and emit it unless its timestamp is not above the latest one. */
  method PopRound(feeds: Feeds, strategy: Strategy, ghost count: map<string, nat>, ghost r: Round, latest: int, output: seq<Item>)
    returns (latest': int, output': seq<Item>, ghost id: string)
    requires feeds != map[] && strategy.Valid() && strategy.Held().Keys == feeds.Keys
    requires Tied(feeds, strategy.Held(), count, r.pos)
    requires r.latest == latest && r.output == Timestamps(output)
    modifies strategy.heap, strategy.normal
    ensures strategy.Valid() && CanPop(SourcesOf(feeds), r, id)
    ensures Tied(feeds, strategy.Held(), count, PopFrom(SourcesOf(feeds), r, id).pos)
    ensures PopFrom(SourcesOf(feeds), r, id).latest == latest'
    ensures PopFrom(SourcesOf(feeds), r, id).output == Timestamps(output')
  {
    ghost var held := strategy.Held();
    var min := strategy.Pop();
    var item := min.value;
    id := item.source;
    PopTied(feeds, held, count, r, id);
    latest', output' := latest, output;
    if item.ts > latest {
      output' := output + [item];
      assert Timestamps(output') == Timestamps(output) + [item.ts];
      latest' := item.ts;
    }
  }

  /** The run loop over sources that do not change, until one is drained. */
  method Merge(feeds: Feeds, ghost names: seq<string>, start: int, useHeap: bool) returns (output: seq<Item>)
    requires feeds != map[] && Labelled(feeds) && AllSorted(SourcesOf(feeds))
    requires forall id :: id in names <==> id in feeds
    ensures IsMerge(SourcesOf(feeds), start, Timestamps(output))
  {
    var strategy := new Strategy(useHeap);
    var count: map<string, nat> := map id | id in feeds :: 0;
    var latest := start;
    output := [];
    ghost var all := SourcesOf(feeds);
    ghost var r := Start(all, start);
    while true
      invariant fresh(strategy.heap) && fresh(strategy.normal) && strategy.Valid()
      invariant Tied(feeds, strategy.Held(), count, r.pos) && RoundInv(all, r, start)
      invariant r.latest == latest && r.output == Timestamps(output)
      decreases Remaining(names, all, r.pos)
    {
      var skip;
      ghost var id;
      skip, count := Fill(feeds, strategy, count, r.pos);
      if skip {
        DrainedSource(feeds, r, start);
        return;
      }
      latest, output, id := PopRound(feeds, strategy, count, r, latest, output);
      PopKeepsOutput(all, r, id, start);
      RoundProgress(names, all, r, id);
      r := PopFrom(all, r, id);
    }
  }
}
