/** The objects behind `PumpProtocol`: the sorter with its wait set and queue, and the parts of
    the storage object that write the index, follow the reports and stream commits.  Each method
    is the step of the protocol that carries its name. */
module PumpSorter {
  import opened Collections
  import opened PumpProtocol
  import PumpHistory

  class Sorter {
    var waitStartTS: set<int>
    var items: seq<Item>
    var front: Option<Item>
    var maxTS: int

    ghost function View(): SorterState
      reads this
    {
      SorterState(waitStartTS, items, front, maxTS)
    }

    constructor ()
      ensures View() == EMPTY_SORTER
    {
      waitStartTS, items, front, maxTS := {}, [], None, 0;
    }

    method AllMatched() returns (matched: bool)
      ensures matched <==> View().wait == {}
    {
      matched := |waitStartTS| == 0;
    }

    method PushTSItem(item: Item)
      modifies this
      ensures View() == Push(old(View()), item)
    {
      if item.binlog.kind.Prewrite? {
        waitStartTS := waitStartTS + {item.binlog.start};
      } else {
        waitStartTS := waitStartTS - {item.binlog.start};
      }
      items := items + [item];
    }

    /** One turn of the `run` loop; `resolved` is what the resolver answers, if it is asked.
        Returns the item handed to the callback, if any. */
    method RunTurn(resolved: bool) returns (report: Option<Item>)
      modifies this
      ensures old(front).None? && old(items) == [] ==> View() == old(View()) && report == None
      ensures old(front).None? && old(items) != [] ==>
                && View() == Take(old(View()))
                && report == if Reports(old(View())) then Some(old(items)[0]) else None
      ensures old(front).Some? ==>
                && report == None
                && var start := old(front).value.binlog.start;
                   View() == if start !in old(waitStartTS) then old(View()).(front := None)
                             else if resolved then Release(old(View()), start)
                             else old(View())
      ensures !resolved ==>
                && View() == PumpHistory.Turn(old(View()))
                && PumpHistory.TurnReports(old(View())) == if report == None then [] else [report.value]
    {
      report := None;
      if front.None? {
        if items == [] {
          return;
        }
        var item := items[0];
        items := items[1..];
        if item.binlog.kind.Prewrite? {
          front := Some(item);
        } else if item.binlog.commit > maxTS {
          maxTS := item.binlog.commit;
          report := Some(item);
        }
      } else {
        var start := front.value.binlog.start;
        if start !in waitStartTS {
          front := None;
        } else if resolved {
          waitStartTS := waitStartTS - {start};
          front := None;
        }
      }
    }
  }

  /** A position between two entries of a stuttering stream is itself an entry. */
  lemma {:induction false} StutterHits(ps: seq<nat>, end: nat, k: nat, p: nat)
    requires Stutter(ps, end) && k < |ps| && ps[0] <= p <= ps[k]
    ensures exists i :: 0 <= i <= k && ps[i] == p
    decreases k
  {
    if p == ps[k] {
    } else if k > 0 {
      assert ps[k - 1] <= ps[k - 1 + 1] <= ps[k - 1] + 1;
      StutterHits(ps, end, k - 1, p);
    }
  }

  /** What `AllMatched` promises: an empty wait set means that every prewrite pushed to the
      sorter since the last start is settled. */
  lemma AllMatchedMeansSettled(st: Store, q: Queue)
    requires IndexInv(st) && QueueInv(st, q) && q.sorter.wait == {}
    ensures SettledFrom(st, q.base, if q.toSorter == [] then q.kvNext else q.toSorter[0])
  {
    var upto := if q.toSorter == [] then q.kvNext else q.toSorter[0];
    var ps := Pending(q);
    if ps != [] {
      PendingBounded(st, q, 0);
      if q.toSorter != [] {
        PendingBounded(st, q, |ps| - |q.toSorter|);
      }
    }
    forall p | q.base <= p < upto && st.log[p].kind.Prewrite? ensures Settled(st, st.log[p].start) {
      if p >= Frontier(q) {
        OpenItemAt(st, q, p);
      }
    }
  }

  lemma OpenItemAt(st: Store, q: Queue, p: nat)
    requires QueueInv(st, q) && q.sorter.wait == {} && Frontier(q) <= p < |st.log|
    requires p < if q.toSorter == [] then q.kvNext else q.toSorter[0]
    requires st.log[p].kind.Prewrite?
    ensures Settled(st, st.log[p].start)
  {
    var ps := Pending(q);
    var k := if q.toSorter == [] then |ps| - 1 else |ps| - |q.toSorter|;
    StutterHits(ps, q.kvNext, k, p);
    var i :| 0 <= i <= k && ps[i] == p;
    if q.sorter.front.Some? && i == 0 {
      assert WaitedFor(st, q.sorter.wait, q.sorter.front.value);
    } else {
      var j := if q.sorter.front.Some? then i - 1 else i;
      assert ps[i] == q.sorter.items[j].pos;
      assert ItemOk(st, q.sorter.items[j]) && WaitedFor(st, q.sorter.wait, q.sorter.items[j]);
    }
  }

  // ---------------------------------------------------------------- storage

  function IndexAll(st: Store, positions: seq<nat>): (r: Store)
    requires forall i :: 0 <= i < |positions| ==> positions[i] < |st.log|
    ensures r.log == st.log
  {
    if positions == [] then st
    else IndexRecord(IndexAll(st, positions[..|positions| - 1]), positions[|positions| - 1])
  }

  /** The index entries one batch writes; a later record wins. */
  function BatchOf(log: seq<Binlog>, positions: seq<nat>): map<int, nat>
    requires forall i :: 0 <= i < |positions| ==> positions[i] < |log|
  {
    if positions == [] then map[]
    else
      var last := positions[|positions| - 1];
      BatchOf(log, positions[..|positions| - 1])[log[last].Ts() := last]
  }

  /** Writing a batch at once is the same as indexing its records one by one. */
  lemma {:induction false} BatchIsSteps(st: Store, positions: seq<nat>)
    requires forall i :: 0 <= i < |positions| ==> positions[i] < |st.log|
    ensures IndexAll(st, positions).index == st.index + BatchOf(st.log, positions)
    ensures IndexAll(st, positions).head == if positions == [] then st.head else positions[|positions| - 1]
  {
    if positions != [] {
      BatchIsSteps(st, positions[..|positions| - 1]);
    }
  }

  /** The last record of a batch with this timestamp. */
  ghost predicate LastWith(log: seq<Binlog>, positions: seq<nat>, ts: int, i: nat)
    requires forall i :: 0 <= i < |positions| ==> positions[i] < |log|
  {
    && i < |positions| && log[positions[i]].Ts() == ts
    && forall j :: i < j < |positions| ==> log[positions[j]].Ts() != ts
  }

  /** A batch leaves, for every timestamp, the position of its last record with it, or the old entry. */
  lemma {:induction false} BatchLast(log: seq<Binlog>, positions: seq<nat>, ts: int)
    requires forall i :: 0 <= i < |positions| ==> positions[i] < |log|
    ensures ts in BatchOf(log, positions) <==> exists i :: 0 <= i < |positions| && log[positions[i]].Ts() == ts
    ensures forall i: nat :: LastWith(log, positions, ts, i) ==>
              ts in BatchOf(log, positions) && BatchOf(log, positions)[ts] == positions[i]
  {
    if positions != [] {
      var init, last := positions[..|positions| - 1], positions[|positions| - 1];
      BatchLast(log, init, ts);
      if log[last].Ts() == ts {
        assert positions[|init|] == last;
      } else {
        forall i: nat | LastWith(log, positions, ts, i) ensures LastWith(log, init, ts, i) {
        }
        assert forall i :: 0 <= i < |init| ==> init[i] == positions[i];
      }
    }
  }

  class Append {
    var store: Store
    var out: Out

    constructor (store: Store)
      ensures this.store == store && out == Out([], [], 0, None, 0, 0)
    {
      this.store, out := store, Out([], [], 0, None, 0, 0);
    }

    method WriteBatchToKV(positions: seq<nat>)
      requires positions != []
      requires forall i :: 0 <= i < |positions| ==> positions[i] < |store.log|
      modifies this`store
      ensures store.index == IndexAll(old(store), positions).index
      ensures store.head == IndexAll(old(store), positions).head
      ensures store == old(store).(index := store.index, head := store.head)
    {
      var batch: map<int, nat> := map[];
      for i := 0 to |positions|
        invariant batch == BatchOf(store.log, positions[..i])
      {
        assert positions[..i + 1][..i] == positions[..i];
        batch := batch[store.log[positions[i]].Ts() := positions[i]];
      }
      assert positions[..|positions|] == positions;
      BatchIsSteps(store, positions);
      store := store.(index := store.index + batch, head := positions[|positions| - 1]);
    }

    method HandleSortItem(item: Item)
      modifies this`out
      ensures out == Handle(old(out), item)
      ensures old(out).maxCommitTS <= item.binlog.commit ==> out.maxCommitTS == item.binlog.commit && out.toSave == Some(item)
      ensures item.binlog.commit < old(out).maxCommitTS ==> out == old(out)
    {
      if item.binlog.commit < out.maxCommitTS {
        return;
      }
      out := out.(maxCommitTS := item.binlog.commit);
      out := out.(toSave := Some(item));
    }

    method PersistHandlePointer(item: Item) returns (ok: bool)
      modifies this`out
      ensures out == Persist(old(out), store.index, item.binlog.commit)
      ensures ok <==> item.binlog.commit in store.index
      ensures ok ==> out.savedMax == item.binlog.commit && out.savedHandle == store.index[out.savedMax]
      ensures !ok ==> out == old(out)
    {
      if item.binlog.commit !in store.index {
        return false;
      }
      var pointer := store.index[item.binlog.commit];
      out := out.(savedMax := item.binlog.commit, savedHandle := pointer);
      return true;
    }

    /** One round of `PullCommitBinlog`: walks the index snapshot from `last + 1` up to `maxCommitTS`.
        What it sends are, in increasing order, exactly the fake binlogs of that range and the commits
        and rollbacks whose start is indexed. */
    method PullRound(last: int) returns (sent: seq<int>, newLast: int)
      requires forall k :: k in store.index ==> store.index[k] < |store.log|
      requires last <= out.maxCommitTS
      ensures Increasing(sent)
      ensures forall k :: k in sent <==>
                && last < k <= out.maxCommitTS && k in store.index
                && var b := store.log[store.index[k]];
                   if b.start == b.commit then !b.kind.Prewrite? else !b.kind.Prewrite? && b.start in store.index
      ensures newLast == if sent == [] then last else sent[|sent| - 1]
    {
      var snap, limit := store.index, out.maxCommitTS + 1;
      sent, newLast := [], last;
      var todo := set k | k in snap && last < k < limit;
      ghost var cursor := last;
      while todo != {}
        invariant todo == set k | k in snap && cursor < k < limit
        invariant last <= cursor < limit
        invariant forall i :: 0 <= i < |sent| ==> last < sent[i] <= cursor
        invariant Increasing(sent)
        invariant forall k :: k in sent <==> last < k <= cursor && Deliverable(store, snap, k)
        invariant newLast == if sent == [] then last else sent[|sent| - 1]
        decreases todo
      {
        var key := Least(todo);
        var b := store.log[snap[key]];
        forall k | k in snap && cursor < k < limit ensures key <= k {
          assert k in todo;
        }
        if b.kind.Prewrite? || (b.commit != b.start && b.start !in store.index) {
        } else {
          sent := sent + [key];
          newLast := key;
        }
        todo := todo - {key};
        cursor := key;
      }
      assert forall k :: k in snap && cursor < k < limit ==> k in todo;
    }
  }
}
