/** What has gone through the sorter since the last start, and what follows from it: which prewrites
    are awaited, when the sorter goes on, and what it reports. */
module PumpHistory {
  import opened Collections
  import opened PumpProtocol

  // ---------------------------------------------------------------- which prewrites are awaited

  datatype Op = PushOp(item: Item) | TakeOp | PassOp | ResolveOp(start: int)

  predicate Can(s: SorterState, op: Op) {
    match op
    case PushOp(_) => true
    case TakeOp => s.items != [] && s.front.None?
    case PassOp => s.front.Some? && s.front.value.binlog.start !in s.wait
    case ResolveOp(start) => s.front.Some? && s.front.value.binlog.start == start
  }

  function Do(s: SorterState, op: Op): SorterState
    requires Can(s, op)
  {
    match op
    case PushOp(item) => Push(s, item)
    case TakeOp => Take(s)
    case PassOp => s.(front := None)
    case ResolveOp(start) => Release(s, start)
  }

  /** The state that operations on an empty sorter lead to, if they are possible. */
  function After(ops: seq<Op>): Option<SorterState> {
    if ops == [] then Some(EMPTY_SORTER)
    else match After(ops[..|ops| - 1])
      case None => None
      case Some(s) => if Can(s, ops[|ops| - 1]) then Some(Do(s, ops[|ops| - 1])) else None
  }

  predicate Leads(ops: seq<Op>, s: SorterState) {
    After(ops) == Some(s)
  }

  /** The operation pushes a prewrite of the transaction. */
  predicate Opens(op: Op, start: int) {
    op.PushOp? && op.item.binlog.kind.Prewrite? && op.item.binlog.start == start
  }

  /** The operation pushes a commit or rollback of the transaction. */
  predicate Closes(op: Op, start: int) {
    op.PushOp? && !op.item.binlog.kind.Prewrite? && op.item.binlog.start == start
  }

  predicate Concerns(op: Op, start: int) {
    Opens(op, start) || Closes(op, start) || op == ResolveOp(start)
  }

  /** The transaction is opened at a place and not concerned afterwards. */
  ghost predicate OpenedAt(ops: seq<Op>, i: nat, start: int) {
    i < |ops| && Opens(ops[i], start) && forall j :: i < j < |ops| ==> !Concerns(ops[j], start)
  }

  /** The last operation that concerns the transaction pushes its prewrite. */
  ghost predicate LastOpens(ops: seq<Op>, start: int) {
    exists i: nat :: OpenedAt(ops, i, start)
  }

  lemma OpenedAtSnoc(ops: seq<Op>, op: Op, i: nat, start: int)
    requires i < |ops|
    ensures OpenedAt(ops + [op], i, start) <==> OpenedAt(ops, i, start) && !Concerns(op, start)
  {
    var all := ops + [op];
    assert all[|ops|] == op && forall j :: 0 <= j < |ops| ==> all[j] == ops[j];
  }

  lemma LastOpensSnoc(ops: seq<Op>, op: Op, start: int)
    ensures LastOpens(ops + [op], start) <==> Opens(op, start) || (LastOpens(ops, start) && !Concerns(op, start))
  {
    var all := ops + [op];
    if i: nat :| OpenedAt(all, i, start) {
      if i < |ops| {
        OpenedAtSnoc(ops, op, i, start);
      }
    }
    if Opens(op, start) {
      assert OpenedAt(all, |ops|, start);
    }
    if i: nat :| OpenedAt(ops, i, start) {
      OpenedAtSnoc(ops, op, i, start);
    }
  }

  /** Main result: a transaction is awaited if and only if the last operation that concerns it pushed
      its prewrite: its commit, its rollback and the resolver all release it. */
  lemma {:induction false} AwaitedExact(ops: seq<Op>, s: SorterState, start: int)
    requires Leads(ops, s)
    ensures start in s.wait <==> LastOpens(ops, start)
  {
    if ops != [] {
      var init, op := ops[..|ops| - 1], ops[|ops| - 1];
      AwaitedExact(init, After(init).value, start);
      LastOpensSnoc(init, op, start);
      assert ops == init + [op];
    }
  }

  /** A prewrite that nothing closes or resolves later leaves its transaction open. */
  lemma {:induction false} StaysOpen(ops: seq<Op>, i: nat, start: int)
    requires i < |ops| && Opens(ops[i], start)
    requires forall j :: i < j < |ops| ==> !Closes(ops[j], start) && ops[j] != ResolveOp(start)
    ensures LastOpens(ops, start)
    decreases |ops| - i
  {
    if j :| i < j < |ops| && Opens(ops[j], start) {
      StaysOpen(ops, j, start);
    } else {
      assert OpenedAt(ops, i, start);
    }
  }

  lemma ClosedLater(ops: seq<Op>, s: SorterState, i: nat)
    requires Leads(ops, s) && (forall i :: 0 <= i < |ops| ==> !ops[i].ResolveOp?)
    requires i < |ops| && ops[i].PushOp? && ops[i].item.binlog.kind.Prewrite? && ops[i].item.binlog.start !in s.wait
    ensures exists j :: i < j < |ops| && Closes(ops[j], ops[i].item.binlog.start)
  {
    var start := ops[i].item.binlog.start;
    AwaitedExact(ops, s, start);
    if forall j :: i < j < |ops| ==> !Closes(ops[j], start) {
      StaysOpen(ops, i, start);
      assert false;
    }
  }

  /** Without the resolver, everything is matched if and only if every prewrite that was pushed is
      followed by a commit or rollback of its transaction. */
  lemma AllMatchedExact(ops: seq<Op>, s: SorterState)
    requires Leads(ops, s) && forall i :: 0 <= i < |ops| ==> !ops[i].ResolveOp?
    ensures s.wait == {} <==>
            forall i :: 0 <= i < |ops| && ops[i].PushOp? && ops[i].item.binlog.kind.Prewrite? ==>
              exists j :: i < j < |ops| && Closes(ops[j], ops[i].item.binlog.start)
  {
    if s.wait == {} {
      forall i | 0 <= i < |ops| && ops[i].PushOp? && ops[i].item.binlog.kind.Prewrite?
        ensures exists j :: i < j < |ops| && Closes(ops[j], ops[i].item.binlog.start)
      {
        ClosedLater(ops, s, i);
      }
    } else {
      Inhabited(s.wait);
      var start :| start in s.wait;
      AwaitedExact(ops, s, start);
      var i: nat :| OpenedAt(ops, i, start);
      assert ops[i].item.binlog.start == start;
    }
  }

  // ---------------------------------------------------------------- in the protocol

  /** What a step of the pump is for the sorter. */
  function OpsOf(s: Pump, a: Step): seq<Op>
    requires Enabled(s, a)
  {
    match a
    case SorterPush => [PushOp(Item(s.st.log[s.q.toSorter[0]], s.q.toSorter[0]))]
    case SorterTake => [TakeOp]
    case SorterPass => [PassOp]
    case Resolve(_) => [ResolveOp(s.q.sorter.front.value.binlog.start)]
    case _ => []
  }

  /** The operations since the last start. */
  ghost function Trace(s: Pump, steps: seq<Step>): seq<Op>
    requires Runs(s, steps)
    decreases |steps|
  {
    if steps == [] then []
    else if Crash in steps[1..] then Trace(Apply(s, steps[0]), steps[1..])
    else if steps[0] == Crash then Trace(Apply(s, steps[0]), steps[1..])
    else OpsOf(s, steps[0]) + Trace(Apply(s, steps[0]), steps[1..])
  }

  lemma LeadsOn(ops: seq<Op>, s: SorterState, op: Op)
    requires Leads(ops, s) && Can(s, op)
    ensures Leads(ops + [op], Do(s, op))
  {
    var all := ops + [op];
    assert all[..|all| - 1] == ops;
  }

  lemma StepLeads(ops: seq<Op>, s: Pump, a: Step)
    requires Leads(ops, s.q.sorter) && Enabled(s, a) && a != Crash
    ensures Leads(ops + OpsOf(s, a), Apply(s, a).q.sorter)
  {
    if OpsOf(s, a) == [] {
      assert ops + [] == ops;
    } else {
      LeadsOn(ops, s.q.sorter, OpsOf(s, a)[0]);
    }
  }

  lemma Regroup(x: seq<Op>, y: seq<Op>, z: seq<Op>)
    ensures x + y + z == x + (y + z) && [] + z == z && z + [] == z
  {
  }

  lemma TraceStep(s: Pump, steps: seq<Step>)
    requires Runs(s, steps) && steps != []
    ensures Runs(Apply(s, steps[0]), steps[1..]) && End(s, steps) == End(Apply(s, steps[0]), steps[1..])
    ensures Crash in steps <==> steps[0] == Crash || Crash in steps[1..]
    ensures Trace(s, steps) == (if Crash in steps then [] else OpsOf(s, steps[0])) + Trace(Apply(s, steps[0]), steps[1..])
  {
    Regroup([], [], Trace(Apply(s, steps[0]), steps[1..]));
  }

  lemma {:induction false} TraceLeads(ops: seq<Op>, s: Pump, steps: seq<Step>)
    requires Runs(s, steps) && Leads(ops, s.q.sorter)
    ensures Leads(if Crash in steps then Trace(s, steps) else ops + Trace(s, steps), End(s, steps).q.sorter)
    decreases |steps|
  {
    if steps == [] {
      Regroup([], [], ops);
    } else {
      TraceStep(s, steps);
      var next, rest := Apply(s, steps[0]), steps[1..];
      Regroup(ops, OpsOf(s, steps[0]), Trace(next, rest));
      if steps[0] == Crash {
        TraceLeads([], next, rest);
      } else {
        StepLeads(ops, s, steps[0]);
        TraceLeads(ops + OpsOf(s, steps[0]), next, rest);
      }
    }
  }

  /** Main result: in every run the sorter can leave a prewrite, without the resolver, if and only if
      the last operation since the start that concerns it did not push its prewrite. */
  lemma PassExact(steps: seq<Step>)
    requires Runs(Init(), steps) && End(Init(), steps).q.sorter.front.Some?
    ensures var s := End(Init(), steps);
      Enabled(s, SorterPass) <==> !LastOpens(Trace(Init(), steps), s.q.sorter.front.value.binlog.start)
  {
    var s := End(Init(), steps);
    assert [] + Trace(Init(), steps) == Trace(Init(), steps);
    assert Leads([], Init().q.sorter);
    TraceLeads([], Init(), steps);
    AwaitedExact(Trace(Init(), steps), s.q.sorter, s.q.sorter.front.value.binlog.start);
  }

  /** A commit or rollback pushed after the prewrite lets the sorter go on. */
  lemma CommitUnblocks(steps: seq<Step>, j: nat)
    requires Runs(Init(), steps) && End(Init(), steps).q.sorter.front.Some?
    requires var ops, start := Trace(Init(), steps), End(Init(), steps).q.sorter.front.value.binlog.start;
      j < |ops| && Closes(ops[j], start) && forall k :: j < k < |ops| ==> !Opens(ops[k], start)
    ensures Enabled(End(Init(), steps), SorterPass)
  {
    PassExact(steps);
    var ops, start := Trace(Init(), steps), End(Init(), steps).q.sorter.front.value.binlog.start;
    forall i: nat | i < |ops| && Opens(ops[i], start) ensures !OpenedAt(ops, i, start) {
      assert i < j && Concerns(ops[j], start);
    }
  }

  // ---------------------------------------------------------------- what the sorter reports

  /** A turn of the run loop that the resolver has no part in. */
  function Turn(s: SorterState): SorterState {
    if s.front.Some? then (if s.front.value.binlog.start in s.wait then s else s.(front := None))
    else if s.items == [] then s
    else Take(s)
  }

  function TurnReports(s: SorterState): seq<Item> {
    if s.front.None? && s.items != [] && Reports(s) then [s.items[0]] else []
  }

  function Turns(s: SorterState, n: nat): SorterState {
    if n == 0 then s else Turn(Turns(s, n - 1))
  }

  function TurnsReport(s: SorterState, n: nat): seq<Item> {
    if n == 0 then [] else TurnsReport(s, n - 1) + TurnReports(Turns(s, n - 1))
  }

  /** A commit or rollback above the bound and above all before it. */
  predicate IsRecord(items: seq<Item>, bound: int, i: nat)
    requires i < |items|
  {
    && !items[i].binlog.kind.Prewrite? && bound < items[i].binlog.commit
    && forall j :: 0 <= j < i && !items[j].binlog.kind.Prewrite? ==> items[j].binlog.commit < items[i].binlog.commit
  }

  /** The records among the first `n` items, in order. */
  function Records(items: seq<Item>, bound: int, n: nat): seq<Item>
    requires n <= |items|
  {
    if n == 0 then [] else Records(items, bound, n - 1) + if IsRecord(items, bound, n - 1) then [items[n - 1]] else []
  }

  /** The sorter after `n` of the items, of which nothing is awaited. */
  ghost predicate Passed(s: SorterState, items: seq<Item>, bound: int, n: nat) {
    && n <= |items| && s.wait == {} && s.items == items[n..] && s.front.None?
    && bound <= s.maxTS && (forall j :: 0 <= j < n && !items[j].binlog.kind.Prewrite? ==> items[j].binlog.commit <= s.maxTS)
    && (s.maxTS == bound || exists j :: 0 <= j < n && !items[j].binlog.kind.Prewrite? && items[j].binlog.commit == s.maxTS)
  }

  lemma PassOne(s: SorterState, items: seq<Item>, bound: int, n: nat)
    requires Passed(s, items, bound, n) && n < |items|
    ensures var two := items[n].binlog.kind.Prewrite?;
      && Passed(if two then Turn(Turn(s)) else Turn(s), items, bound, n + 1)
      && TurnReports(s) == (if IsRecord(items, bound, n) then [items[n]] else [])
      && (two ==> TurnReports(Turn(s)) == [])
  {
    assert s.items[0] == items[n] && s.items[1..] == items[n + 1..];
  }

  /** Main result: once nothing is awaited, the sorter takes every item, and reports exactly the commits
      and rollbacks that are above everything before them, in order. */
  lemma {:induction false} ReportsRecords(s: SorterState, items: seq<Item>, n: nat) returns (turns: nat)
    requires s.wait == {} && s.front.None? && s.items == items && n <= |items|
    ensures Passed(Turns(s, turns), items, s.maxTS, n) && TurnsReport(s, turns) == Records(items, s.maxTS, n)
  {
    if n == 0 {
      turns := 0;
      assert items[0..] == items;
    } else {
      turns := ReportsRecords(s, items, n - 1);
      var t := Turns(s, turns);
      PassOne(t, items, s.maxTS, n - 1);
      if items[n - 1].binlog.kind.Prewrite? {
        assert Turns(s, turns + 1) == Turn(t);
        assert Turns(s, turns + 2) == Turn(Turn(t));
        assert TurnsReport(s, turns + 2) == TurnsReport(s, turns) + TurnReports(t) + TurnReports(Turn(t));
        turns := turns + 2;
      } else {
        assert Turns(s, turns + 1) == Turn(t);
        turns := turns + 1;
      }
    }
  }

  // ---------------------------------------------------------------- what becomes of the reports

  /** The bound is the largest of these. */
  ghost predicate IsMax(m: int, first: int, more: seq<int>) {
    && first <= m && (forall i :: 0 <= i < |more| ==> more[i] <= m)
    && (m == first || m in more)
  }

  /** What was reported and is not waiting any more was made the bound, if it was above it; the last such
      report that was not below the bound is to be saved, unless it was already. */
  ghost predicate HandledInv(out: Out, first: int) {
    var done := |out.history| - |out.reports|;
    && 0 <= done
    && (forall i :: 0 <= i < |out.reports| ==> out.reports[i].binlog.commit == out.history[done + i])
    && IsMax(out.maxCommitTS, first, out.history[..done])
    && (out.toSave.Some? ==> out.toSave.value.binlog.commit == out.maxCommitTS)
  }

  lemma HandleOne(out: Out, first: int)
    requires HandledInv(out, first) && out.reports != []
    ensures HandledInv(Handle(out.(reports := out.reports[1..]), out.reports[0]), first)
  {
    var done, ts := |out.history| - |out.reports|, out.reports[0].binlog.commit;
    assert out.history[..done + 1] == out.history[..done] + [out.history[done]];
    assert out.history[done] == ts;
    assert forall i :: 0 <= i < |out.reports[1..]| ==> out.reports[1..][i] == out.reports[i + 1];
  }

  lemma ReportOne(out: Out, s: SorterState, first: int)
    requires HandledInv(out, first) && s.items != []
    ensures HandledInv(Report(out, s), first)
  {
    if Reports(s) {
      var done := |out.history| - |out.reports|;
      assert (out.history + [s.items[0].binlog.commit])[..done] == out.history[..done];
    }
  }

  lemma StepHandled(s: Pump, a: Step, first: int)
    requires Enabled(s, a) && a != Crash && HandledInv(s.out, first)
    ensures HandledInv(Apply(s, a).out, first)
  {
    match a
    case SorterTake => ReportOne(s.out, s.q.sorter, first);
    case HandleReport => HandleOne(s.out, first);
    case _ =>
  }

  /** Between two crashes the bound for pullers is, at any time, the largest of what it was at the start and
      what was reported and handled since: every report is published. */
  lemma {:induction false} HandledMax(s: Pump, steps: seq<Step>, first: int)
    requires Runs(s, steps) && Crash !in steps && HandledInv(s.out, first)
    ensures HandledInv(End(s, steps).out, first)
    decreases |steps|
  {
    if steps != [] {
      StepHandled(s, steps[0], first);
      HandledMax(Apply(s, steps[0]), steps[1..], first);
    }
  }

  /** A start begins such a time. */
  lemma StartHandled(s: Pump)
    ensures HandledInv(Init().out, 0) && HandledInv(Restart(s).out, s.out.savedMax)
  {
  }
}
