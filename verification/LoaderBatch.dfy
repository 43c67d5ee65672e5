/** The loader's batch manager: DML transactions are accumulated and executed together, a DDL
    transaction executes what is accumulated first and then runs alone. */
module LoaderBatch {

  /** A statement sent downstream. */
  datatype Op = Op(text: string)

  datatype Txn = DDL(database: string, sql: Op) | DMLs(dmls: seq<Op>)

  datatype Batch = Batch(txns: seq<Txn>, dmls: seq<Op>, executed: seq<Op>, successes: seq<Txn>)

  datatype DDLOutcome = Done | Ignorable | Fatal

  function OpsOf(t: Txn): seq<Op> {
    if t.DDL? then [t.sql] else t.dmls
  }

  /** The work of transactions, in order. */
  function Work(txns: seq<Txn>): seq<Op> {
    if txns == [] then [] else Work(txns[..|txns| - 1]) + OpsOf(txns[|txns| - 1])
  }

  /** Execute the accumulated row changes; nothing happens, not even a success, if there are none. */
  function Flush(b: Batch, ok: bool): Batch {
    if |b.dmls| > 0 && ok then Batch([], [], b.executed + b.dmls, b.successes + b.txns) else b
  }

  predicate FlushOk(b: Batch, ok: bool) {
    |b.dmls| == 0 || ok
  }

  /** A failed step ends the run of the loader. */
  datatype Step = Put(txn: Txn, execOk: bool, ddl: DDLOutcome) | Idle(execOk: bool)

  predicate StepOk(b: Batch, enableDispatch: bool, limit: nat, s: Step) {
    match s
    case Put(DDL(database, _), execOk, ddl) => database != "" && FlushOk(b, execOk) && ddl != Fatal
    case Put(DMLs(dmls), execOk, _) =>
      |b.dmls + dmls| >= limit || !enableDispatch ==> FlushOk(b.(dmls := b.dmls + dmls), execOk)
    case Idle(execOk) => FlushOk(b, execOk)
  }

  function Apply(b: Batch, enableDispatch: bool, limit: nat, s: Step): Batch {
    match s
    case Put(DDL(database, sql), execOk, ddl) =>
      if database == "" then b
      else
        var f := Flush(b, execOk);
        if FlushOk(b, execOk) && ddl != Fatal
        then f.(executed := f.executed + [sql], successes := f.successes + [s.txn])
        else f
    case Put(DMLs(dmls), execOk, _) =>
      var c := b.(dmls := b.dmls + dmls, txns := b.txns + [s.txn]);
      if |c.dmls| >= limit || !enableDispatch then Flush(c, execOk) else c
    case Idle(execOk) => Flush(b, execOk)
  }

  /** The transactions a step takes over: not a DDL transaction that fails. */
  function Taken(b: Batch, enableDispatch: bool, limit: nat, s: Step): seq<Txn> {
    if s.Put? && (s.txn.DMLs? || StepOk(b, enableDispatch, limit, s)) then [s.txn] else []
  }

  const INIT := Batch([], [], [], [])

  /** A run, in which only the last step may fail, and the transactions it took over. */
  ghost predicate Runs(b: Batch, enableDispatch: bool, limit: nat, steps: seq<Step>, input: seq<Txn>, c: Batch)
    decreases |steps|
  {
    if steps == [] then b == c && input == []
    else
      var taken := Taken(b, enableDispatch, limit, steps[0]);
      && taken <= input
      && (|steps| > 1 ==> StepOk(b, enableDispatch, limit, steps[0]))
      && Runs(Apply(b, enableDispatch, limit, steps[0]), enableDispatch, limit, steps[1..], input[|taken|..], c)
  }

  // ---------------------------------------------------------------- work is done once, in order

  /** The accumulated row changes are those of the pending transactions, none of which is a DDL. */
  ghost predicate Pending(txns: seq<Txn>, dmls: seq<Op>) {
    dmls == Work(txns) && forall i :: 0 <= i < |txns| ==> txns[i].DMLs?
  }

  /** What is executed is the work of the successful transactions, and followed by what is
      accumulated it is the input's work in order. */
  ghost predicate InOrder(b: Batch, input: seq<Txn>) {
    b.executed + b.dmls == Work(input) && b.executed == Work(b.successes)
  }

  ghost predicate Once(b: Batch, input: seq<Txn>) {
    multiset(b.successes) + multiset(b.txns) == multiset(input)
  }

  ghost predicate Faithful(b: Batch, input: seq<Txn>) {
    Pending(b.txns, b.dmls) && InOrder(b, input) && Once(b, input)
  }

  lemma {:induction false} WorkAppend(before: seq<Txn>, txns: seq<Txn>)
    ensures Work(before + txns) == Work(before) + Work(txns)
  {
    if txns == [] {
      assert before + txns == before;
    } else {
      var init, last := txns[..|txns| - 1], txns[|txns| - 1];
      WorkAppend(before, init);
      assert (before + txns)[..|before + txns| - 1] == before + init;
      Associative(Work(before), Work(init), OpsOf(last));
    }
  }

  lemma WorkOne(before: seq<Txn>, t: Txn)
    ensures Work(before + [t]) == Work(before) + OpsOf(t)
  {
    assert (before + [t])[..|before|] == before;
  }

  lemma Associative(x: seq<Op>, y: seq<Op>, z: seq<Op>)
    ensures x + (y + z) == x + y + z
  {
  }

  lemma FlushKeeps(b: Batch, ok: bool, input: seq<Txn>)
    requires Faithful(b, input)
    ensures Faithful(Flush(b, ok), input)
  {
    WorkAppend(b.successes, b.txns);
    assert multiset(b.successes + b.txns) == multiset(b.successes) + multiset(b.txns);
  }

  lemma AppendPending(txns: seq<Txn>, dmls: seq<Op>, t: Txn)
    requires Pending(txns, dmls) && t.DMLs?
    ensures Pending(txns + [t], dmls + t.dmls)
  {
    WorkOne(txns, t);
  }

  lemma AppendKeeps(b: Batch, input: seq<Txn>, t: Txn)
    requires Faithful(b, input) && t.DMLs?
    ensures Faithful(b.(dmls := b.dmls + t.dmls, txns := b.txns + [t]), input + [t])
  {
    AppendPending(b.txns, b.dmls, t);
    WorkOne(input, t);
    Associative(b.executed, b.dmls, t.dmls);
  }

  lemma DDLKeeps(b: Batch, input: seq<Txn>, t: Txn)
    requires Faithful(b, input) && t.DDL? && b.dmls == []
    ensures Faithful(b.(executed := b.executed + [t.sql], successes := b.successes + [t]), input + [t])
  {
    WorkOne(b.successes, t);
    WorkOne(input, t);
    assert b.executed + [] == b.executed;
    assert b.executed + [t.sql] + [] == b.executed + [t.sql];
  }

  lemma PutDDLKeeps(b: Batch, enableDispatch: bool, limit: nat, s: Step, input: seq<Txn>)
    requires Faithful(b, input) && s.Put? && s.txn.DDL?
    ensures Faithful(Apply(b, enableDispatch, limit, s), input + Taken(b, enableDispatch, limit, s))
  {
    assert input + [] == input;
    FlushKeeps(b, s.execOk, input);
    if StepOk(b, enableDispatch, limit, s) {
      DDLKeeps(Flush(b, s.execOk), input, s.txn);
    }
  }

  lemma PutDMLsKeeps(b: Batch, enableDispatch: bool, limit: nat, s: Step, input: seq<Txn>)
    requires Faithful(b, input) && s.Put? && s.txn.DMLs?
    ensures Faithful(Apply(b, enableDispatch, limit, s), input + [s.txn])
  {
    AppendKeeps(b, input, s.txn);
    FlushKeeps(b.(dmls := b.dmls + s.txn.dmls, txns := b.txns + [s.txn]), s.execOk, input + [s.txn]);
  }

  lemma StepKeeps(b: Batch, enableDispatch: bool, limit: nat, s: Step, input: seq<Txn>)
    requires Faithful(b, input)
    ensures Faithful(Apply(b, enableDispatch, limit, s), input + Taken(b, enableDispatch, limit, s))
  {
    if s.Idle? {
      assert input + [] == input;
      FlushKeeps(b, s.execOk, input);
    } else if s.txn.DDL? {
      PutDDLKeeps(b, enableDispatch, limit, s, input);
    } else {
      PutDMLsKeeps(b, enableDispatch, limit, s, input);
    }
  }

  /** In every run the work executed, followed by what is accumulated, is the work of the input in
      order: a DDL runs after all earlier row changes and before all later ones.  The row changes
      executed are those of the successful transactions, and each transaction is reported or
      pending exactly once. */
  lemma {:induction false} RunKeeps(b: Batch, enableDispatch: bool, limit: nat, steps: seq<Step>, before: seq<Txn>, input: seq<Txn>, c: Batch)
    requires Faithful(b, before) && Runs(b, enableDispatch, limit, steps, input, c)
    ensures Faithful(c, before + input)
    decreases |steps|
  {
    if steps == [] {
      assert before + input == before;
    } else {
      var next, taken := Apply(b, enableDispatch, limit, steps[0]), Taken(b, enableDispatch, limit, steps[0]);
      StepKeeps(b, enableDispatch, limit, steps[0], before);
      Regroup(before, taken, input);
      RunKeeps(next, enableDispatch, limit, steps[1..], before + taken, input[|taken|..], c);
    }
  }

  lemma Regroup(before: seq<Txn>, taken: seq<Txn>, input: seq<Txn>)
    requires taken <= input
    ensures before + input == before + taken + input[|taken|..]
  {
  }

  // ---------------------------------------------------------------- the order of successes

  /** Pending transactions without row changes are overtaken by a DDL transaction. */
  ghost predicate Overtakes(b: Batch, enableDispatch: bool, limit: nat, s: Step) {
    s.Put? && s.txn.DDL? && StepOk(b, enableDispatch, limit, s) && b.dmls == [] && b.txns != []
  }

  ghost predicate NoneOvertaken(b: Batch, enableDispatch: bool, limit: nat, steps: seq<Step>)
    decreases |steps|
  {
    steps != [] ==>
      && !Overtakes(b, enableDispatch, limit, steps[0])
      && NoneOvertaken(Apply(b, enableDispatch, limit, steps[0]), enableDispatch, limit, steps[1..])
  }

  lemma StepOrder(b: Batch, enableDispatch: bool, limit: nat, s: Step, input: seq<Txn>)
    requires b.successes + b.txns == input && !Overtakes(b, enableDispatch, limit, s)
    ensures Apply(b, enableDispatch, limit, s).successes + Apply(b, enableDispatch, limit, s).txns
         == input + Taken(b, enableDispatch, limit, s)
  {
    assert b.successes + b.txns + [] == b.successes + b.txns;
  }

  lemma {:induction false} RunOrder(b: Batch, enableDispatch: bool, limit: nat, steps: seq<Step>, before: seq<Txn>, input: seq<Txn>, c: Batch)
    requires b.successes + b.txns == before
    requires Runs(b, enableDispatch, limit, steps, input, c) && NoneOvertaken(b, enableDispatch, limit, steps)
    ensures c.successes + c.txns == before + input
    decreases |steps|
  {
    if steps == [] {
      assert before + input == before;
    } else {
      var taken := Taken(b, enableDispatch, limit, steps[0]);
      StepOrder(b, enableDispatch, limit, steps[0], before);
      Regroup(before, taken, input);
      RunOrder(Apply(b, enableDispatch, limit, steps[0]), enableDispatch, limit, steps[1..], before + taken, input[|taken|..], c);
    }
  }

  lemma StepKeepsPrefix(b: Batch, enableDispatch: bool, limit: nat, s: Step)
    ensures b.successes <= Apply(b, enableDispatch, limit, s).successes
  {
  }

  lemma {:induction false} SuccessesGrow(b: Batch, enableDispatch: bool, limit: nat, steps: seq<Step>, input: seq<Txn>, c: Batch)
    requires Runs(b, enableDispatch, limit, steps, input, c)
    ensures b.successes <= c.successes
    decreases |steps|
  {
    if steps != [] {
      var taken := Taken(b, enableDispatch, limit, steps[0]);
      StepKeepsPrefix(b, enableDispatch, limit, steps[0]);
      SuccessesGrow(Apply(b, enableDispatch, limit, steps[0]), enableDispatch, limit, steps[1..], input[|taken|..], c);
    }
  }

  lemma OvertakenDiffers(b: Batch, t: Txn, before: seq<Txn>, input: seq<Txn>, c: Batch)
    requires b.successes + b.txns == before && b.txns != [] && b.txns[0].DMLs? && t.DDL?
    requires b.successes + [t] <= c.successes
    ensures c.successes + c.txns != before + input
  {
    var k := |b.successes|;
    assert (b.successes + [t])[k] == t && c.successes[k] == t;
    assert (c.successes + c.txns)[k] == t && (before + input)[k] == b.txns[0];
  }

  lemma {:induction false} OvertakenShows(b: Batch, enableDispatch: bool, limit: nat, steps: seq<Step>, before: seq<Txn>, input: seq<Txn>, c: Batch)
    requires b.successes + b.txns == before && forall i :: 0 <= i < |b.txns| ==> b.txns[i].DMLs?
    requires Runs(b, enableDispatch, limit, steps, input, c) && !NoneOvertaken(b, enableDispatch, limit, steps)
    ensures c.successes + c.txns != before + input
    decreases |steps|
  {
    var next, taken := Apply(b, enableDispatch, limit, steps[0]), Taken(b, enableDispatch, limit, steps[0]);
    if Overtakes(b, enableDispatch, limit, steps[0]) {
      SuccessesGrow(next, enableDispatch, limit, steps[1..], input[|taken|..], c);
      OvertakenDiffers(b, steps[0].txn, before, input, c);
    } else {
      StepOrder(b, enableDispatch, limit, steps[0], before);
      Regroup(before, taken, input);
      OvertakenShows(next, enableDispatch, limit, steps[1..], before + taken, input[|taken|..], c);
    }
  }

  /** Main result: the successes, followed by the pending transactions, are the input in order if
      and only if no DDL transaction is put while the pending transactions have no row changes. */
  lemma SuccessOrder(enableDispatch: bool, limit: nat, steps: seq<Step>, input: seq<Txn>, c: Batch)
    requires Runs(INIT, enableDispatch, limit, steps, input, c)
    ensures c.successes + c.txns == input <==> NoneOvertaken(INIT, enableDispatch, limit, steps)
  {
    assert [] + input == input;
    if NoneOvertaken(INIT, enableDispatch, limit, steps) {
      RunOrder(INIT, enableDispatch, limit, steps, [], input, c);
    } else {
      OvertakenShows(INIT, enableDispatch, limit, steps, [], input, c);
    }
  }

  /** An input without empty DML transactions is always reported in order. */
  lemma {:induction false} NonemptyInOrder(b: Batch, enableDispatch: bool, limit: nat, steps: seq<Step>)
    requires b.txns != [] ==> b.dmls != []
    requires forall i :: 0 <= i < |steps| && steps[i].Put? && steps[i].txn.DMLs? ==> steps[i].txn.dmls != []
    ensures NoneOvertaken(b, enableDispatch, limit, steps)
    decreases |steps|
  {
    if steps != [] {
      NonemptyInOrder(Apply(b, enableDispatch, limit, steps[0]), enableDispatch, limit, steps[1..]);
    }
  }

  // ---------------------------------------------------------------- which reports are late

  ghost function Indices(order: seq<nat>): set<nat> {
    set i | i in order
  }

  /** Of the earlier transactions, only some without work are not reported before this one. */
  ghost predicate ReportedNext(input: seq<Txn>, order: seq<nat>, k: nat)
    requires k < |order|
  {
    && order[k] < |input| && order[k] !in Indices(order[..k])
    && forall j :: 0 <= j < order[k] && j !in Indices(order[..k]) ==> OpsOf(input[j]) == []
  }

  /** The reports are the transactions of the input at the given positions. */
  ghost predicate Reports(input: seq<Txn>, reported: seq<Txn>, order: seq<nat>) {
    && |order| == |reported|
    && (forall k :: 0 <= k < |order| ==> order[k] < |input| && reported[k] == input[order[k]])
    && (forall k :: 0 <= k < |order| ==> ReportedNext(input, order, k))
  }

  /** The positions of the pending transactions, in order; all other positions are reported. */
  ghost predicate Tracked(b: Batch, input: seq<Txn>, order: seq<nat>, pending: seq<nat>) {
    && Reports(input, b.successes, order) && |pending| == |b.txns|
    && (forall k :: 0 <= k < |pending| ==> pending[k] < |input| && b.txns[k] == input[pending[k]])
    && (forall j, k :: 0 <= j < k < |pending| ==> pending[j] < pending[k])
    && (forall k :: 0 <= k < |pending| ==> pending[k] !in order)
    && (forall i :: 0 <= i < |input| ==> i in order || i in pending)
  }

  /** A transaction without work has no part in the accumulated row changes. */
  lemma {:induction false} NoWork(txns: seq<Txn>, k: nat)
    requires Work(txns) == [] && k < |txns|
    ensures OpsOf(txns[k]) == []
    decreases |txns|
  {
    var init, last := txns[..|txns| - 1], txns[|txns| - 1];
    assert |Work(txns)| == |Work(init)| + |OpsOf(last)|;
    if k < |init| {
      NoWork(init, k);
    }
  }

  lemma ReportOne(input: seq<Txn>, reported: seq<Txn>, order: seq<nat>, i: nat)
    requires Reports(input, reported, order) && i < |input| && i !in order
    requires forall j :: 0 <= j < i && j !in order ==> OpsOf(input[j]) == []
    ensures Reports(input, reported + [input[i]], order + [i])
  {
    var order' := order + [i];
    forall k | 0 <= k < |order'| ensures ReportedNext(input, order', k) {
      assert order'[..k] == order[..k];
      assert k < |order| ==> ReportedNext(input, order, k);
    }
  }

  lemma EarlierPending(pending: seq<nat>, n: nat, j: nat)
    requires n < |pending| && j in pending && j < pending[n]
    requires forall j, k :: 0 <= j < k < |pending| ==> pending[j] < pending[k]
    ensures j in pending[..n]
  {
    var k :| 0 <= k < |pending| && pending[k] == j;
    assert pending[..n][k] == j;
  }

  lemma {:induction false} ReportPending(input: seq<Txn>, reported: seq<Txn>, order: seq<nat>, pending: seq<nat>, txns: seq<Txn>, n: nat)
    requires Tracked(Batch(txns, [], [], reported), input, order, pending) && n <= |pending|
    ensures Reports(input, reported + txns[..n], order + pending[..n])
    decreases n
  {
    if n == 0 {
      assert reported + txns[..0] == reported && order + pending[..0] == order;
    } else {
      ReportPending(input, reported, order, pending, txns, n - 1);
      var before := order + pending[..n - 1];
      forall j | 0 <= j < pending[n - 1] ensures j in before {
        if j !in order {
          EarlierPending(pending, n - 1, j);
        }
      }
      ReportOne(input, reported + txns[..n - 1], before, pending[n - 1]);
      assert before + [pending[n - 1]] == order + pending[..n];
      assert reported + txns[..n - 1] + [input[pending[n - 1]]] == reported + txns[..n];
    }
  }

  lemma FlushTracked(b: Batch, ok: bool, input: seq<Txn>, order: seq<nat>, pending: seq<nat>)
    returns (order': seq<nat>, pending': seq<nat>)
    requires Tracked(b, input, order, pending)
    ensures Tracked(Flush(b, ok), input, order', pending')
  {
    order', pending' := order, pending;
    if |b.dmls| > 0 && ok {
      ReportPending(input, b.successes, order, pending, b.txns, |pending|);
      assert pending[..|pending|] == pending && b.txns[..|b.txns|] == b.txns;
      order', pending' := order + pending, [];
    }
  }

  /** The input grows. */
  lemma ReportsLonger(input: seq<Txn>, t: Txn, reported: seq<Txn>, order: seq<nat>)
    requires Reports(input, reported, order)
    ensures Reports(input + [t], reported, order)
  {
    forall k | 0 <= k < |order| ensures ReportedNext(input + [t], order, k) {
      assert ReportedNext(input, order, k);
    }
  }

  lemma UnreportedEmpty(b: Batch, input: seq<Txn>, order: seq<nat>, pending: seq<nat>, j: nat)
    requires Tracked(b, input, order, pending) && Work(b.txns) == [] && j < |input| && j !in order
    ensures OpsOf(input[j]) == []
  {
    var k :| 0 <= k < |pending| && pending[k] == j;
    NoWork(b.txns, k);
  }

  lemma TrackedLonger(b: Batch, c: Batch, input: seq<Txn>, t: Txn, order: seq<nat>, pending: seq<nat>)
    requires Tracked(b, input, order, pending) && c.txns == b.txns
    requires Reports(input + [t], c.successes, order + [|input|])
    ensures Tracked(c, input + [t], order + [|input|], pending)
  {
  }

  lemma DDLTracked(b: Batch, input: seq<Txn>, t: Txn, order: seq<nat>, pending: seq<nat>)
    requires Tracked(b, input, order, pending) && Pending(b.txns, b.dmls) && b.dmls == []
    ensures Tracked(b.(executed := b.executed + OpsOf(t), successes := b.successes + [t]), input + [t],
                    order + [|input|], pending)
  {
    var n := |input|;
    ReportsLonger(input, t, b.successes, order);
    forall j | 0 <= j < n && j !in order ensures OpsOf((input + [t])[j]) == [] {
      UnreportedEmpty(b, input, order, pending, j);
    }
    ReportOne(input + [t], b.successes, order, n);
    TrackedLonger(b, b.(executed := b.executed + OpsOf(t), successes := b.successes + [t]), input, t, order, pending);
  }

  lemma DMLsTracked(b: Batch, input: seq<Txn>, t: Txn, order: seq<nat>, pending: seq<nat>)
    requires Tracked(b, input, order, pending) && t.DMLs?
    ensures Tracked(b.(dmls := b.dmls + t.dmls, txns := b.txns + [t]), input + [t], order, pending + [|input|])
  {
    ReportsLonger(input, t, b.successes, order);
  }

  lemma PutDMLsTracked(b: Batch, enableDispatch: bool, limit: nat, s: Step, input: seq<Txn>, order: seq<nat>, pending: seq<nat>)
    returns (order': seq<nat>, pending': seq<nat>)
    requires Tracked(b, input, order, pending) && s.Put? && s.txn.DMLs?
    ensures Tracked(Apply(b, enableDispatch, limit, s), input + [s.txn], order', pending')
  {
    DMLsTracked(b, input, s.txn, order, pending);
    var c := b.(dmls := b.dmls + s.txn.dmls, txns := b.txns + [s.txn]);
    order', pending' := order, pending + [|input|];
    if |c.dmls| >= limit || !enableDispatch {
      order', pending' := FlushTracked(c, s.execOk, input + [s.txn], order', pending');
    }
  }

  lemma FlushPending(b: Batch, ok: bool, input: seq<Txn>)
    requires Faithful(b, input)
    ensures Pending(Flush(b, ok).txns, Flush(b, ok).dmls)
  {
  }

  /** A DDL transaction that succeeds runs on a flushed batch. */
  lemma AfterDDL(b: Batch, enableDispatch: bool, limit: nat, s: Step)
    requires s.Put? && s.txn.DDL? && StepOk(b, enableDispatch, limit, s)
    ensures var f := Flush(b, s.execOk);
      f.dmls == [] &&
      Apply(b, enableDispatch, limit, s) == f.(executed := f.executed + OpsOf(s.txn), successes := f.successes + [s.txn])
  {
  }

  lemma PutDDLTracked(b: Batch, enableDispatch: bool, limit: nat, s: Step, input: seq<Txn>, order: seq<nat>, pending: seq<nat>)
    returns (order': seq<nat>, pending': seq<nat>)
    requires Faithful(b, input) && Tracked(b, input, order, pending)
    requires s.Put? && s.txn.DDL? && StepOk(b, enableDispatch, limit, s)
    ensures Tracked(Apply(b, enableDispatch, limit, s), input + [s.txn], order', pending')
  {
    FlushPending(b, s.execOk, input);
    order', pending' := FlushTracked(b, s.execOk, input, order, pending);
    AfterDDL(b, enableDispatch, limit, s);
    DDLTracked(Flush(b, s.execOk), input, s.txn, order', pending');
    order' := order' + [|input|];
  }

  lemma StepTracked(b: Batch, enableDispatch: bool, limit: nat, s: Step, input: seq<Txn>, order: seq<nat>, pending: seq<nat>)
    returns (order': seq<nat>, pending': seq<nat>)
    requires Faithful(b, input) && Tracked(b, input, order, pending)
    ensures Tracked(Apply(b, enableDispatch, limit, s), input + Taken(b, enableDispatch, limit, s), order', pending')
  {
    if s.Put? && s.txn.DMLs? {
      order', pending' := PutDMLsTracked(b, enableDispatch, limit, s, input, order, pending);
    } else if s.Put? && StepOk(b, enableDispatch, limit, s) {
      order', pending' := PutDDLTracked(b, enableDispatch, limit, s, input, order, pending);
    } else {
      assert input + [] == input;
      order', pending' := order, pending;
      if s.Idle? || s.txn.database != "" {
        order', pending' := FlushTracked(b, s.execOk, input, order, pending);
      }
    }
  }

  lemma {:induction false} RunTracked(b: Batch, enableDispatch: bool, limit: nat, steps: seq<Step>, before: seq<Txn>,
                                      input: seq<Txn>, c: Batch, order: seq<nat>, pending: seq<nat>)
    returns (order': seq<nat>, pending': seq<nat>)
    requires Faithful(b, before) && Tracked(b, before, order, pending)
    requires Runs(b, enableDispatch, limit, steps, input, c)
    ensures Tracked(c, before + input, order', pending')
    decreases |steps|
  {
    if steps == [] {
      assert before + input == before;
      order', pending' := order, pending;
    } else {
      var next, taken := Apply(b, enableDispatch, limit, steps[0]), Taken(b, enableDispatch, limit, steps[0]);
      StepKeeps(b, enableDispatch, limit, steps[0], before);
      order', pending' := StepTracked(b, enableDispatch, limit, steps[0], before, order, pending);
      Regroup(before, taken, input);
      order', pending' := RunTracked(next, enableDispatch, limit, steps[1..], before + taken, input[|taken|..], c, order', pending');
    }
  }

  /** In every run the order of the reports is that of the input, except that transactions without
      row changes may come late. */
  lemma ReportOrder(enableDispatch: bool, limit: nat, steps: seq<Step>, input: seq<Txn>, c: Batch)
    returns (order: seq<nat>)
    requires Runs(INIT, enableDispatch, limit, steps, input, c)
    ensures Reports(input, c.successes, order)
  {
    var pending;
    assert [] + input == input;
    order, pending := RunTracked(INIT, enableDispatch, limit, steps, [], input, c, [], []);
  }

  /** A transaction without row changes followed by a DDL transaction is reported after it. */
  lemma EmptyOvertaken()
    ensures Runs(INIT, true, 10,
                 [Put(DMLs([]), true, Done), Put(DDL("db", Op("alter")), true, Done)],
                 [DMLs([]), DDL("db", Op("alter"))],
                 Batch([DMLs([])], [], [Op("alter")], [DDL("db", Op("alter"))]))
  {
    var s1, s2 := Put(DMLs([]), true, Done), Put(DDL("db", Op("alter")), true, Done);
    var b, input := Apply(INIT, true, 10, s1), [DMLs([]), DDL("db", Op("alter"))];
    var c := Apply(b, true, 10, s2);
    assert b == Batch([DMLs([])], [], [], []);
    assert [s2][1..] == [] && [s1, s2][1..] == [s2];
    assert input[1..] == [DDL("db", Op("alter"))] && input[1..][1..] == [];
    assert Runs(c, true, 10, [], [], c);
    assert Runs(b, true, 10, [s2], [DDL("db", Op("alter"))], c);
  }

  lemma AllReported(reported: seq<Txn>, pending: seq<Txn>, input: seq<Txn>)
    requires multiset(reported) + multiset(pending) == multiset(input)
    ensures multiset(reported) == multiset(input) <==> pending == []
  {
    assert |multiset(pending)| == |pending|;
    assert |multiset(reported)| + |multiset(pending)| == |multiset(input)|;
  }

  /** When the input is closed after any run, the last flush leaves every transaction reported if and
      only if row changes were left or nothing was pending. */
  lemma LastFlush(enableDispatch: bool, limit: nat, steps: seq<Step>, input: seq<Txn>, c: Batch)
    requires Runs(INIT, enableDispatch, limit, steps, input, c)
    ensures multiset(Flush(c, true).successes) == multiset(input) <==> c.dmls != [] || c.txns == []
  {
    assert Work([]) == [] && [] + input == input;
    RunKeeps(INIT, enableDispatch, limit, steps, [], input, c);
    FlushKeeps(c, true, input);
    AllReported(Flush(c, true).successes, Flush(c, true).txns, input);
  }

  // ---------------------------------------------------------------- when row changes are executed

  /** Every step of the run succeeds, the last one included. */
  predicate AllOk(b: Batch, enableDispatch: bool, limit: nat, steps: seq<Step>)
    decreases |steps|
  {
    steps != [] ==>
      && StepOk(b, enableDispatch, limit, steps[0])
      && AllOk(Apply(b, enableDispatch, limit, steps[0]), enableDispatch, limit, steps[1..])
  }

  /** At most this many row changes are left after a step that succeeds: fewer than the limit, and none
      without dispatch or after a DDL transaction or an idle turn. */
  lemma StepLeaves(b: Batch, enableDispatch: bool, limit: nat, s: Step)
    requires StepOk(b, enableDispatch, limit, s)
    ensures var c := Apply(b, enableDispatch, limit, s);
      && (c.dmls == [] || (enableDispatch && |c.dmls| < limit))
      && (s.Idle? || s.txn.DDL? ==> c.dmls == [])
  {
  }

  /** With dispatch, a put below the limit executes and reports nothing. */
  lemma PutWaits(b: Batch, limit: nat, s: Step)
    requires s.Put? && s.txn.DMLs? && |b.dmls| + |s.txn.dmls| < limit
    ensures var c := Apply(b, true, limit, s);
      && c.executed == b.executed && c.successes == b.successes
      && c.dmls == b.dmls + s.txn.dmls && c.txns == b.txns + [s.txn]
  {
  }

  lemma {:induction false} RunLeaves(b: Batch, enableDispatch: bool, limit: nat, steps: seq<Step>, input: seq<Txn>, c: Batch)
    requires Runs(b, enableDispatch, limit, steps, input, c) && AllOk(b, enableDispatch, limit, steps)
    requires b.dmls == [] || (enableDispatch && |b.dmls| < limit)
    ensures c.dmls == [] || (enableDispatch && |c.dmls| < limit)
    decreases |steps|
  {
    if steps != [] {
      var taken := Taken(b, enableDispatch, limit, steps[0]);
      StepLeaves(b, enableDispatch, limit, steps[0]);
      RunLeaves(Apply(b, enableDispatch, limit, steps[0]), enableDispatch, limit, steps[1..], input[|taken|..], c);
    }
  }

  /** Main result on progress: while every step succeeds, what is executed is the work of the input but for
      fewer than the limit of the last row changes; without dispatch it is all of it. */
  lemma ExecutedWork(enableDispatch: bool, limit: nat, steps: seq<Step>, input: seq<Txn>, c: Batch)
    requires Runs(INIT, enableDispatch, limit, steps, input, c) && AllOk(INIT, enableDispatch, limit, steps)
    ensures c.executed <= Work(input)
    ensures c.executed == Work(input) || (enableDispatch && |Work(input)| < |c.executed| + limit)
  {
    assert [] + input == input;
    RunKeeps(INIT, enableDispatch, limit, steps, [], input, c);
    RunLeaves(INIT, enableDispatch, limit, steps, input, c);
    assert c.executed + [] == c.executed;
  }

  // ---------------------------------------------------------------- the manager

  class BatchManager {
    var txns: seq<Txn>
    var dmls: seq<Op>
    var executed: seq<Op>
    var successes: seq<Txn>
    const enableDispatch: bool
    const limit: nat

    constructor (enableDispatch: bool, limit: nat)
      ensures State() == INIT && this.enableDispatch == enableDispatch && this.limit == limit
    {
      txns, dmls, executed, successes := [], [], [], [];
      this.enableDispatch, this.limit := enableDispatch, limit;
    }

    ghost function State(): Batch reads this {
      Batch(txns, dmls, executed, successes)
    }

    /** `execOk` is the outcome of the execution downstream. */
    method ExecAccumulatedDMLs(execOk: bool) returns (ok: bool)
      modifies this
      ensures State() == Flush(old(State()), execOk) && ok == FlushOk(old(State()), execOk)
    {
      if |dmls| == 0 {
        return true;
      }
      if !execOk {
        return false;
      }
      executed := executed + dmls;
      successes := successes + txns;
      txns, dmls := [], [];
      return true;
    }

    method ExecDDL(txn: Txn, ddl: DDLOutcome) returns (ok: bool)
      requires txn.DDL?
      modifies this
      ensures ok <==> ddl != Fatal
      ensures State() == if ok then old(State()).(executed := old(executed) + [txn.sql],
                                                  successes := old(successes) + [txn])
                         else old(State())
    {
      if ddl == Fatal {
        return false;
      }
      executed := executed + [txn.sql];
      successes := successes + [txn];
      return true;
    }

    method Put(txn: Txn, execOk: bool, ddl: DDLOutcome) returns (ok: bool)
      modifies this
      ensures State() == Apply(old(State()), enableDispatch, limit, Step.Put(txn, execOk, ddl))
      ensures ok == StepOk(old(State()), enableDispatch, limit, Step.Put(txn, execOk, ddl))
    {
      if txn.DDL? {
        if |txn.database| == 0 {
          return false;
        }
        ok := ExecAccumulatedDMLs(execOk);
        if !ok {
          return;
        }
        ok := ExecDDL(txn, ddl);
        return;
      }
      dmls := dmls + txn.dmls;
      txns := txns + [txn];
      ok := true;
      if |dmls| >= limit || !enableDispatch {
        ok := ExecAccumulatedDMLs(execOk);
      }
    }
  }
}
