/** Running row changes on several workers: changes are queued by the token of their causal
    class, and a conflict between classes flushes all queues first. */
module LoaderSchedule {
  import opened Collections
  import opened LoaderModel
  import opened LoaderExecutor
  import opened LoaderCausality
  import opened Interleaving

  // ---------------------------------------------------------------- tables with or without keys

  /** The rows of each table, with repetitions. */
  type Database = map<string, multiset<Row>>

  type Schema = string -> TableInfo

  function TableOf(db: Database, name: string): multiset<Row> {
    if name in db then db[name] else multiset{}
  }

  function Taken(d: DML): multiset<Row> {
    match d.kind
    case Insert => multiset{}
    case Delete => multiset{d.values}
    case Update => multiset{d.oldValues}
  }

  function Put(d: DML): multiset<Row> {
    if d.kind.Delete? then multiset{} else multiset{d.values}
  }

  predicate Blocks(info: TableInfo, t: multiset<Row>, put: multiset<Row>) {
    exists a, b :: a in t && b in put && Clash(info, a, b)
  }

  /** The change as the upstream made it: the rows taken are there, and the rows put agree with no
      other row on a unique key. */
  function Exchange(info: TableInfo, t: multiset<Row>, taken: multiset<Row>, put: multiset<Row>): Option<multiset<Row>> {
    if taken <= t && !Blocks(info, t - taken, put) then Some(t - taken + put) else None
  }

  function Step(schema: Schema, db: Database, c: Change): Option<Database> {
    match Exchange(schema(c.table), TableOf(db, c.table), Taken(c.dml), Put(c.dml))
    case None => None
    case Some(t) => Some(db[c.table := t])
  }

  function Steps(schema: Schema): Stepper<Database, Change> {
    (db, c) => Step(schema, db, c)
  }

  /** Exactly when a change is possible: the row it takes away is there, and no other row has one of the
      unique keys of the row it puts. */
  lemma StepPossible(schema: Schema, db: Database, c: Change)
    ensures Step(schema, db, c).Some? <==>
      && Taken(c.dml) <= TableOf(db, c.table)
      && (c.dml.kind.Delete? ||
          forall r :: r in TableOf(db, c.table) - Taken(c.dml) ==> !Clash(schema(c.table), r, c.dml.values))
  {
  }

  /** What it leaves: one copy less of the row it takes away, and one more of the row it puts. */
  lemma StepCounts(schema: Schema, db: Database, c: Change, r: Row)
    requires Step(schema, db, c).Some?
    ensures var t, next := TableOf(db, c.table), Step(schema, db, c).value;
      && next == db[c.table := TableOf(next, c.table)]
      && TableOf(next, c.table)[r] == t[r] - Taken(c.dml)[r] + if !c.dml.kind.Delete? && r == c.dml.values then 1 else 0
  {
    var t, taken := TableOf(db, c.table), Taken(c.dml);
    assert taken[r] <= t[r];
    assert (t - taken)[r] == t[r] - taken[r];
  }

  /** A delete takes its row away, an update the old one, and an insert none. */
  lemma TakenExact(d: DML, r: Row)
    ensures Taken(d)[r] == 1 <==> (d.kind.Delete? && r == d.values) || (d.kind.Update? && r == d.oldValues)
    ensures Taken(d)[r] <= 1
  {
  }

  ghost predicate UniqueRows(info: TableInfo, t: multiset<Row>) {
    forall a, b :: a in t && b in t && Clash(info, a, b) ==> a == b && t[a] == 1
  }

  /** A step keeps the unique keys. */
  lemma StepKeepsUnique(schema: Schema, db: Database, c: Change)
    requires UniqueRows(schema(c.table), TableOf(db, c.table))
    requires Step(schema, db, c).Some?
    ensures UniqueRows(schema(c.table), TableOf(Step(schema, db, c).value, c.table))
  {
    var info, t := schema(c.table), TableOf(db, c.table);
    var rest := t - Taken(c.dml);
    forall a, b | a in rest + Put(c.dml) && b in rest + Put(c.dml) && Clash(info, a, b)
      ensures a == b && (rest + Put(c.dml))[a] == 1
    {
      ClashSymmetric(info, a, b);
      KeyedTwice(info, a, b);
      assert b in Put(c.dml) ==> a !in rest;
      assert a in Put(c.dml) ==> b !in rest;
    }
  }

  /** A row that clashes with another one clashes with itself. */
  lemma KeyedTwice(info: TableInfo, a: Row, b: Row)
    requires Clash(info, a, b)
    ensures Clash(info, a, a) && Clash(info, b, b)
  {
    var i :| 0 <= i < |info.uniqueKeys| && ClashOn(a, b, info.uniqueKeys[i]);
    assert ClashOn(a, a, info.uniqueKeys[i]) && ClashOn(b, b, info.uniqueKeys[i]);
  }

  /** A statement limited to one row hits the row it means: any row of the table that agrees with
      it on the columns of the WHERE clause is that row. */
  lemma {:induction false} WhereHitsRow(info: TableInfo, t: multiset<Row>, names: seq<string>, row: Row, hit: Row, from: nat)
    requires UniqueRows(info, t) && row in t && hit in t && hit.Keys == row.Keys
    requires forall c :: c in row ==> c in names
    requires from <= |info.uniqueKeys|
    requires KeyOf(hit, WhereColumns(info, names, row, from)) == KeyOf(row, WhereColumns(info, names, row, from))
    ensures hit == row
    decreases |info.uniqueKeys| - from
  {
    if from == |info.uniqueKeys| {
      forall c | c in row ensures hit[c] == row[c] {
        var i :| 0 <= i < |names| && names[i] == c;
        assert KeyOf(hit, names)[i] == KeyOf(row, names)[i];
      }
    } else if NoNull(KeyOf(row, info.uniqueKeys[from])) {
      assert ClashOn(row, hit, info.uniqueKeys[from]);
    } else {
      WhereHitsRow(info, t, names, row, hit, from + 1);
    }
  }

  // ---------------------------------------------------------------- independent changes

  ghost predicate Unrelated(info: TableInfo, a: Row, b: Row) {
    a != b && !Clash(info, a, b) && !Clash(info, b, a)
  }

  /** The changes touch different tables, or no row of one is related to a row of the other. */
  ghost predicate Independent(schema: Schema, x: Change, y: Change) {
    x.table == y.table ==>
      forall a, b :: a in Images(x.dml) && b in Images(y.dml) ==> Unrelated(schema(x.table), a, b)
  }

  /** Changes that share no key are independent. */
  lemma NoSharedKey(p: Printer, schema: Schema, x: Change, y: Change)
    requires [] !in schema(x.table).uniqueKeys
    requires x.table == y.table ==> ChangeKeys(p, schema(x.table), x) !! ChangeKeys(p, schema(y.table), y)
    ensures Independent(schema, x, y)
  {
    if x.table == y.table {
      var info := schema(x.table);
      forall a, b | a in Images(x.dml) && b in Images(y.dml) ensures Unrelated(info, a, b) {
        ClashSymmetric(info, a, b);
        if a == b || Clash(info, a, b) {
          RelatedShareKey(p, info, x.table, a, b);
          assert false;
        }
      }
    }
  }

  ghost predicate Apart(info: TableInfo, xs: multiset<Row>, ys: multiset<Row>) {
    forall a, b :: a in xs && b in ys ==> Unrelated(info, a, b)
  }

  lemma RowsAreImages(d: DML)
    ensures forall r :: r in Taken(d) || r in Put(d) ==> r in Images(d)
  {
  }

  lemma IndependentApart(schema: Schema, x: Change, y: Change)
    requires Independent(schema, x, y) && x.table == y.table
    ensures Apart(schema(x.table), Taken(x.dml), Put(y.dml))
    ensures Apart(schema(x.table), Put(x.dml), Taken(y.dml))
    ensures Apart(schema(x.table), Put(x.dml), Put(y.dml))
  {
    RowsAreImages(x.dml);
    RowsAreImages(y.dml);
  }

  /** Both rows taken are there from the start. */
  lemma TakeBoth(info: TableInfo, t: multiset<Row>, tx: multiset<Row>, px: multiset<Row>, ty: multiset<Row>)
    requires tx <= t && ty <= t - tx + px && Apart(info, px, ty)
    ensures ty <= t - tx && ty <= t && tx <= t - ty
  {
    forall r ensures ty[r] <= (t - tx)[r] {
      assert ty[r] <= (t - tx + px)[r];
      assert r in px && r in ty ==> Unrelated(info, r, r);
    }
  }

  lemma Rearrange(t: multiset<Row>, tx: multiset<Row>, px: multiset<Row>, ty: multiset<Row>, py: multiset<Row>)
    requires ty <= t - tx && tx <= t
    ensures t - tx + px - ty + py == t - ty + py - tx + px
  {
    forall r ensures (t - tx + px - ty + py)[r] == (t - ty + py - tx + px)[r] {
      assert ty[r] <= (t - tx)[r];
    }
  }

  lemma FirstUnblocked(info: TableInfo, t: multiset<Row>, tx: multiset<Row>, px: multiset<Row>, ty: multiset<Row>, py: multiset<Row>)
    requires !Blocks(info, t - tx + px - ty, py) && Apart(info, tx, py)
    ensures !Blocks(info, t - ty, py)
  {
    forall a, b | a in t - ty && b in py ensures !Clash(info, a, b) {
      if a in tx {
        assert Unrelated(info, a, b);
      } else {
        assert a in t - tx + px - ty;
      }
    }
  }

  lemma SecondUnblocked(info: TableInfo, t: multiset<Row>, tx: multiset<Row>, px: multiset<Row>, ty: multiset<Row>, py: multiset<Row>)
    requires !Blocks(info, t - tx, px) && Apart(info, px, py)
    ensures !Blocks(info, t - ty + py - tx, px)
  {
    forall a, b | a in t - ty + py - tx && b in px ensures !Clash(info, a, b) {
      if a in py {
        assert Unrelated(info, b, a);
      } else {
        assert a in t - tx;
      }
    }
  }

  lemma CommuteInTable(info: TableInfo, t: multiset<Row>, tx: multiset<Row>, px: multiset<Row>, ty: multiset<Row>, py: multiset<Row>)
    requires Apart(info, tx, py) && Apart(info, px, ty) && Apart(info, px, py)
    requires Exchange(info, t, tx, px).Some? && Exchange(info, Exchange(info, t, tx, px).value, ty, py).Some?
    ensures Exchange(info, t, ty, py).Some?
    ensures Exchange(info, Exchange(info, t, ty, py).value, tx, px)
         == Exchange(info, Exchange(info, t, tx, px).value, ty, py)
  {
    TakeBoth(info, t, tx, px, ty);
    Rearrange(t, tx, px, ty, py);
    FirstUnblocked(info, t, tx, px, ty, py);
    SecondUnblocked(info, t, tx, px, ty, py);
  }

  lemma OverwriteSame(db: Database, name: string, v: multiset<Row>, w: multiset<Row>, z: multiset<Row>)
    ensures TableOf(db[name := v], name) == v && db[name := v][name := z] == db[name := w][name := z]
  {
  }

  lemma CommuteSameTable(schema: Schema, db: Database, x: Change, y: Change)
    requires Independent(schema, x, y) && x.table == y.table
    requires Step(schema, db, x).Some? && Step(schema, Step(schema, db, x).value, y).Some?
    ensures Step(schema, db, y).Some?
    ensures Step(schema, Step(schema, db, y).value, x) == Step(schema, Step(schema, db, x).value, y)
  {
    var info, t := schema(x.table), TableOf(db, x.table);
    IndependentApart(schema, x, y);
    CommuteInTable(info, t, Taken(x.dml), Put(x.dml), Taken(y.dml), Put(y.dml));
    var v, w := Exchange(info, t, Taken(x.dml), Put(x.dml)).value, Exchange(info, t, Taken(y.dml), Put(y.dml)).value;
    OverwriteSame(db, x.table, v, w, Exchange(info, v, Taken(y.dml), Put(y.dml)).value);
    OverwriteSame(db, x.table, w, v, Exchange(info, v, Taken(y.dml), Put(y.dml)).value);
  }

  /** A step does not depend on other tables and leaves them alone. */
  lemma StepElsewhere(schema: Schema, db: Database, name: string, v: multiset<Row>, c: Change)
    requires c.table != name
    ensures Step(schema, db[name := v], c).Some? <==> Step(schema, db, c).Some?
    ensures Step(schema, db, c).Some? ==> Step(schema, db[name := v], c).value == Step(schema, db, c).value[name := v]
  {
    assert TableOf(db[name := v], c.table) == TableOf(db, c.table);
    var r := Exchange(schema(c.table), TableOf(db, c.table), Taken(c.dml), Put(c.dml));
    if r.Some? {
      SwapTables(db, name, v, c.table, r.value);
    }
  }

  lemma SwapTables(db: Database, a: string, v: multiset<Row>, b: string, w: multiset<Row>)
    requires a != b
    ensures db[a := v][b := w] == db[b := w][a := v]
  {
  }

  lemma CommuteOtherTable(schema: Schema, db: Database, x: Change, y: Change)
    requires x.table != y.table
    requires Step(schema, db, x).Some? && Step(schema, Step(schema, db, x).value, y).Some?
    ensures Step(schema, db, y).Some?
    ensures Step(schema, Step(schema, db, y).value, x) == Step(schema, Step(schema, db, x).value, y)
  {
    var v := TableOf(Step(schema, db, x).value, x.table);
    StepElsewhere(schema, db, x.table, v, y);
    var w := TableOf(Step(schema, db, y).value, y.table);
    StepElsewhere(schema, db, y.table, w, x);
    SwapTables(db, x.table, v, y.table, w);
  }

  /** Independent changes commute: what was possible in one order is possible in the other, with
      the same result. */
  lemma IndependentCommute(schema: Schema, x: Change, y: Change)
    requires Independent(schema, x, y)
    ensures Commutes(Steps(schema), x, y)
  {
    var step := Steps(schema);
    forall db | step(db, x).Some? && step(step(db, x).value, y).Some?
      ensures step(db, y).Some? && step(step(db, y).value, x) == step(step(db, x).value, y)
    {
      if x.table == y.table {
        CommuteSameTable(schema, db, x, y);
      } else {
        CommuteOtherTable(schema, db, x, y);
      }
    }
  }

  // ---------------------------------------------------------------- the scheduler

  /** Independent changes commute, however a change takes effect. */
  ghost predicate Lawful<S(!new)>(schema: Schema, step: Stepper<S, Change>) {
    forall x, y :: Independent(schema, x, y) ==> Commutes(step, x, y)
  }

  lemma StepsLawful(schema: Schema)
    ensures Lawful(schema, Steps(schema))
  {
    forall x, y | Independent(schema, x, y) ensures Commutes(Steps(schema), x, y) {
      IndependentCommute(schema, x, y);
    }
  }

  /** All keys of a queued change lead to its worker. */
  ghost predicate Placed(p: Printer, schema: Schema, workers: nat, m: Relations, j: Job<Change>)
    requires 0 < workers
  {
    forall k :: k in ChangeKeys(p, schema(j.work.table), j.work) ==> k in m && p.hash(m[k]) % workers == j.worker
  }

  ghost predicate AllPlaced(p: Printer, schema: Schema, workers: nat, m: Relations, js: seq<Job<Change>>)
    requires 0 < workers
  {
    forall i :: 0 <= i < |js| ==> Placed(p, schema, workers, m, js[i])
  }

  /** Changes that share a key are in one queue; hence changes in different queues commute. */
  lemma PlacedSeparate<S(!new)>(p: Printer, schema: Schema, step: Stepper<S, Change>, workers: nat, m: Relations, js: seq<Job<Change>>)
    requires 0 < workers && (forall t :: [] !in schema(t).uniqueKeys) && Lawful(schema, step)
    requires AllPlaced(p, schema, workers, m, js)
    ensures Separate(step, js)
  {
    forall i, j | 0 <= i < j < |js| && js[i].worker != js[j].worker
      ensures Commutes(step, js[i].work, js[j].work)
    {
      assert Placed(p, schema, workers, m, js[i]) && Placed(p, schema, workers, m, js[j]);
      NoSharedKey(p, schema, js[i].work, js[j].work);
    }
  }

  /** Adding the keys of a change without conflict keeps all placements and places the change. */
  lemma AddPlaces(p: Printer, schema: Schema, workers: nat, m: Relations, js: seq<Job<Change>>, c: Change, keys: seq<string>)
    requires 0 < workers && Fixed(m) && !Conflict(m, keys) && keys != [] && "" !in keys
    requires (set k | k in keys) == ChangeKeys(p, schema(c.table), c)
    requires AllPlaced(p, schema, workers, m, js)
    ensures keys[0] in Added(m, keys)
    ensures AllPlaced(p, schema, workers, Added(m, keys), js + [Job(p.hash(Added(m, keys)[keys[0]]) % workers, c)])
  {
    AddedOneClass(m, keys);
    var m', job := Added(m, keys), Job(p.hash(Added(m, keys)[keys[0]]) % workers, c);
    forall i | 0 <= i < |js| + 1 ensures Placed(p, schema, workers, m', (js + [job])[i]) {
      if i < |js| {
        assert Placed(p, schema, workers, m, js[i]);
      } else {
        assert forall k :: k in ChangeKeys(p, schema(c.table), c) ==> k in keys;
      }
    }
  }

  lemma WorksAppend(js: seq<Job<Change>>, j: Job<Change>, rest: seq<Change>)
    requires rest != [] && rest[0] == j.work
    ensures Works(js) + rest == Works(js + [j]) + rest[1..]
  {
  }

  /** What took effect, what is queued and what is left are all the changes. */
  ghost predicate Accounted<S(!new)>(step: Stepper<S, Change>, s: S, done: seq<Change>, js: seq<Job<Change>>,
                                     rest: seq<Change>, all: multiset<Change>, now: S) {
    Run(step, s, done) == Some(now) && multiset(done) + multiset(Works(js)) + multiset(rest) == all
  }

  lemma AccountFlush<S(!new)>(step: Stepper<S, Change>, s: S, done: seq<Change>, was: S, js: seq<Job<Change>>,
                              more: seq<Change>, js': seq<Job<Change>>, rest: seq<Change>, all: multiset<Change>, now: S, ok: bool)
    requires Accounted(step, s, done, js, rest, all, was) && Run(step, was, more) == Some(now)
    requires multiset(more) + multiset(Works(js')) <= multiset(Works(js))
    requires ok ==> multiset(more) + multiset(Works(js')) == multiset(Works(js))
    ensures ok ==> Accounted(step, s, done + more, js', rest, all, now)
    ensures !ok ==> Outcome(step, s, done + more, all, now, ok)
  {
    RunAppend(step, s, done, more);
    assert multiset(done + more) == multiset(done) + multiset(more);
  }

  lemma AccountQueue<S(!new)>(step: Stepper<S, Change>, s: S, done: seq<Change>, js: seq<Job<Change>>, j: Job<Change>,
                              rest: seq<Change>, all: multiset<Change>, now: S)
    requires Accounted(step, s, done, js, rest, all, now) && rest != [] && j.work == rest[0]
    ensures Accounted(step, s, done, js + [j], rest[1..], all, now)
  {
    assert rest == [rest[0]] + rest[1..] && Works(js + [j]) == Works(js) + [j.work];
  }

  lemma AccountLast<S(!new)>(step: Stepper<S, Change>, s: S, done: seq<Change>, was: S, js: seq<Job<Change>>,
                             last: seq<Change>, all: multiset<Change>, now: S, ok: bool)
    requires Accounted(step, s, done, js, [], all, was) && Outcome(step, was, last, multiset(Works(js)), now, ok)
    ensures Outcome(step, s, done + last, all, now, ok)
  {
    RunAppend(step, s, done, last);
    assert multiset(done + last) == multiset(done) + multiset(last);
  }

  /** `step` is how the workers make a change take effect, in plain or in safe mode. */
  class Scheduler<S(!new)> {
    const schema: Schema
    const step: Stepper<S, Change>
    const printer: Printer
    const workers: nat
    var db: S

    constructor (schema: Schema, step: Stepper<S, Change>, printer: Printer, workers: nat, db: S)
      ensures this.schema == schema && this.step == step && this.printer == printer && this.workers == workers
      ensures this.db == db
    {
      this.schema, this.step, this.printer, this.workers, this.db := schema, step, printer, workers, db;
    }

    /** `done` is the order in which changes took effect: all of them if nothing failed. */
    method ExecByHash(byHash: seq<seq<Change>>, ghost js: seq<Job<Change>>) returns (ok: bool, ghost done: seq<Change>)
      requires Holds(byHash, js)
      modifies this
      ensures Outcome(step, old(db), done, multiset(Works(js)), db, ok)
      ensures Separate(step, js) && Run(step, old(db), Works(js)).Some?
              ==> ok && Some(db) == Run(step, old(db), Works(js))
    {
      var state;
      state, ok, done := RunQueues(step, db, byHash, js);
      db := state;
    }

    method EmptyQueues() returns (byHash: seq<seq<Change>>)
      ensures |byHash| == workers && Holds(byHash, [])
    {
      byHash := seq(workers, _ => []);
    }

    /** Run all queues and start anew. */
    method FlushQueues(causality: Causality, byHash: seq<seq<Change>>, ghost js: seq<Job<Change>>, ghost rest: seq<Change>)
      returns (ok: bool, byHash': seq<seq<Change>>, ghost done: seq<Change>)
      requires 0 < workers && Holds(byHash, js) && Separate(step, js)
      modifies this, causality
      ensures Outcome(step, old(db), done, multiset(Works(js)), db, ok)
      ensures causality.relations == map[] && |byHash'| == workers && Holds(byHash', [])
      ensures Run(step, old(db), Works(js) + rest).Some?
              ==> ok && Run(step, db, rest) == Run(step, old(db), Works(js) + rest)
    {
      RunAppend(step, db, Works(js), rest);
      ok, done := ExecByHash(byHash, js);
      causality.Reset();
      byHash' := EmptyQueues();
    }

    /** A conflict of the keys with the causal classes flushes all queues first. */
    method Schedule(causality: Causality, keys: seq<string>, byHash: seq<seq<Change>>, ghost js: seq<Job<Change>>,
                    ghost rest: seq<Change>)
      returns (ok: bool, byHash': seq<seq<Change>>, ghost js': seq<Job<Change>>, ghost done: seq<Change>)
      requires 0 < workers && Lawful(schema, step) && Fixed(causality.relations)
      requires forall t :: [] !in schema(t).uniqueKeys
      requires |byHash| == workers && Holds(byHash, js) && AllPlaced(printer, schema, workers, causality.relations, js)
      modifies this, causality
      ensures Fixed(causality.relations) && !Conflict(causality.relations, keys)
      ensures !old(Conflict(causality.relations, keys)) ==>
                ok && byHash' == byHash && db == old(db) && causality.relations == old(causality.relations)
      ensures |byHash'| == workers && Holds(byHash', js')
      ensures Run(step, old(db), done) == Some(db) && multiset(done) + multiset(Works(js')) <= multiset(Works(js))
      ensures ok ==> multiset(done) + multiset(Works(js')) == multiset(Works(js))
      ensures AllPlaced(printer, schema, workers, causality.relations, js')
      ensures Run(step, old(db), Works(js) + rest).Some?
              ==> ok && Run(step, db, Works(js') + rest) == Run(step, old(db), Works(js) + rest)
    {
      ok, byHash', js', done := true, byHash, js, [];
      assert multiset(done) == multiset{};
      var conflict := causality.DetectConflict(keys);
      if conflict {
        PlacedSeparate(printer, schema, step, workers, causality.relations, js);
        ok, byHash', done := FlushQueues(causality, byHash, js, rest);
        js' := [];
        assert Works(js') == [] && [] + rest == rest;
      }
    }

    /** The worker is that of the first key, or with causality of its class, which all keys join. */
    method ChooseWorker(causality: Causality, c: Change, keys: seq<string>, ghost js: seq<Job<Change>>, enableCausality: bool)
      returns (worker: nat)
      requires 0 < workers && Fixed(causality.relations) && keys != [] && "" !in keys
      requires (set k | k in keys) == ChangeKeys(printer, schema(c.table), c)
      requires enableCausality ==> !Conflict(causality.relations, keys)
      requires enableCausality ==> AllPlaced(printer, schema, workers, causality.relations, js)
      modifies causality
      ensures worker < workers && Fixed(causality.relations)
      ensures enableCausality ==> AllPlaced(printer, schema, workers, causality.relations, js + [Job(worker, c)])
      ensures !enableCausality ==> worker == printer.hash(keys[0]) % workers
    {
      var key := keys[0];
      if enableCausality {
        AddPlaces(printer, schema, workers, causality.relations, js, c, keys);
        var added := causality.Add(keys);
        assert added;
        key := causality.Get(key);
      }
      worker := printer.hash(key) % workers;
    }

    /** Main result: with causality on, whatever the workers' interleaving between the flushes,
        the outcome is that of running the changes one after another.  In any case, causality on or off,
        it is that of running in some order the changes that took effect, all of them if nothing failed. */
    method SingleExec(changes: seq<Change>, enableCausality: bool) returns (ok: bool, ghost done: seq<Change>)
      requires 0 < workers && Lawful(schema, step) && Prints(printer) && forall t :: [] !in schema(t).uniqueKeys
      modifies this
      ensures Outcome(step, old(db), done, multiset(changes), db, ok)
      ensures enableCausality && Run(step, old(db), changes).Some?
              ==> ok && Some(db) == Run(step, old(db), changes)
    {
      var causality := new Causality();
      var byHash := EmptyQueues();
      ghost var js: seq<Job<Change>> := [];
      ghost var valid := enableCausality && Run(step, db, changes).Some?;
      ghost var rest := changes;
      done := [];
      assert Works(js) + rest == rest;
      for i := 0 to |changes|
        invariant fresh(causality) && Fixed(causality.relations)
        invariant |byHash| == workers && Holds(byHash, js)
        invariant rest == changes[i..]
        invariant Accounted(step, old(db), done, js, rest, multiset(changes), db)
        invariant enableCausality ==> AllPlaced(printer, schema, workers, causality.relations, js)
        invariant valid ==> Run(step, db, Works(js) + rest) == Run(step, old(db), changes)
      {
        var c := changes[i];
        var keys := GetKeys(printer, schema(c.table), c);
        if enableCausality {
          ghost var more;
          ghost var was, queued := db, js;
          ok, byHash, js, more := Schedule(causality, keys, byHash, js, rest);
          AccountFlush(step, old(db), done, was, queued, more, js, rest, multiset(changes), db, ok);
          done := done + more;
          if !ok {
            return;
          }
        }
        var worker := ChooseWorker(causality, c, keys, js, enableCausality);
        HoldsAppend(byHash, js, Job(worker, c));
        byHash := byHash[worker := byHash[worker] + [c]];
        WorksAppend(js, Job(worker, c), rest);
        AccountQueue(step, old(db), done, js, Job(worker, c), rest, multiset(changes), db);
        js, rest := js + [Job(worker, c)], rest[1..];
      }
      if enableCausality {
        PlacedSeparate(printer, schema, step, workers, causality.relations, js);
      }
      assert rest == [] && Works(js) + rest == Works(js);
      ghost var last;
      ghost var was := db;
      ok, last := ExecByHash(byHash, js);
      AccountLast(step, old(db), done, was, js, last, multiset(changes), db, ok);
      done := done + last;
    }
  }

  /** Main result in plain mode: changes that can be run one after another, each deleting a row that
      is there and inserting one that clashes with no other, have the same outcome in parallel. */
  method ParallelRun(schema: Schema, printer: Printer, workers: nat, db: Database, changes: seq<Change>)
    returns (ok: bool, after: Database)
    requires 0 < workers && Prints(printer) && forall t :: [] !in schema(t).uniqueKeys
    ensures Run(Steps(schema), db, changes).Some? ==> ok && Some(after) == Run(Steps(schema), db, changes)
  {
    StepsLawful(schema);
    var scheduler := new Scheduler(schema, Steps(schema), printer, workers, db);
    ghost var done;
    ok, done := scheduler.SingleExec(changes, true);
    after := scheduler.db;
  }
}
