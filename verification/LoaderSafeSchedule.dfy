/** The workers in safe mode: a parallel replay from tables that may have run ahead. */
module LoaderSafeSchedule {
  import opened Collections
  import opened LoaderModel
  import opened LoaderMerge
  import opened LoaderExecutor
  import opened LoaderCausality
  import opened Interleaving
  import opened LoaderSchedule

  type Tables = map<string, Table>

  function TableAt(db: Tables, name: string): Table {
    if name in db then db[name] else map[]
  }

  /** The primary keys a change names have no NULL. */
  predicate Keyable(info: TableInfo, d: DML)
    requires info.Keyed()
  {
    NoNull(Pk(info, d.values)) && NoNull(OldPk(info, d))
  }

  // ---------------------------------------------------------------- tables without a primary key

  type Positive = n: nat | 0 < n witness 1

  /** The rows of a table without a primary key, and how many copies of each there are. */
  type Bag = map<Row, Positive>

  function Copies(t: Bag, r: Row): nat {
    if r in t then t[r] else 0
  }

  /** Some unique key of the row has no NULL. */
  predicate HasKey(info: TableInfo, row: Row) {
    exists i :: 0 <= i < |info.uniqueKeys| && NoNull(KeyOf(row, info.uniqueKeys[i]))
  }

  /** The WHERE clause for a row matches another one on the key that is used. */
  predicate Hits(info: TableInfo, row: Row, r: Row) {
    var columns := WhereColumns(info, info.columns, row, 0);
    KeyOf(r, columns) == KeyOf(row, columns)
  }

  function Less(t: Bag, row: Row): Bag {
    if Copies(t, row) <= 1 then t - {row} else t[row := t[row] - 1]
  }

  /** DELETE with a limit of one row: by a unique key, which at most one row has, or else one copy. */
  function RemoveLoose(info: TableInfo, t: Bag, row: Row): Bag {
    if HasKey(info, row) then map r | r in t && !Hits(info, row, r) :: t[r] else Less(t, row)
  }

  /** REPLACE removes every row that agrees on a unique key. */
  function ReplaceLoose(info: TableInfo, t: Bag, row: Row): Bag {
    var rest: Bag := map r | r in t && !Clash(info, r, row) :: t[r];
    rest[row := Copies(rest, row) + 1]
  }

  function Before(d: DML): Row {
    if d.kind.Update? && |d.oldValues| > 0 then d.oldValues else d.values
  }

  function LooseStatement(info: TableInfo, t: Bag, d: DML): Bag {
    match d.kind
    case Insert => ReplaceLoose(info, t, d.values)
    case Update => ReplaceLoose(info, RemoveLoose(info, t, Before(d)), d.values)
    case Delete => RemoveLoose(info, t, d.values)
  }

  /** What a statement makes of the copies of one row, which depends on no other row. */
  function Removed(info: TableInfo, row: Row, r: Row, n: nat): nat {
    if HasKey(info, row) then (if Hits(info, row, r) then 0 else n)
    else if r == row && n > 0 then n - 1
    else n
  }

  function Replaced(info: TableInfo, row: Row, r: Row, n: nat): nat {
    (if Clash(info, r, row) then 0 else n) + if r == row then 1 else 0
  }

  function Effect(info: TableInfo, d: DML, r: Row, n: nat): nat {
    match d.kind
    case Insert => Replaced(info, d.values, r, n)
    case Update => Replaced(info, d.values, r, Removed(info, Before(d), r, n))
    case Delete => Removed(info, d.values, r, n)
  }

  lemma RemovedOn(info: TableInfo, t: Bag, row: Row, r: Row)
    ensures Copies(RemoveLoose(info, t, row), r) == Removed(info, row, r, Copies(t, r))
  {
  }

  lemma ReplacedOn(info: TableInfo, t: Bag, row: Row, r: Row)
    ensures Copies(ReplaceLoose(info, t, row), r) == Replaced(info, row, r, Copies(t, r))
  {
  }

  lemma EffectOn(info: TableInfo, t: Bag, d: DML, r: Row)
    ensures Copies(LooseStatement(info, t, d), r) == Effect(info, d, r, Copies(t, r))
  {
    match d.kind
    case Insert => ReplacedOn(info, t, d.values, r);
    case Update =>
      RemovedOn(info, t, Before(d), r);
      ReplacedOn(info, RemoveLoose(info, t, Before(d)), d.values, r);
    case Delete => RemovedOn(info, t, d.values, r);
  }

  lemma {:induction false} HitsClash(info: TableInfo, names: seq<string>, row: Row, r: Row, from: nat)
    requires from <= |info.uniqueKeys|
    requires exists i :: from <= i < |info.uniqueKeys| && NoNull(KeyOf(row, info.uniqueKeys[i]))
    requires var columns := WhereColumns(info, names, row, from); KeyOf(r, columns) == KeyOf(row, columns)
    ensures Clash(info, row, r)
    decreases |info.uniqueKeys| - from
  {
    if NoNull(KeyOf(row, info.uniqueKeys[from])) {
      assert ClashOn(row, r, info.uniqueKeys[from]);
    } else {
      HitsClash(info, names, row, r, from + 1);
    }
  }

  /** A statement does not touch a row unrelated to those it names. */
  lemma Untouched(info: TableInfo, d: DML, r: Row, n: nat)
    requires forall a :: a in Images(d) ==> Unrelated(info, a, r)
    ensures Effect(info, d, r, n) == n
  {
    assert Before(d) in Images(d) && d.values in Images(d);
    forall row | row in Images(d) && HasKey(info, row) ensures !Hits(info, row, r) {
      if Hits(info, row, r) {
        HitsClash(info, info.columns, row, r, 0);
        assert false;
      }
    }
  }

  /** Of a row it does not name, a statement leaves all copies or none, whatever they are. */
  lemma AllOrNone(info: TableInfo, d: DML, r: Row)
    requires r !in Images(d)
    ensures (forall n: nat :: Effect(info, d, r, n) == n) || (forall n: nat :: Effect(info, d, r, n) == 0)
  {
    assert Before(d) in Images(d) && d.values in Images(d);
  }

  lemma SameCopies(a: Bag, b: Bag)
    requires forall r :: Copies(a, r) == Copies(b, r)
    ensures a == b
  {
    forall r ensures r in a <==> r in b {
      assert Copies(a, r) == Copies(b, r);
    }
    forall r | r in a ensures a[r] == b[r] {
      assert Copies(a, r) == Copies(b, r);
    }
  }

  lemma EffectsCommute(info: TableInfo, x: DML, y: DML, r: Row, n: nat)
    requires forall a, b :: a in Images(x) && b in Images(y) ==> Unrelated(info, a, b)
    ensures Effect(info, y, r, Effect(info, x, r, n)) == Effect(info, x, r, Effect(info, y, r, n))
  {
    if r in Images(x) {
      forall b | b in Images(y) ensures Unrelated(info, b, r) {
        assert Unrelated(info, r, b);
      }
      Untouched(info, y, r, n);
      Untouched(info, y, r, Effect(info, x, r, n));
    } else if r in Images(y) {
      Untouched(info, x, r, n);
      Untouched(info, x, r, Effect(info, y, r, n));
    } else {
      AllOrNone(info, x, r);
      AllOrNone(info, y, r);
    }
  }

  /** On every table without a primary key, statements about unrelated rows commute. */
  lemma LooseCommute(info: TableInfo, t: Bag, x: DML, y: DML)
    requires forall a, b :: a in Images(x) && b in Images(y) ==> Unrelated(info, a, b)
    ensures LooseStatement(info, LooseStatement(info, t, x), y) == LooseStatement(info, LooseStatement(info, t, y), x)
  {
    var a, b := LooseStatement(info, t, x), LooseStatement(info, t, y);
    var ay, bx := LooseStatement(info, a, y), LooseStatement(info, b, x);
    forall r ensures Copies(ay, r) == Copies(bx, r) {
      EffectOn(info, t, x, r);
      EffectOn(info, t, y, r);
      EffectOn(info, a, y, r);
      EffectOn(info, b, x, r);
      EffectsCommute(info, x, y, r, Copies(t, r));
    }
    SameCopies(ay, bx);
  }

  /** The table holds these rows, as often. */
  ghost predicate SameRows(t: Bag, m: multiset<Row>) {
    forall r :: Copies(t, r) == m[r]
  }

  /** Taking away a row that is there: by the key in use no other row is hit. */
  lemma RemovedPlain(info: TableInfo, m: multiset<Row>, row: Row, r: Row)
    requires UniqueRows(info, m) && row in m
    ensures Removed(info, row, r, m[r]) == m[r] - if r == row then 1 else 0
  {
    if HasKey(info, row) {
      if Hits(info, row, r) {
        HitsClash(info, info.columns, row, r, 0);
        assert r in m ==> Clash(info, row, r);
      }
      if r == row {
        HitsClash(info, info.columns, row, row, 0);
        assert Clash(info, row, row);
      }
    }
  }

  /** Putting a row that agrees with none on a unique key. */
  lemma ReplacedPlain(info: TableInfo, rest: multiset<Row>, row: Row, r: Row)
    requires forall x :: x in rest ==> !Clash(info, x, row)
    ensures Replaced(info, row, r, rest[r]) == rest[r] + if r == row then 1 else 0
  {
    assert rest[r] > 0 ==> r in rest;
  }

  lemma EffectPlain(info: TableInfo, m: multiset<Row>, d: DML, r: Row)
    requires UniqueRows(info, m) && Taken(d) <= m && (d.kind.Update? ==> d.oldValues != map[])
    requires d.kind.Delete? || forall x :: x in m - Taken(d) ==> !Clash(info, x, d.values)
    ensures Effect(info, d, r, m[r]) == m[r] - Taken(d)[r] + if !d.kind.Delete? && r == d.values then 1 else 0
  {
    match d.kind
    case Insert =>
      assert m - Taken(d) == m;
      ReplacedPlain(info, m, d.values, r);
    case Delete => RemovedPlain(info, m, d.values, r);
    case Update =>
      assert |d.oldValues| > 0 && d.oldValues in m;
      RemovedPlain(info, m, d.oldValues, r);
      assert (m - Taken(d))[r] == m[r] - Taken(d)[r];
      ReplacedPlain(info, m - Taken(d), d.values, r);
  }

  /** Where a change can be made as the upstream made it, safe mode does just that. */
  lemma LoosePlain(schema: Schema, db: Database, c: Change, t: Bag, r: Row)
    requires UniqueRows(schema(c.table), TableOf(db, c.table)) && SameRows(t, TableOf(db, c.table))
    requires Step(schema, db, c).Some? && (c.dml.kind.Update? ==> c.dml.oldValues != map[])
    ensures Copies(LooseStatement(schema(c.table), t, c.dml), r) == TableOf(Step(schema, db, c).value, c.table)[r]
  {
    EffectOn(schema(c.table), t, c.dml, r);
    StepCounts(schema, db, c, r);
    StepPossible(schema, db, c);
    EffectPlain(schema(c.table), TableOf(db, c.table), c.dml, r);
  }

  /** Without a primary key safe mode cannot be repeated: an insert that is run again leaves the same
      table if and only if its row has a unique key without NULL. */
  lemma InsertAgainExact(info: TableInfo, t: Bag, d: DML)
    requires d.kind.Insert?
    ensures LooseStatement(info, LooseStatement(info, t, d), d) == LooseStatement(info, t, d) <==> HasKey(info, d.values)
  {
    var a := LooseStatement(info, t, d);
    var b := LooseStatement(info, a, d);
    assert HasKey(info, d.values) <==> Clash(info, d.values, d.values) by {
      assert forall i :: 0 <= i < |info.uniqueKeys| ==>
               (ClashOn(d.values, d.values, info.uniqueKeys[i]) <==> NoNull(KeyOf(d.values, info.uniqueKeys[i])));
    }
    EffectOn(info, a, d, d.values);
    if HasKey(info, d.values) {
      forall r ensures Copies(a, r) == Copies(b, r) {
        EffectOn(info, t, d, r);
        EffectOn(info, a, d, r);
      }
      SameCopies(a, b);
    }
  }

  // ---------------------------------------------------------------- a step in safe mode

  /** All tables, those with a primary key apart. */
  datatype Stored = Stored(keyed: Tables, loose: map<string, Bag>)

  function BagAt(db: Stored, name: string): Bag {
    if name in db.loose then db.loose[name] else map[]
  }

  /** A change in safe mode acts on any table; only a NULL in a primary key is an error. */
  function SafeStep(schema: Schema, db: Stored, c: Change): Option<Stored> {
    var info := schema(c.table);
    if !info.Keyed() then Some(db.(loose := db.loose[c.table := LooseStatement(info, BagAt(db, c.table), c.dml)]))
    else if Keyable(info, c.dml)
    then Some(db.(keyed := db.keyed[c.table := SafeStatement(info, TableAt(db.keyed, c.table), c.dml)]))
    else None
  }

  function SafeSteps(schema: Schema): Stepper<Stored, Change> {
    (db, c) => SafeStep(schema, db, c)
  }

  // ---------------------------------------------------------------- safe statements commute

  /** The changes name different primary keys, and their new rows can be in one table. */
  ghost predicate KeysApart(info: TableInfo, x: DML, y: DML)
    requires info.Keyed()
  {
    && OldPk(info, x) != OldPk(info, y) && OldPk(info, x) != Pk(info, y.values)
    && Pk(info, x.values) != OldPk(info, y) && Pk(info, x.values) != Pk(info, y.values)
    && !Clash(info, x.values, y.values) && !Clash(info, y.values, x.values)
  }

  lemma PksDiffer(info: TableInfo, a: Row, b: Row)
    requires info.Keyed() && Unrelated(info, a, b) && NoNull(Pk(info, a))
    ensures Pk(info, a) != Pk(info, b)
  {
    assert !ClashOn(a, b, info.uniqueKeys[0]);
  }

  lemma ImagesApart(info: TableInfo, x: DML, y: DML)
    requires info.Keyed() && Keyable(info, x) && Keyable(info, y)
    requires forall a, b :: a in Images(x) && b in Images(y) ==> Unrelated(info, a, b)
    ensures KeysApart(info, x, y)
  {
    assert Unrelated(info, x.values, y.values);
    var ox := if x.kind.Update? && |x.oldValues| > 0 then x.oldValues else x.values;
    var oy := if y.kind.Update? && |y.oldValues| > 0 then y.oldValues else y.values;
    assert ox in Images(x) && oy in Images(y);
    PksDiffer(info, ox, oy);
    PksDiffer(info, ox, y.values);
    PksDiffer(info, x.values, oy);
    PksDiffer(info, x.values, y.values);
  }

  /** What a safe statement leaves at a key. */
  lemma SafeLookup(info: TableInfo, t: Table, d: DML, k: Key)
    requires info.Keyed()
    ensures Lookup(SafeStatement(info, t, d), k)
         == if d.kind.Delete? then (if k == Pk(info, d.values) then None else Lookup(t, k))
            else if k == Pk(info, d.values) then Some(d.values)
            else if k !in t || Clash(info, t[k], d.values) || (d.kind.Update? && k == OldPk(info, d)) then None
            else Some(t[k])
  {
  }

  /** On every table, valid or not, safe statements about different rows commute. */
  lemma SafeCommute(info: TableInfo, t: Table, x: DML, y: DML)
    requires info.Keyed() && KeysApart(info, x, y)
    ensures SafeStatement(info, SafeStatement(info, t, x), y) == SafeStatement(info, SafeStatement(info, t, y), x)
  {
    var a, b := SafeStatement(info, t, x), SafeStatement(info, t, y);
    var ay, bx := SafeStatement(info, a, y), SafeStatement(info, b, x);
    forall k ensures Lookup(ay, k) == Lookup(bx, k) {
      SafeLookup(info, t, x, k);
      SafeLookup(info, t, y, k);
      SafeLookup(info, a, y, k);
      SafeLookup(info, b, x, k);
    }
    AgreeEverywhere(ay, bx, {});
  }

  /** Both changes run, in either order, with one result. */
  ghost predicate Swap(schema: Schema, db: Stored, x: Change, y: Change) {
    SafeStep(schema, db, x).Some? && SafeStep(schema, SafeStep(schema, db, x).value, y).Some? ==>
      && SafeStep(schema, db, y).Some?
      && SafeStep(schema, SafeStep(schema, db, y).value, x) == SafeStep(schema, SafeStep(schema, db, x).value, y)
  }

  lemma SwapKeyed(schema: Schema, db: Stored, x: Change, y: Change)
    requires Independent(schema, x, y) && x.table == y.table && schema(x.table).Keyed()
    ensures Swap(schema, db, x, y)
  {
    var info, t := schema(x.table), TableAt(db.keyed, x.table);
    if Keyable(info, x.dml) && Keyable(info, y.dml) {
      ImagesApart(info, x.dml, y.dml);
      SafeCommute(info, t, x.dml, y.dml);
      var v, w := SafeStatement(info, t, x.dml), SafeStatement(info, t, y.dml);
      assert db.keyed[x.table := v][x.table := SafeStatement(info, v, y.dml)]
          == db.keyed[x.table := w][x.table := SafeStatement(info, w, x.dml)];
    }
  }

  lemma SwapLoose(schema: Schema, db: Stored, x: Change, y: Change)
    requires Independent(schema, x, y) && x.table == y.table && !schema(x.table).Keyed()
    ensures Swap(schema, db, x, y)
  {
    var info, t := schema(x.table), BagAt(db, x.table);
    LooseCommute(info, t, x.dml, y.dml);
    var v, w := LooseStatement(info, t, x.dml), LooseStatement(info, t, y.dml);
    assert db.loose[x.table := v][x.table := LooseStatement(info, v, y.dml)]
        == db.loose[x.table := w][x.table := LooseStatement(info, w, x.dml)];
  }

  lemma SwapEntries<T>(m: map<string, T>, a: string, v: T, b: string, w: T)
    requires a != b
    ensures m[a := v][b := w] == m[b := w][a := v]
  {
  }

  lemma SwapOther(schema: Schema, db: Stored, x: Change, y: Change)
    requires x.table != y.table
    ensures Swap(schema, db, x, y)
  {
    var v := SafeStep(schema, db, x);
    var w := SafeStep(schema, db, y);
    if v.Some? && w.Some? {
      if schema(x.table).Keyed() && schema(y.table).Keyed() {
        SwapEntries(db.keyed, x.table, v.value.keyed[x.table], y.table, w.value.keyed[y.table]);
      } else if !schema(x.table).Keyed() && !schema(y.table).Keyed() {
        SwapEntries(db.loose, x.table, v.value.loose[x.table], y.table, w.value.loose[y.table]);
      }
    }
  }

  /** In safe mode changes that share no key commute on all tables, with or without a primary key. */
  lemma SafeLawful(schema: Schema)
    ensures Lawful(schema, SafeSteps(schema))
  {
    var step := SafeSteps(schema);
    forall x, y | Independent(schema, x, y) ensures Commutes(step, x, y) {
      forall db | step(db, x).Some? && step(step(db, x).value, y).Some?
        ensures step(db, y).Some? && step(step(db, y).value, x) == step(step(db, x).value, y)
      {
        if x.table != y.table {
          SwapOther(schema, db, x, y);
        } else if schema(x.table).Keyed() {
          SwapKeyed(schema, db, x, y);
        } else {
          SwapLoose(schema, db, x, y);
        }
        assert Swap(schema, db, x, y);
      }
    }
  }

  // ---------------------------------------------------------------- table by table

  /** The changes of one table. */
  function Only(cs: seq<Change>, name: string): seq<DML> {
    if cs == [] then []
    else Only(cs[..|cs| - 1], name) + if cs[|cs| - 1].table == name then [cs[|cs| - 1].dml] else []
  }

  /** The changes of tables with a primary key have no NULL there. */
  ghost predicate AllKeyable(schema: Schema, cs: seq<Change>) {
    forall i :: 0 <= i < |cs| && schema(cs[i].table).Keyed() ==> Keyable(schema(cs[i].table), cs[i].dml)
  }

  lemma KeyablePossible(schema: Schema, db: Stored, cs: seq<Change>)
    requires AllKeyable(schema, cs)
    ensures Run(SafeSteps(schema), db, cs).Some?
  {
    RunPossible(SafeSteps(schema), db, cs);
  }

  /** Statements on one table, one after another. */
  function InOrder<T>(act: (T, DML) -> T, t: T, ds: seq<DML>): T {
    if ds == [] then t else act(InOrder(act, t, ds[..|ds| - 1]), ds[|ds| - 1])
  }

  /** Of what a part of the state is, a step changes what the statement of its table does. */
  ghost predicate ActsOn<S(!new), T>(step: Stepper<S, Change>, part: S -> T, act: (T, DML) -> T, name: string) {
    forall db, c :: step(db, c).Some? ==>
      part(step(db, c).value) == if c.table == name then act(part(db), c.dml) else part(db)
  }

  lemma OnlySnoc(init: seq<Change>, last: Change, name: string)
    ensures Only(init + [last], name) == Only(init, name) + if last.table == name then [last.dml] else []
  {
    assert (init + [last])[..|init|] == init;
  }

  lemma InOrderSnoc<T>(act: (T, DML) -> T, t: T, ds: seq<DML>, d: DML)
    ensures InOrder(act, t, ds + [d]) == act(InOrder(act, t, ds), d)
  {
    assert (ds + [d])[..|ds|] == ds;
  }

  /** Run one after another, the changes act on each table as its own statements in order. */
  lemma {:induction false} RunPerTable<S(!new), T>(step: Stepper<S, Change>, part: S -> T, act: (T, DML) -> T, db: S,
                                                   cs: seq<Change>, name: string)
    requires ActsOn(step, part, act, name) && Run(step, db, cs).Some?
    ensures part(Run(step, db, cs).value) == InOrder(act, part(db), Only(cs, name))
  {
    if cs != [] {
      var init, last := cs[..|cs| - 1], cs[|cs| - 1];
      RunSnoc(step, db, init, last);
      assert cs == init + [last];
      RunPerTable(step, part, act, db, init, name);
      OnlySnoc(init, last, name);
      assert Only(init, name) + [] == Only(init, name);
      InOrderSnoc(act, part(db), Only(init, name), last.dml);
    }
  }

  function KeyedAct(info: TableInfo): (Table, DML) -> Table {
    (t, d) => if info.Keyed() then SafeStatement(info, t, d) else t
  }

  function LooseAct(info: TableInfo): (Bag, DML) -> Bag {
    (t, d) => LooseStatement(info, t, d)
  }

  lemma {:induction false} KeyedInOrder(info: TableInfo, t: Table, ds: seq<DML>)
    requires info.Keyed()
    ensures InOrder(KeyedAct(info), t, ds) == SafeStatements(info, t, ds)
  {
    if ds != [] {
      KeyedInOrder(info, t, ds[..|ds| - 1]);
    }
  }

  lemma KeyedPart(schema: Schema, db: Stored, cs: seq<Change>, name: string)
    requires schema(name).Keyed() && Run(SafeSteps(schema), db, cs).Some?
    ensures TableAt(Run(SafeSteps(schema), db, cs).value.keyed, name)
         == SafeStatements(schema(name), TableAt(db.keyed, name), Only(cs, name))
  {
    var part := (s: Stored) => TableAt(s.keyed, name);
    assert ActsOn(SafeSteps(schema), part, KeyedAct(schema(name)), name);
    RunPerTable(SafeSteps(schema), part, KeyedAct(schema(name)), db, cs, name);
    KeyedInOrder(schema(name), TableAt(db.keyed, name), Only(cs, name));
  }

  lemma LoosePart(schema: Schema, db: Stored, cs: seq<Change>, name: string)
    requires !schema(name).Keyed() && Run(SafeSteps(schema), db, cs).Some?
    ensures BagAt(Run(SafeSteps(schema), db, cs).value, name)
         == InOrder(LooseAct(schema(name)), BagAt(db, name), Only(cs, name))
  {
    var part := (s: Stored) => BagAt(s, name);
    assert ActsOn(SafeSteps(schema), part, LooseAct(schema(name)), name);
    RunPerTable(SafeSteps(schema), part, LooseAct(schema(name)), db, cs, name);
  }

  // ---------------------------------------------------------------- parallel replay

  /** The table differs from the start of a run only in rows the run names, and all tables of the
      run satisfy the unique keys. */
  ghost predicate Replays(info: TableInfo, t: Table, original: Table, ds: seq<DML>)
    requires info.Keyed()
  {
    UniqueRun(info, original, ds) && Agree(t, original, Named(info, ds))
  }

  /** Main result: with causality on, a parallel run in safe mode leaves in every table, from whatever
      it started with, what the statements of that table leave one after another.  A table with a
      primary key that differs from the start of a run, all of whose tables satisfy the unique keys,
      only in rows the run names, ends as in that run, whatever the other tables are. */
  method ParallelReplay(schema: Schema, printer: Printer, workers: nat, db: Stored, changes: seq<Change>, ghost original: Tables)
    returns (ok: bool, after: Stored)
    requires 0 < workers && Prints(printer) && (forall t :: [] !in schema(t).uniqueKeys)
    requires AllKeyable(schema, changes)
    ensures ok && forall name :: schema(name).Keyed() ==>
              TableAt(after.keyed, name) == SafeStatements(schema(name), TableAt(db.keyed, name), Only(changes, name))
    ensures forall name :: !schema(name).Keyed() ==>
              BagAt(after, name) == InOrder(LooseAct(schema(name)), BagAt(db, name), Only(changes, name))
    ensures forall name :: schema(name).Keyed() &&
                           Replays(schema(name), TableAt(db.keyed, name), TableAt(original, name), Only(changes, name)) ==>
              TableAt(after.keyed, name) == ApplyAll(schema(name), TableAt(original, name), Only(changes, name))
  {
    SafeLawful(schema);
    KeyablePossible(schema, db, changes);
    var scheduler := new Scheduler(schema, SafeSteps(schema), printer, workers, db);
    ghost var done;
    ok, done := scheduler.SingleExec(changes, true);
    after := scheduler.db;
    forall name | !schema(name).Keyed()
      ensures BagAt(after, name) == InOrder(LooseAct(schema(name)), BagAt(db, name), Only(changes, name))
    {
      LoosePart(schema, db, changes, name);
    }
    forall name | schema(name).Keyed()
      ensures TableAt(after.keyed, name) == SafeStatements(schema(name), TableAt(db.keyed, name), Only(changes, name))
      ensures Replays(schema(name), TableAt(db.keyed, name), TableAt(original, name), Only(changes, name)) ==>
                TableAt(after.keyed, name) == ApplyAll(schema(name), TableAt(original, name), Only(changes, name))
    {
      KeyedPart(schema, db, changes, name);
      if Replays(schema(name), TableAt(db.keyed, name), TableAt(original, name), Only(changes, name)) {
        SafeModeReentrant(schema(name), TableAt(db.keyed, name), TableAt(original, name), Only(changes, name));
      }
    }
  }
}
