/** Running row changes on a downstream table with a primary key: statement by statement, in safe
    mode, and as a merged batch. */
module LoaderExecutor {
  import opened Collections
  import opened LoaderModel
  import opened LoaderMerge

  // ---------------------------------------------------------------- choosing the WHERE clause

  /** The columns a row is looked up by: the first unique key without NULL, else all columns
      `names` of the change. */
  function WhereColumns(info: TableInfo, names: seq<string>, row: Row, from: nat): seq<string>
    requires from <= |info.uniqueKeys|
    decreases |info.uniqueKeys| - from
  {
    if from == |info.uniqueKeys| then names
    else if NoNull(KeyOf(row, info.uniqueKeys[from])) then info.uniqueKeys[from]
    else WhereColumns(info, names, row, from + 1)
  }

  /** Some column of the key is NULL in the row. */
  ghost predicate HasNull(row: Row, key: seq<string>) {
    exists x :: 0 <= x < |key| && Get(row, key[x]) == Null
  }

  /** A key in use has no NULL; all columns are used only if every unique key has one. */
  method WhereSlice(info: TableInfo, names: seq<string>, row: Row) returns (columns: seq<string>)
    ensures columns == WhereColumns(info, names, row, 0)
    ensures (columns == names && forall k :: k in info.uniqueKeys ==> HasNull(row, k))
            || (columns in info.uniqueKeys && !HasNull(row, columns))
    ensures info.Keyed() && NoNull(Pk(info, row)) ==> columns == info.uniqueKeys[0]
  {
    var i := 0;
    while i < |info.uniqueKeys|
      invariant 0 <= i <= |info.uniqueKeys|
      invariant WhereColumns(info, names, row, i) == WhereColumns(info, names, row, 0)
      invariant forall k :: 0 <= k < i ==> HasNull(row, info.uniqueKeys[k])
    {
      var notAnyNil, j := true, 0;
      var index := info.uniqueKeys[i];
      while j < |index|
        invariant 0 <= j <= |index|
        invariant notAnyNil <==> forall x :: 0 <= x < j ==> Get(row, index[x]) != Null
      {
        if Get(row, index[j]) == Null {
          notAnyNil := false;
        }
        j := j + 1;
      }
      assert notAnyNil <==> NoNull(KeyOf(row, index)) by {
        if NoNull(KeyOf(row, index)) {
          forall x | 0 <= x < |index| ensures Get(row, index[x]) != Null {
            assert KeyOf(row, index)[x] == Get(row, index[x]);
          }
        }
      }
      if notAnyNil {
        return index;
      }
      assert HasNull(row, index);
      i := i + 1;
    }
    columns := names;
  }

  /** `getTableInfo` moves the primary key to the front of the unique keys. */
  method PrimaryFirst(names: seq<string>, keys: seq<seq<string>>) returns (keys': seq<seq<string>>, hasPrimary: bool)
    requires |names| == |keys|
    ensures multiset(keys') == multiset(keys)
    ensures hasPrimary <==> "PRIMARY" in names
    ensures hasPrimary ==> exists i :: 0 <= i < |names| && names[i] == "PRIMARY" && keys'[..1] == [keys[i]]
  {
    for i := 0 to |keys|
      invariant forall j :: 0 <= j < i ==> names[j] != "PRIMARY"
    {
      if names[i] == "PRIMARY" {
        keys' := keys[0 := keys[i]][i := keys[0]];
        assert keys'[..1] == [keys[i]];
        return keys', true;
      }
    }
    return keys, false;
  }

  // ---------------------------------------------------------------- plain statements

  /** Whether some row of the table clashes with a row. */
  ghost predicate Blocked(info: TableInfo, t: Table, row: Row) {
    exists k :: k in t && Clash(info, t[k], row)
  }

  /** One statement without safe mode; `None` is a duplicate-key error. */
  ghost function Statement(info: TableInfo, t: Table, d: DML): Option<Table>
    requires info.Keyed()
  {
    match d.kind
    case Insert => if Blocked(info, t, d.values) then None else Some(t[Pk(info, d.values) := d.values])
    case Delete => Some(t - {Pk(info, d.values)})
    case Update =>
      if OldPk(info, d) !in t then Some(t)
      else
        var rest := t - {OldPk(info, d)};
        if Blocked(info, rest, d.values) then None else Some(rest[Pk(info, d.values) := d.values])
  }

  ghost function Statements(info: TableInfo, t: Table, ds: seq<DML>): Option<Table>
    requires info.Keyed()
  {
    if ds == [] then Some(t)
    else match Statements(info, t, ds[..|ds| - 1])
      case None => None
      case Some(s) => Statement(info, s, ds[|ds| - 1])
  }

  /** The change fits the table: an update or delete finds its row, an insert or a moved row
      finds its place free. */
  ghost predicate Fits(info: TableInfo, t: Table, d: DML)
    requires info.Keyed()
  {
    match d.kind
    case Insert => Pk(info, d.values) !in t
    case Delete => Pk(info, d.values) in t
    case Update => OldPk(info, d) in t && (OldPk(info, d) != Pk(info, d.values) ==> Pk(info, d.values) !in t)
  }

  /** Every change fits and leaves a table that satisfies the unique keys. */
  ghost predicate ValidRun(info: TableInfo, t: Table, ds: seq<DML>)
    requires info.Keyed()
  {
    ds != [] ==>
      && ValidRun(info, t, ds[..|ds| - 1])
      && Fits(info, ApplyAll(info, t, ds[..|ds| - 1]), ds[|ds| - 1])
      && Unique(info, ApplyAll(info, t, ds))
  }

  lemma PutUnblocked(info: TableInfo, rest: Table, row: Row)
    requires info.Keyed() && Unique(info, rest[Pk(info, row) := row]) && Pk(info, row) !in rest
    ensures !Blocked(info, rest, row)
  {
    var t := rest[Pk(info, row) := row];
    forall k | k in rest ensures !Clash(info, rest[k], row) {
      assert t[k] == rest[k] && t[Pk(info, row)] == row;
    }
  }

  /** On a valid run the statements succeed and do what the upstream did. */
  lemma {:induction false} StatementsFollow(info: TableInfo, t: Table, ds: seq<DML>)
    requires info.Keyed() && ValidRun(info, t, ds)
    ensures Statements(info, t, ds) == Some(ApplyAll(info, t, ds))
  {
    if ds != [] {
      var init, last := ds[..|ds| - 1], ds[|ds| - 1];
      StatementsFollow(info, t, init);
      var s := ApplyAll(info, t, init);
      match last.kind
      case Insert => PutUnblocked(info, s, last.values);
      case Delete =>
      case Update => PutUnblocked(info, s - {OldPk(info, last)}, last.values);
    }
  }

  // ---------------------------------------------------------------- safe mode

  /** One change in safe mode: an insert is a replace, an update a delete and a replace. */
  function SafeStatement(info: TableInfo, t: Table, d: DML): Table
    requires info.Keyed()
  {
    match d.kind
    case Insert => Replace(info, t, d.values)
    case Update => Replace(info, t - {OldPk(info, d)}, d.values)
    case Delete => t - {Pk(info, d.values)}
  }

  function SafeStatements(info: TableInfo, t: Table, ds: seq<DML>): Table
    requires info.Keyed()
  {
    if ds == [] then t else SafeStatement(info, SafeStatements(info, t, ds[..|ds| - 1]), ds[|ds| - 1])
  }

  /** The primary keys a run names. */
  function Named(info: TableInfo, ds: seq<DML>): set<Key>
    requires info.Keyed()
  {
    if ds == [] then {}
    else Named(info, ds[..|ds| - 1]) + {OldPk(info, ds[|ds| - 1]), Pk(info, ds[|ds| - 1].values)}
  }

  /** All tables the run goes through satisfy the unique keys. */
  ghost predicate UniqueRun(info: TableInfo, t: Table, ds: seq<DML>)
    requires info.Keyed()
  {
    ds != [] ==> UniqueRun(info, t, ds[..|ds| - 1]) && Unique(info, ApplyAll(info, t, ds))
  }

  /** With the old row gone, only the new one may still differ. */
  lemma BeforeReplace(info: TableInfo, r: Table, t: Table, pending: set<Key>, d: DML)
    requires info.Keyed() && Agree(r, t, pending)
    ensures var f, o, n := Apply(info, t, d), OldPk(info, d), Pk(info, d.values);
      var r1 := if d.kind.Insert? then r else r - {o};
      Agree(r1, f, pending + {n}) && (o == n || Agree(r1, f, pending + {n} - {o}))
  {
    var f, o, n := Apply(info, t, d), OldPk(info, d), Pk(info, d.values);
    var r1 := if d.kind.Insert? then r else r - {o};
    forall k | k !in pending + {n} ensures Lookup(r1, k) == Lookup(f, k) {
      assert Lookup(r, k) == Lookup(t, k);
    }
    if o != n {
      forall k | k !in pending + {n} - {o} ensures Lookup(r1, k) == Lookup(f, k) {
        assert k != o ==> Lookup(r, k) == Lookup(t, k);
      }
    }
  }

  lemma SafeAgrees(info: TableInfo, r: Table, t: Table, pending: set<Key>, d: DML)
    requires info.Keyed() && Agree(r, t, pending) && Unique(info, Apply(info, t, d))
    ensures Agree(SafeStatement(info, r, d), Apply(info, t, d), pending - {OldPk(info, d), Pk(info, d.values)})
  {
    var f, o, n := Apply(info, t, d), OldPk(info, d), Pk(info, d.values);
    var r1 := if d.kind.Insert? then r else r - {o};
    BeforeReplace(info, r, t, pending, d);
    if d.kind.Delete? {
      forall k | k !in pending - {o, n} ensures Lookup(r1, k) == Lookup(f, k) {
        if k != n {
          assert Lookup(r, k) == Lookup(t, k);
        }
      }
    } else if o == n {
      ReplaceAgrees(info, r1, f, pending + {n}, d.values);
    } else {
      ReplaceAgrees(info, r1, f, pending + {n} - {o}, d.values);
    }
  }

  /** Replaying any part of a run: after each prefix, the replayed table agrees with the original
      one except on keys that are still to come. */
  lemma {:induction false} ReplayAgrees(info: TableInfo, r: Table, t: Table, ds: seq<DML>, all: set<Key>)
    requires info.Keyed() && UniqueRun(info, t, ds) && Agree(r, t, all)
    ensures Agree(SafeStatements(info, r, ds), ApplyAll(info, t, ds), all - Named(info, ds))
  {
    if ds != [] {
      var init, last := ds[..|ds| - 1], ds[|ds| - 1];
      ReplayAgrees(info, r, t, init, all);
      SafeAgrees(info, SafeStatements(info, r, init), ApplyAll(info, t, init), all - Named(info, init), last);
      assert all - Named(info, init) - {OldPk(info, last), Pk(info, last.values)} == all - Named(info, ds);
    }
  }

  /** Main result: safe mode is reentrant.  Replayed from any table that differs from the
      original start only in rows the run names, the run ends in the original final table. */
  lemma SafeModeReentrant(info: TableInfo, r: Table, t: Table, ds: seq<DML>)
    requires info.Keyed() && UniqueRun(info, t, ds) && Agree(r, t, Named(info, ds))
    ensures SafeStatements(info, r, ds) == ApplyAll(info, t, ds)
  {
    ReplayAgrees(info, r, t, ds, Named(info, ds));
    AgreeEverywhere(SafeStatements(info, r, ds), ApplyAll(info, t, ds), Named(info, ds) - Named(info, ds));
  }

  lemma {:induction false} ApplyTouchesNamed(info: TableInfo, t: Table, ds: seq<DML>)
    requires info.Keyed()
    ensures Agree(ApplyAll(info, t, ds), t, Named(info, ds))
  {
    if ds != [] {
      ApplyTouchesNamed(info, t, ds[..|ds| - 1]);
      forall k | k !in Named(info, ds) ensures Lookup(ApplyAll(info, t, ds), k) == Lookup(t, k) {
        assert Lookup(ApplyAll(info, t, ds[..|ds| - 1]), k) == Lookup(t, k);
      }
    }
  }

  lemma {:induction false} NamedPrefix(info: TableInfo, ds: seq<DML>, i: nat)
    requires info.Keyed() && i <= |ds|
    ensures Named(info, ds[..i]) <= Named(info, ds)
  {
    if i == |ds| {
      assert ds[..i] == ds;
    } else {
      NamedPrefix(info, ds[..|ds| - 1], i);
      assert ds[..|ds| - 1][..i] == ds[..i];
    }
  }

  lemma {:induction false} UniquePrefix(info: TableInfo, t: Table, ds: seq<DML>, i: nat)
    requires info.Keyed() && UniqueRun(info, t, ds) && i <= |ds|
    ensures UniqueRun(info, t, ds[..i])
  {
    if i == |ds| {
      assert ds[..i] == ds;
    } else {
      UniquePrefix(info, t, ds[..|ds| - 1], i);
      assert ds[..|ds| - 1][..i] == ds[..i];
    }
  }

  /** A replay that is cut off leaves a table that can be replayed again. */
  lemma ReplayCut(info: TableInfo, r: Table, t: Table, ds: seq<DML>, i: nat)
    requires info.Keyed() && UniqueRun(info, t, ds) && Agree(r, t, Named(info, ds)) && i <= |ds|
    ensures Agree(SafeStatements(info, r, ds[..i]), t, Named(info, ds))
  {
    UniquePrefix(info, t, ds, i);
    ReplayAgrees(info, r, t, ds[..i], Named(info, ds));
    ApplyTouchesNamed(info, t, ds[..i]);
    NamedPrefix(info, ds, i);
  }

  ghost predicate Cuts(ds: seq<DML>, cuts: seq<nat>) {
    forall i :: 0 <= i < |cuts| ==> cuts[i] <= |ds|
  }

  /** The table after replays in safe mode, each cut off after so many changes. */
  ghost function Replayed(info: TableInfo, t: Table, ds: seq<DML>, cuts: seq<nat>): Table
    requires info.Keyed() && Cuts(ds, cuts)
  {
    if cuts == [] then t
    else SafeStatements(info, Replayed(info, t, ds, cuts[..|cuts| - 1]), ds[..cuts[|cuts| - 1]])
  }

  lemma {:induction false} ReplayedAgrees(info: TableInfo, r: Table, t: Table, ds: seq<DML>, cuts: seq<nat>)
    requires info.Keyed() && UniqueRun(info, t, ds) && Agree(r, t, Named(info, ds)) && Cuts(ds, cuts)
    ensures Agree(Replayed(info, r, ds, cuts), t, Named(info, ds))
  {
    if cuts != [] {
      ReplayedAgrees(info, r, t, ds, cuts[..|cuts| - 1]);
      ReplayCut(info, Replayed(info, r, ds, cuts[..|cuts| - 1]), t, ds, cuts[|cuts| - 1]);
    }
  }

  /** A crash after any part of the run, any number of replays that crash after any part of it, and
      then a full replay, end in the original final table. */
  lemma ReplayAfterCrash(info: TableInfo, t: Table, ds: seq<DML>, i: nat, cuts: seq<nat>)
    requires info.Keyed() && UniqueRun(info, t, ds) && i <= |ds| && Cuts(ds, cuts)
    ensures SafeStatements(info, Replayed(info, ApplyAll(info, t, ds[..i]), ds, cuts), ds) == ApplyAll(info, t, ds)
  {
    ApplyTouchesNamed(info, t, ds[..i]);
    NamedPrefix(info, ds, i);
    ReplayedAgrees(info, ApplyAll(info, t, ds[..i]), t, ds, cuts);
    SafeModeReentrant(info, Replayed(info, ApplyAll(info, t, ds[..i]), ds, cuts), t, ds);
  }

  // ---------------------------------------------------------------- batches

  function Concat(parts: seq<seq<DML>>): seq<DML> {
    if parts == [] then [] else Concat(parts[..|parts| - 1]) + parts[|parts| - 1]
  }

  method SplitDMLs(ds: seq<DML>, size: nat) returns (parts: seq<seq<DML>>)
    requires 0 < size
    ensures Concat(parts) == ds
    ensures forall i :: 0 <= i < |parts| ==> 0 < |parts[i]| <= size
    ensures forall i :: 0 <= i < |parts| - 1 ==> |parts[i]| == size
  {
    parts := [];
    var i := 0;
    while i < |ds|
      invariant 0 <= i <= |ds|
      invariant Concat(parts) == ds[..i]
      invariant forall j :: 0 <= j < |parts| ==> 0 < |parts[j]| <= size
      invariant i < |ds| ==> forall j :: 0 <= j < |parts| ==> |parts[j]| == size
      invariant forall j :: 0 <= j < |parts| - 1 ==> |parts[j]| == size
    {
      var end := if i + size > |ds| then |ds| else i + size;
      assert ds[..end] == ds[..i] + ds[i..end];
      assert (parts + [ds[i..end]])[..|parts|] == parts;
      parts := parts + [ds[i..end]];
      i := end;
    }
    assert ds[..|ds|] == ds;
  }

  lemma {:induction false} DeleteAllAppend(info: TableInfo, t: Table, xs: seq<DML>, ys: seq<DML>)
    requires info.Keyed()
    ensures DeleteAll(info, t, xs + ys) == DeleteAll(info, DeleteAll(info, t, xs), ys)
  {
    if ys == [] {
      assert xs + ys == xs;
    } else {
      assert (xs + ys)[..|xs + ys| - 1] == xs + ys[..|ys| - 1];
      DeleteAllAppend(info, t, xs, ys[..|ys| - 1]);
    }
  }

  lemma {:induction false} ReplaceAllAppend(info: TableInfo, t: Table, xs: seq<Row>, ys: seq<Row>)
    requires info.Keyed()
    ensures ReplaceAll(info, t, xs + ys) == ReplaceAll(info, ReplaceAll(info, t, xs), ys)
  {
    if ys == [] {
      assert xs + ys == xs;
    } else {
      assert (xs + ys)[..|xs + ys| - 1] == xs + ys[..|ys| - 1];
      ReplaceAllAppend(info, t, xs, ys[..|ys| - 1]);
    }
  }

  /** What a phase does with its changes: delete them, or replace by them. */
  function RunAll(info: TableInfo, deleting: bool, t: Table, ds: seq<DML>): Table
    requires info.Keyed()
  {
    if deleting then DeleteAll(info, t, ds) else ReplaceAll(info, t, Rows(ds))
  }

  lemma RunAllAppend(info: TableInfo, deleting: bool, t: Table, xs: seq<DML>, ys: seq<DML>)
    requires info.Keyed()
    ensures RunAll(info, deleting, t, xs + ys) == RunAll(info, deleting, RunAll(info, deleting, t, xs), ys)
  {
    if deleting {
      DeleteAllAppend(info, t, xs, ys);
    } else {
      assert Rows(xs + ys) == Rows(xs) + Rows(ys);
      ReplaceAllAppend(info, t, Rows(xs), Rows(ys));
    }
  }

  lemma RunSingle(info: TableInfo, deleting: bool, t: Table, d: DML)
    requires info.Keyed()
    ensures RunAll(info, deleting, t, [d])
         == if deleting then t - {Pk(info, d.values)} else Replace(info, t, d.values)
  {
    assert [d][..0] == [] && Rows([d]) == [d.values] && [d.values][..0] == [];
    assert DeleteAll(info, t, []) == t && ReplaceAll(info, t, []) == t;
  }

  ghost predicate InSome(parts: seq<seq<DML>>, d: DML) {
    exists i :: 0 <= i < |parts| && d in parts[i]
  }

  lemma RemovePart(parts: seq<seq<DML>>, i: nat, d: DML)
    requires i < |parts|
    ensures InSome(parts, d) <==> d in parts[i] || InSome(parts[..i] + parts[i + 1..], d)
  {
    var rest := parts[..i] + parts[i + 1..];
    if InSome(parts, d) {
      var j :| 0 <= j < |parts| && d in parts[j];
      assert j < i ==> rest[j] == parts[j];
      assert i < j ==> rest[j - 1] == parts[j];
    }
    if InSome(rest, d) {
      var j :| 0 <= j < |rest| && d in rest[j];
      assert rest[j] == if j < i then parts[j] else parts[j + 1];
    }
  }

  lemma {:induction false} ConcatMember(parts: seq<seq<DML>>, d: DML)
    ensures d in Concat(parts) <==> InSome(parts, d)
  {
    if parts != [] {
      ConcatMember(parts[..|parts| - 1], d);
      RemovePart(parts, |parts| - 1, d);
      assert parts[..|parts| - 1] + parts[|parts|..] == parts[..|parts| - 1];
    }
  }

  class Executor {
    const info: TableInfo
    const fmt: Key -> string
    const batchSize: nat
    var rows: Table

    constructor (info: TableInfo, fmt: Key -> string, batchSize: nat, rows: Table)
      ensures this.info == info && this.fmt == fmt && this.batchSize == batchSize && this.rows == rows
    {
      this.info, this.fmt, this.batchSize, this.rows := info, fmt, batchSize, rows;
    }

    /** One transaction of a phase. */
    method Bulk(deleting: bool, batch: seq<DML>)
      requires info.Keyed()
      modifies this
      ensures rows == RunAll(info, deleting, old(rows), batch)
    {
      for i := 0 to |batch|
        invariant rows == RunAll(info, deleting, old(rows), batch[..i])
      {
        assert batch[..i + 1] == batch[..i] + [batch[i]];
        RunAllAppend(info, deleting, old(rows), batch[..i], [batch[i]]);
        RunSingle(info, deleting, rows, batch[i]);
        if deleting {
          rows := rows - {Pk(info, batch[i].values)};
        } else {
          rows := Replace(info, rows, batch[i].values);
        }
      }
      assert batch[..|batch|] == batch;
    }

    /** The transactions of a phase run concurrently: they take effect in any order, which is
        returned for the specification. */
    method SplitExec(deleting: bool, ds: seq<DML>) returns (ghost order: seq<DML>)
      requires info.Keyed() && 0 < batchSize
      modifies this
      ensures forall d :: d in order <==> d in ds
      ensures rows == RunAll(info, deleting, old(rows), order)
    {
      var todo := SplitDMLs(ds, batchSize);
      ghost var parts := todo;
      order := [];
      while todo != []
        invariant rows == RunAll(info, deleting, old(rows), order)
        invariant forall d :: d in order || InSome(todo, d) <==> InSome(parts, d)
      {
        var i :| 0 <= i < |todo|;
        RunAllAppend(info, deleting, old(rows), order, todo[i]);
        Bulk(deleting, todo[i]);
        forall d ensures d in order || InSome(todo, d) <==> d in order + todo[i] || InSome(todo[..i] + todo[i + 1..], d) {
          RemovePart(todo, i, d);
        }
        order := order + todo[i];
        todo := todo[..i] + todo[i + 1..];
      }
      forall d ensures d in order <==> d in ds {
        ConcatMember(parts, d);
      }
    }

    /** The merged batch: an error without a primary key; otherwise the sequential result, if
        that satisfies the unique keys and no two primary keys are written out alike. */
    method ExecTableBatch(ds: seq<DML>) returns (ok: bool)
      requires info.hasPrimary ==> info.Keyed()
      requires 0 < batchSize
      modifies this
      ensures ds == [] ==> ok && rows == old(rows)
      ensures ds != [] ==> (ok <==> info.hasPrimary)
      ensures !ok ==> rows == old(rows)
      ensures ok && info.hasPrimary && Distinct(info, fmt, SplitAll(info, ds)) && Unique(info, ApplyAll(info, old(rows), ds))
              ==> rows == ApplyAll(info, old(rows), ds)
    {
      if ds == [] {
        return true;
      }
      var merged;
      ok, merged := MergeByPrimaryKey(info, fmt, ds);
      if !ok {
        return;
      }
      var deletes, inserts, updates := GroupByKind(merged);
      ghost var order1, order2, order3;
      order1 := SplitExec(true, deletes);
      order2 := SplitExec(false, inserts);
      order3 := SplitExec(false, updates);
      assert Phases(merged, order1, order2, order3);
      if Distinct(info, fmt, SplitAll(info, ds)) && Unique(info, ApplyAll(info, old(rows), ds)) {
        MergeCorrect(info, fmt, old(rows), ds, order1, order2, order3);
      }
    }

    /** One transaction of single statements in safe mode. */
    method SafeExec(ds: seq<DML>)
      requires info.Keyed()
      modifies this
      ensures rows == SafeStatements(info, old(rows), ds)
    {
      for i := 0 to |ds|
        invariant rows == SafeStatements(info, old(rows), ds[..i])
      {
        assert ds[..i + 1][..i] == ds[..i];
        match ds[i].kind
        case Update =>
          rows := rows - {OldPk(info, ds[i])};
          rows := Replace(info, rows, ds[i].values);
        case Insert =>
          rows := Replace(info, rows, ds[i].values);
        case Delete =>
          rows := rows - {Pk(info, ds[i].values)};
      }
      assert ds[..|ds|] == ds;
    }
  }
}
