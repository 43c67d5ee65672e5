/** Merging the row changes of one table by primary key, and running the merged changes in three
    phases: deletes, replaces for inserts, replaces for updates. */
module LoaderMerge {
  import opened Collections
  import opened LoaderModel

  /** How a primary key is written out to compare keys: values joined by "--". */
  function Join(parts: seq<string>): string {
    if parts == [] then "" else if |parts| == 1 then parts[0] else parts[0] + "--" + Join(parts[1..])
  }

  function FormatKey(render: Value -> string, k: Key): string {
    Join(seq(|k|, i requires 0 <= i < |k| => render(k[i])))
  }

  // ---------------------------------------------------------------- the merge

  predicate UpdatesKey(info: TableInfo, d: DML)
    requires info.Keyed()
  {
    d.kind.Update? && OldPk(info, d) != Pk(info, d.values)
  }

  /** An update of the primary key becomes a delete and an insert. */
  function Split(info: TableInfo, d: DML): seq<DML>
    requires info.Keyed()
  {
    if UpdatesKey(info, d) then [DML(Delete, d.oldValues, map[]), DML(Insert, d.values, map[])] else [d]
  }

  function SplitAll(info: TableInfo, ds: seq<DML>): seq<DML>
    requires info.Keyed()
  {
    if ds == [] then [] else SplitAll(info, ds[..|ds| - 1]) + Split(info, ds[|ds| - 1])
  }

  /** What two changes of the same key amount to. */
  function Combine(before: DML, d: DML): DML {
    if d.kind.Update? && before.kind.Insert? then DML(Insert, d.values, map[])
    else if d.kind.Update? && before.kind.Update? then DML(Update, d.values, before.oldValues)
    else d
  }

  type Merged = map<string, DML>

  function MergeOne(info: TableInfo, fmt: Key -> string, m: Merged, d: DML): Merged
    requires info.Keyed()
  {
    var key := fmt(Pk(info, d.values));
    m[key := if key in m then Combine(m[key], d) else d]
  }

  function MergeAll(info: TableInfo, fmt: Key -> string, ds: seq<DML>): Merged
    requires info.Keyed()
  {
    if ds == [] then map[] else MergeOne(info, fmt, MergeAll(info, fmt, ds[..|ds| - 1]), ds[|ds| - 1])
  }

  /** No two primary keys of the changes are written out alike. */
  ghost predicate Distinct(info: TableInfo, fmt: Key -> string, ds: seq<DML>)
    requires info.Keyed()
  {
    forall d, e :: d in ds && e in ds && fmt(Pk(info, d.values)) == fmt(Pk(info, e.values)) ==> Pk(info, d.values) == Pk(info, e.values)
  }

  // ---------------------------------------------------------------- net effect

  /** A change that stays on its primary key either leaves a row there or removes it. */
  predicate Local(info: TableInfo, d: DML)
    requires info.Keyed()
  {
    !UpdatesKey(info, d)
  }

  function Net(d: DML): Option<Row> {
    if d.kind.Delete? then None else Some(d.values)
  }

  function Lookup(t: Table, k: Key): Option<Row> {
    if k in t then Some(t[k]) else None
  }

  /** The last change of a key decides what is there. */
  function LastNet(info: TableInfo, ds: seq<DML>, k: Key): Option<Option<Row>>
    requires info.Keyed()
  {
    if ds == [] then None
    else if Pk(info, ds[|ds| - 1].values) == k then Some(Net(ds[|ds| - 1]))
    else LastNet(info, ds[..|ds| - 1], k)
  }

  ghost predicate AllLocal(info: TableInfo, ds: seq<DML>)
    requires info.Keyed()
  {
    forall d :: d in ds ==> Local(info, d)
  }

  lemma {:induction false} ApplyIsLastNet(info: TableInfo, t: Table, ds: seq<DML>, k: Key)
    requires info.Keyed() && AllLocal(info, ds)
    ensures Lookup(ApplyAll(info, t, ds), k)
            == match LastNet(info, ds, k) case Some(net) => net case None => Lookup(t, k)
  {
    if ds != [] {
      ApplyIsLastNet(info, t, ds[..|ds| - 1], k);
      assert Local(info, ds[|ds| - 1]);
    }
  }

  lemma {:induction false} LastNetTouched(info: TableInfo, ds: seq<DML>, k: Key)
    requires info.Keyed()
    ensures LastNet(info, ds, k).Some? <==> exists d :: d in ds && Pk(info, d.values) == k
  {
    if ds != [] {
      var init, last := ds[..|ds| - 1], ds[|ds| - 1];
      LastNetTouched(info, init, k);
      assert ds == init + [last];
    }
  }

  /** The merged change of a key has the net effect of its last change, and stays on that key. */
  lemma {:induction false} MergedNet(info: TableInfo, fmt: Key -> string, ds: seq<DML>, k: Key)
    requires info.Keyed() && Distinct(info, fmt, ds) && LastNet(info, ds, k).Some?
    ensures var m := MergeAll(info, fmt, ds);
      fmt(k) in m && Pk(info, m[fmt(k)].values) == k && Some(Net(m[fmt(k)])) == LastNet(info, ds, k)
  {
    var init, last := ds[..|ds| - 1], ds[|ds| - 1];
    assert forall d :: d in init ==> d in ds;
    if Pk(info, last.values) != k {
      MergedNet(info, fmt, init, k);
      LastNetTouched(info, init, k);
      var d :| d in init && Pk(info, d.values) == k;
      assert last in ds && fmt(Pk(info, last.values)) != fmt(k);
    }
  }

  /** Every merged change belongs to a key that was changed. */
  lemma {:induction false} MergedFrom(info: TableInfo, fmt: Key -> string, ds: seq<DML>, key: string)
    requires info.Keyed() && key in MergeAll(info, fmt, ds)
    ensures var d := MergeAll(info, fmt, ds)[key];
      fmt(Pk(info, d.values)) == key && LastNet(info, ds, Pk(info, d.values)).Some?
  {
    var init, last := ds[..|ds| - 1], ds[|ds| - 1];
    if key != fmt(Pk(info, last.values)) {
      MergedFrom(info, fmt, init, key);
    }
  }

  lemma {:induction false} SplitLocal(info: TableInfo, ds: seq<DML>)
    requires info.Keyed()
    ensures AllLocal(info, SplitAll(info, ds))
  {
    if ds != [] {
      SplitLocal(info, ds[..|ds| - 1]);
    }
  }

  lemma {:induction false} ApplyAppend(info: TableInfo, t: Table, xs: seq<DML>, ys: seq<DML>)
    requires info.Keyed()
    ensures ApplyAll(info, t, xs + ys) == ApplyAll(info, ApplyAll(info, t, xs), ys)
  {
    if ys == [] {
      assert xs + ys == xs;
    } else {
      assert (xs + ys)[..|xs + ys| - 1] == xs + ys[..|ys| - 1];
      ApplyAppend(info, t, xs, ys[..|ys| - 1]);
    }
  }

  /** Splitting updates of the primary key does not change what the changes do. */
  lemma {:induction false} SplitMeaning(info: TableInfo, t: Table, ds: seq<DML>)
    requires info.Keyed()
    ensures ApplyAll(info, t, SplitAll(info, ds)) == ApplyAll(info, t, ds)
  {
    if ds != [] {
      var init, last := ds[..|ds| - 1], ds[|ds| - 1];
      SplitMeaning(info, t, init);
      ApplyAppend(info, t, SplitAll(info, init), Split(info, last));
      SplitOneMeaning(info, ApplyAll(info, t, init), last);
    }
  }

  lemma SplitOneMeaning(info: TableInfo, t: Table, d: DML)
    requires info.Keyed()
    ensures ApplyAll(info, t, Split(info, d)) == Apply(info, t, d)
  {
    var s := Split(info, d);
    if UpdatesKey(info, d) {
      assert s[..1] == [s[0]] && s[..1][..0] == [];
      assert ApplyAll(info, t, s[..1]) == Apply(info, t, s[0]);
    } else {
      assert s[..0] == [];
    }
  }

  // ---------------------------------------------------------------- the three phases

  function DeleteAll(info: TableInfo, t: Table, ds: seq<DML>): Table
    requires info.Keyed()
  {
    if ds == [] then t else DeleteAll(info, t, ds[..|ds| - 1]) - {Pk(info, ds[|ds| - 1].values)}
  }

  function Rows(ds: seq<DML>): seq<Row> {
    seq(|ds|, i requires 0 <= i < |ds| => ds[i].values)
  }

  /** Deletes first, then the replaces of inserts, then those of updates. */
  function RunPhases(info: TableInfo, t: Table, deletes: seq<DML>, inserts: seq<DML>, updates: seq<DML>): Table
    requires info.Keyed()
  {
    ReplaceAll(info, ReplaceAll(info, DeleteAll(info, t, deletes), Rows(inserts)), Rows(updates))
  }

  /** The merged changes of one kind, in any order. */
  ghost predicate IsPhase(m: Merged, kind: Kind, ds: seq<DML>) {
    && (forall d :: d in ds ==> d.kind == kind && exists key :: key in m && m[key] == d)
    && (forall key :: key in m && m[key].kind == kind ==> m[key] in ds)
  }

  ghost predicate Agree(t: Table, f: Table, pending: set<Key>) {
    forall k :: k !in pending ==> Lookup(t, k) == Lookup(f, k)
  }

  /** Replacing a row of the final table cannot remove another row that is already final. */
  lemma ReplaceAgrees(info: TableInfo, t: Table, f: Table, pending: set<Key>, row: Row)
    requires info.Keyed() && Unique(info, f) && Agree(t, f, pending)
    requires Lookup(f, Pk(info, row)) == Some(row)
    ensures Agree(Replace(info, t, row), f, pending - {Pk(info, row)})
  {
    var t' := Replace(info, t, row);
    forall k | k !in pending - {Pk(info, row)} ensures Lookup(t', k) == Lookup(f, k) {
      if k != Pk(info, row) {
        assert Lookup(t, k) == Lookup(f, k);
      }
    }
  }

  function Pks(info: TableInfo, rows: seq<Row>): set<Key>
    requires info.Keyed()
  {
    if rows == [] then {} else Pks(info, rows[..|rows| - 1]) + {Pk(info, rows[|rows| - 1])}
  }

  lemma {:induction false} PksMember(info: TableInfo, rows: seq<Row>, k: Key)
    requires info.Keyed()
    ensures k in Pks(info, rows) <==> exists r :: r in rows && Pk(info, r) == k
  {
    if rows != [] {
      var init, last := rows[..|rows| - 1], rows[|rows| - 1];
      PksMember(info, init, k);
      assert rows == init + [last];
    }
  }

  lemma {:induction false} ReplaceAllAgrees(info: TableInfo, t: Table, f: Table, pending: set<Key>, rows: seq<Row>)
    requires info.Keyed() && Unique(info, f) && Agree(t, f, pending)
    requires forall r :: r in rows ==> Lookup(f, Pk(info, r)) == Some(r)
    ensures Agree(ReplaceAll(info, t, rows), f, pending - Pks(info, rows))
  {
    if rows != [] {
      var init, last := rows[..|rows| - 1], rows[|rows| - 1];
      assert forall r :: r in init ==> r in rows;
      ReplaceAllAgrees(info, t, f, pending, init);
      ReplaceAgrees(info, ReplaceAll(info, t, init), f, pending - Pks(info, init), last);
      assert pending - Pks(info, init) - {Pk(info, last)} == pending - Pks(info, rows);
    }
  }

  lemma {:induction false} DeleteAllLookup(info: TableInfo, t: Table, ds: seq<DML>, k: Key)
    requires info.Keyed()
    ensures Lookup(DeleteAll(info, t, ds), k)
            == if exists d :: d in ds && Pk(info, d.values) == k then None else Lookup(t, k)
  {
    if ds != [] {
      var init, last := ds[..|ds| - 1], ds[|ds| - 1];
      DeleteAllLookup(info, t, init, k);
      assert ds == init + [last];
    }
  }

  /** A merged put leaves the final row of its key. */
  lemma PutIsFinal(info: TableInfo, fmt: Key -> string, t: Table, ds: seq<DML>, key: string)
    requires info.Keyed() && Distinct(info, fmt, ds) && AllLocal(info, ds)
    requires var m := MergeAll(info, fmt, ds); key in m
    ensures var d := MergeAll(info, fmt, ds)[key]; Lookup(ApplyAll(info, t, ds), Pk(info, d.values)) == Net(d)
  {
    MergedFrom(info, fmt, ds, key);
    var k := Pk(info, MergeAll(info, fmt, ds)[key].values);
    MergedNet(info, fmt, ds, k);
    ApplyIsLastNet(info, t, ds, k);
  }

  /** After the deletes the table agrees with the final one except where a put is still due. */
  lemma DeletesAgree(info: TableInfo, fmt: Key -> string, t: Table, ds: seq<DML>, deletes: seq<DML>, pending: set<Key>)
    requires info.Keyed() && Distinct(info, fmt, ds) && AllLocal(info, ds)
    requires var m := MergeAll(info, fmt, ds);
      IsPhase(m, Delete, deletes) && forall key :: key in m && !m[key].kind.Delete? ==> Pk(info, m[key].values) in pending
    ensures Agree(DeleteAll(info, t, deletes), ApplyAll(info, t, ds), pending)
  {
    var m := MergeAll(info, fmt, ds);
    forall k | k !in pending ensures Lookup(DeleteAll(info, t, deletes), k) == Lookup(ApplyAll(info, t, ds), k) {
      DeleteAllLookup(info, t, deletes, k);
      ApplyIsLastNet(info, t, ds, k);
      if LastNet(info, ds, k).Some? {
        MergedNet(info, fmt, ds, k);
        assert m[fmt(k)] in deletes;
      } else if d :| d in deletes && Pk(info, d.values) == k {
        var key :| key in m && m[key] == d;
        MergedFrom(info, fmt, ds, key);
        assert false;
      }
    }
  }

  lemma RowsMember(ds: seq<DML>, r: Row)
    ensures r in Rows(ds) <==> exists d :: d in ds && d.values == r
  {
    if r in Rows(ds) {
      var i :| 0 <= i < |Rows(ds)| && Rows(ds)[i] == r;
      assert ds[i] in ds;
    }
    if d :| d in ds && d.values == r {
      var i :| 0 <= i < |ds| && ds[i] == d;
      assert Rows(ds)[i] == r;
    }
  }

  lemma PhaseRows(info: TableInfo, fmt: Key -> string, t: Table, ds: seq<DML>, kind: Kind, phase: seq<DML>)
    requires info.Keyed() && Distinct(info, fmt, ds) && AllLocal(info, ds)
    requires IsPhase(MergeAll(info, fmt, ds), kind, phase) && !kind.Delete?
    ensures forall r :: r in Rows(phase) ==> Lookup(ApplyAll(info, t, ds), Pk(info, r)) == Some(r)
  {
    var m := MergeAll(info, fmt, ds);
    forall r | r in Rows(phase) ensures Lookup(ApplyAll(info, t, ds), Pk(info, r)) == Some(r) {
      RowsMember(phase, r);
      var d :| d in phase && d.values == r;
      var key :| key in m && m[key] == d;
      PutIsFinal(info, fmt, t, ds, key);
    }
  }

  /** The pending set of the proof: the keys of all puts. */
  lemma PutsCovered(info: TableInfo, m: Merged, inserts: seq<DML>, updates: seq<DML>, key: string)
    requires info.Keyed() && IsPhase(m, Insert, inserts) && IsPhase(m, Update, updates)
    requires key in m && !m[key].kind.Delete?
    ensures Pk(info, m[key].values) in Pks(info, Rows(inserts)) + Pks(info, Rows(updates))
  {
    var d := m[key];
    var phase := if d.kind.Insert? then inserts else updates;
    assert d in phase;
    RowsMember(phase, d.values);
    PksMember(info, Rows(phase), Pk(info, d.values));
  }

  /** Main result.  For any table and any changes whose sequential result satisfies all unique
      keys, merging by primary key and running the three phases, in any order within a phase,
      ends in exactly that result, although a replace may remove rows on the way. */
  lemma MergeCorrect(info: TableInfo, fmt: Key -> string, t: Table, ds: seq<DML>,
                     deletes: seq<DML>, inserts: seq<DML>, updates: seq<DML>)
    requires info.Keyed() && Distinct(info, fmt, SplitAll(info, ds)) && Unique(info, ApplyAll(info, t, ds))
    requires var m := MergeAll(info, fmt, SplitAll(info, ds));
      IsPhase(m, Delete, deletes) && IsPhase(m, Insert, inserts) && IsPhase(m, Update, updates)
    ensures RunPhases(info, t, deletes, inserts, updates) == ApplyAll(info, t, ds)
  {
    var ss := SplitAll(info, ds);
    SplitMeaning(info, t, ds);
    SplitLocal(info, ds);
    var m, f := MergeAll(info, fmt, ss), ApplyAll(info, t, ss);
    var pending := Pks(info, Rows(inserts)) + Pks(info, Rows(updates));
    forall key | key in m && !m[key].kind.Delete? ensures Pk(info, m[key].values) in pending {
      PutsCovered(info, m, inserts, updates, key);
    }
    DeletesAgree(info, fmt, t, ss, deletes, pending);
    PhaseRows(info, fmt, t, ss, Insert, inserts);
    PhaseRows(info, fmt, t, ss, Update, updates);
    var t1 := DeleteAll(info, t, deletes);
    ReplaceAllAgrees(info, t1, f, pending, Rows(inserts));
    var t2 := ReplaceAll(info, t1, Rows(inserts));
    ReplaceAllAgrees(info, t2, f, pending - Pks(info, Rows(inserts)), Rows(updates));
    AgreeEverywhere(ReplaceAll(info, t2, Rows(updates)), f, pending - Pks(info, Rows(inserts)) - Pks(info, Rows(updates)));
  }

  lemma AgreeEverywhere(t: Table, f: Table, pending: set<Key>)
    requires Agree(t, f, pending) && pending == {}
    ensures t == f
  {
    forall k ensures k in t <==> k in f {
      assert Lookup(t, k) == Lookup(f, k);
    }
    forall k | k in t ensures t[k] == f[k] {
      assert Lookup(t, k) == Lookup(f, k);
    }
  }

  // ---------------------------------------------------------------- when keys are written out alike

  /** Every row is stored under its own primary key. */
  ghost predicate WellFormed(info: TableInfo, t: Table)
    requires info.Keyed()
  {
    forall k :: k in t ==> Pk(info, t[k]) == k
  }

  /** Every further unique key has a column outside the primary key. */
  ghost predicate KeysIndependent(info: TableInfo)
    requires info.Keyed()
  {
    forall i :: 0 < i < |info.uniqueKeys| ==>
      exists j :: 0 <= j < |info.uniqueKeys[i]| && info.uniqueKeys[i][j] !in info.uniqueKeys[0]
  }

  /** The phases give the sequential result on every table on which that is a valid table. */
  ghost predicate AlwaysCorrect(info: TableInfo, fmt: Key -> string, ds: seq<DML>)
    requires info.Keyed()
  {
    forall t, deletes, inserts, updates ::
      && WellFormed(info, t) && Unique(info, ApplyAll(info, t, ds))
      && Phases(MergeAll(info, fmt, SplitAll(info, ds)), deletes, inserts, updates)
      ==> RunPhases(info, t, deletes, inserts, updates) == ApplyAll(info, t, ds)
  }

  ghost predicate Phases(m: Merged, deletes: seq<DML>, inserts: seq<DML>, updates: seq<DML>) {
    IsPhase(m, Delete, deletes) && IsPhase(m, Insert, inserts) && IsPhase(m, Update, updates)
  }

  lemma DistinctCorrect(info: TableInfo, fmt: Key -> string, ds: seq<DML>)
    requires info.Keyed() && Distinct(info, fmt, SplitAll(info, ds))
    ensures AlwaysCorrect(info, fmt, ds)
  {
    var m := MergeAll(info, fmt, SplitAll(info, ds));
    forall t, deletes, inserts, updates |
      && WellFormed(info, t) && Unique(info, ApplyAll(info, t, ds)) && Phases(m, deletes, inserts, updates)
      ensures RunPhases(info, t, deletes, inserts, updates) == ApplyAll(info, t, ds)
    {
      MergeCorrect(info, fmt, t, ds, deletes, inserts, updates);
    }
  }

  /** Exactly when the merge is right: given that the changes leave no clashing rows themselves,
      it is right on all tables if and only if no two changed primary keys are written out
      alike. */
  lemma MergeExact(info: TableInfo, fmt: Key -> string, ds: seq<DML>)
    requires info.Keyed() && KeysIndependent(info) && Unique(info, ApplyAll(info, map[], ds))
    ensures Distinct(info, fmt, SplitAll(info, ds)) <==> AlwaysCorrect(info, fmt, ds)
  {
    var ss := SplitAll(info, ds);
    if Distinct(info, fmt, ss) {
      DistinctCorrect(info, fmt, ds);
    } else {
      var d, e :| d in ss && e in ss && fmt(Pk(info, d.values)) == fmt(Pk(info, e.values)) && Pk(info, d.values) != Pk(info, e.values);
      LastNetTouched(info, ss, Pk(info, d.values));
      LastNetTouched(info, ss, Pk(info, e.values));
      var lost := LostKey(info, fmt, ss, d, e);
      SplitLocal(info, ds);
      LossShows(info, fmt, ds, lost);
    }
  }

  /** Of two keys written out alike the merge keeps at most one. */
  lemma LostKey(info: TableInfo, fmt: Key -> string, ss: seq<DML>, d: DML, e: DML) returns (lost: Row)
    requires info.Keyed() && d in ss && e in ss
    requires fmt(Pk(info, d.values)) == fmt(Pk(info, e.values)) && Pk(info, d.values) != Pk(info, e.values)
    ensures LastNet(info, ss, Pk(info, lost)).Some?
    ensures forall key :: key in MergeAll(info, fmt, ss) ==> Pk(info, MergeAll(info, fmt, ss)[key].values) != Pk(info, lost)
  {
    var m := MergeAll(info, fmt, ss);
    LastNetTouched(info, ss, Pk(info, d.values));
    LastNetTouched(info, ss, Pk(info, e.values));
    var key0 := fmt(Pk(info, d.values));
    lost := if key0 in m && Pk(info, m[key0].values) == Pk(info, d.values) then e.values else d.values;
    forall key | key in m ensures Pk(info, m[key].values) != Pk(info, lost) {
      MergedFrom(info, fmt, ss, key);
    }
  }

  /** A row with nothing but the primary key. */
  function KeyRow(info: TableInfo, row: Row): Row
    requires info.Keyed()
  {
    map c | c in row && c in info.uniqueKeys[0] :: row[c]
  }

  lemma KeyRowProps(info: TableInfo, row: Row, other: Row)
    requires info.Keyed() && KeysIndependent(info)
    ensures Pk(info, KeyRow(info, row)) == Pk(info, row)
    ensures Pk(info, other) != Pk(info, row) ==> !Clash(info, KeyRow(info, row), other)
  {
    var r, pk := KeyRow(info, row), info.uniqueKeys[0];
    forall i | 0 <= i < |pk| ensures Get(r, pk[i]) == Get(row, pk[i]) {
      assert pk[i] in pk;
    }
    if Pk(info, other) != Pk(info, row) {
      forall i | 0 <= i < |info.uniqueKeys| ensures !ClashOn(r, other, info.uniqueKeys[i]) {
        if i > 0 {
          var j :| 0 <= j < |info.uniqueKeys[i]| && info.uniqueKeys[i][j] !in info.uniqueKeys[0];
          assert KeyOf(r, info.uniqueKeys[i])[j] == Null;
        }
      }
    }
  }

  lemma {:induction false} ReplaceAllMisses(info: TableInfo, t: Table, rows: seq<Row>, k: Key)
    requires info.Keyed()
    requires forall r :: r in rows ==> Pk(info, r) != k && (k in t ==> !Clash(info, t[k], r))
    ensures Lookup(ReplaceAll(info, t, rows), k) == Lookup(t, k)
  {
    if rows != [] {
      var init, last := rows[..|rows| - 1], rows[|rows| - 1];
      assert forall r :: r in init ==> r in rows;
      ReplaceAllMisses(info, t, init, k);
      assert last in rows;
    }
  }

  lemma LostRows(info: TableInfo, m: Merged, kind: Kind, phase: seq<DML>, k: Key)
    requires info.Keyed() && IsPhase(m, kind, phase)
    requires forall key :: key in m ==> Pk(info, m[key].values) != k
    ensures forall r :: r in Rows(phase) ==> Pk(info, r) != k
    ensures !exists d :: d in phase && Pk(info, d.values) == k
  {
    forall r | r in Rows(phase) ensures Pk(info, r) != k {
      RowsMember(phase, r);
    }
  }

  /** The phases leave a key alone that no merged change belongs to. */
  lemma RunMisses(info: TableInfo, t: Table, m: Merged, deletes: seq<DML>, inserts: seq<DML>, updates: seq<DML>, k: Key)
    requires info.Keyed() && Phases(m, deletes, inserts, updates)
    requires forall key :: key in m ==> Pk(info, m[key].values) != k
    requires k in t ==> forall other: Row :: Pk(info, other) != k ==> !Clash(info, t[k], other)
    ensures Lookup(RunPhases(info, t, deletes, inserts, updates), k) == Lookup(t, k)
  {
    LostRows(info, m, Delete, deletes, k);
    LostRows(info, m, Insert, inserts, k);
    LostRows(info, m, Update, updates, k);
    DeleteAllLookup(info, t, deletes, k);
    var t1 := DeleteAll(info, t, deletes);
    ReplaceAllMisses(info, t1, Rows(inserts), k);
    ReplaceAllMisses(info, ReplaceAll(info, t1, Rows(inserts)), Rows(updates), k);
  }

  /** A row under a changed key does not matter for the sequential result. */
  lemma SameResult(info: TableInfo, t: Table, ss: seq<DML>, k: Key, r: Row)
    requires info.Keyed() && AllLocal(info, ss) && LastNet(info, ss, k).Some? && (t == map[] || t == map[k := r])
    ensures ApplyAll(info, t, ss) == ApplyAll(info, map[], ss)
  {
    var a, b := ApplyAll(info, t, ss), ApplyAll(info, map[], ss);
    forall l ensures Lookup(a, l) == Lookup(b, l) {
      ApplyIsLastNet(info, t, ss, l);
      ApplyIsLastNet(info, map[], ss, l);
    }
    AgreeEverywhere(a, b, {});
  }

  lemma {:induction false} PhaseExists(m: Merged, kind: Kind) returns (ds: seq<DML>)
    ensures IsPhase(m, kind, ds)
    decreases m.Keys
  {
    if m.Keys == {} {
      ds := [];
    } else {
      InhabitedStrings(m.Keys);
      var key :| key in m.Keys;
      var rest := m - {key};
      ds := PhaseExists(rest, kind);
      assert forall l :: l in m <==> l in rest || l == key;
      if m[key].kind == kind {
        ds := ds + [m[key]];
      }
    }
  }

  /** Phases that leave alone a key the sequential run changes show that merging is not correct. */
  lemma WrongPhases(info: TableInfo, fmt: Key -> string, ds: seq<DML>, t: Table, k: Key)
    requires info.Keyed() && WellFormed(info, t) && Unique(info, ApplyAll(info, t, ds))
    requires Lookup(ApplyAll(info, t, ds), k) != Lookup(t, k)
    requires forall key :: key in MergeAll(info, fmt, SplitAll(info, ds)) ==>
               Pk(info, MergeAll(info, fmt, SplitAll(info, ds))[key].values) != k
    requires k in t ==> forall other: Row :: Pk(info, other) != k ==> !Clash(info, t[k], other)
    ensures !AlwaysCorrect(info, fmt, ds)
  {
    var m := MergeAll(info, fmt, SplitAll(info, ds));
    var deletes := PhaseExists(m, Delete);
    var inserts := PhaseExists(m, Insert);
    var updates := PhaseExists(m, Update);
    RunMisses(info, t, m, deletes, inserts, updates, k);
    assert Phases(m, deletes, inserts, updates);
  }

  /** A table on which the sequential run changes a key that has a last change. */
  lemma TellingTable(info: TableInfo, ds: seq<DML>, lost: Row) returns (t: Table)
    requires info.Keyed() && KeysIndependent(info)
    requires AllLocal(info, SplitAll(info, ds)) && LastNet(info, SplitAll(info, ds), Pk(info, lost)).Some?
    ensures WellFormed(info, t) && ApplyAll(info, t, ds) == ApplyAll(info, map[], ds)
    ensures Lookup(ApplyAll(info, t, ds), Pk(info, lost)) != Lookup(t, Pk(info, lost))
    ensures Pk(info, lost) in t ==> t[Pk(info, lost)] == KeyRow(info, lost)
  {
    var ss, k, r := SplitAll(info, ds), Pk(info, lost), KeyRow(info, lost);
    KeyRowProps(info, lost, lost);
    t := if LastNet(info, ss, k).value.Some? then map[] else map[k := r];
    SameResult(info, t, ss, k, r);
    SplitMeaning(info, t, ds);
    SplitMeaning(info, map[], ds);
    ApplyIsLastNet(info, t, ss, k);
  }

  lemma LossShows(info: TableInfo, fmt: Key -> string, ds: seq<DML>, lost: Row)
    requires info.Keyed() && KeysIndependent(info) && Unique(info, ApplyAll(info, map[], ds))
    requires var ss := SplitAll(info, ds);
      && AllLocal(info, ss) && LastNet(info, ss, Pk(info, lost)).Some?
      && forall key :: key in MergeAll(info, fmt, ss) ==> Pk(info, MergeAll(info, fmt, ss)[key].values) != Pk(info, lost)
    ensures !AlwaysCorrect(info, fmt, ds)
  {
    var t := TellingTable(info, ds, lost);
    forall other: Row | Pk(info, other) != Pk(info, lost) ensures !Clash(info, KeyRow(info, lost), other) {
      KeyRowProps(info, lost, other);
    }
    WrongPhases(info, fmt, ds, t, Pk(info, lost));
  }

  /** With one primary key column, whose values are written out differently, merging is always right. */
  lemma SingleColumnCorrect(info: TableInfo, render: Value -> string, ds: seq<DML>)
    requires info.Keyed() && |info.uniqueKeys[0]| == 1
    requires forall v, w :: render(v) == render(w) ==> v == w
    ensures AlwaysCorrect(info, k => FormatKey(render, k), ds)
  {
    var ss := SplitAll(info, ds);
    forall d, e | d in ss && e in ss && FormatKey(render, Pk(info, d.values)) == FormatKey(render, Pk(info, e.values))
      ensures Pk(info, d.values) == Pk(info, e.values)
    {
      var k, l := Pk(info, d.values), Pk(info, e.values);
      assert render(k[0]) == render(l[0]);
      assert k == [k[0]] && l == [l[0]];
    }
    DistinctCorrect(info, k => FormatKey(render, k), ds);
  }

  /** Two columns: the separator may occur in a value, and then different keys are alike. */
  lemma FormatCollides(render: Value -> string)
    requires forall s :: render(Text(s)) == s
    ensures var k, l := [Text("a--b"), Text("c")], [Text("a"), Text("b--c")];
      k != l && FormatKey(render, k) == FormatKey(render, l)
  {
    var k, l := [Text("a--b"), Text("c")], [Text("a"), Text("b--c")];
    assert k[0] != l[0];
    var p, q := seq(2, i requires 0 <= i < 2 => render(k[i])), seq(2, i requires 0 <= i < 2 => render(l[i]));
    assert p == ["a--b", "c"] && q == ["a", "b--c"];
    assert p[1..] == ["c"] && q[1..] == ["b--c"];
    assert Join(p) == "a--b--c" && Join(q) == "a--b--c";
  }

  lemma TwoApplied(info: TableInfo, d: DML, e: DML)
    requires info.Keyed() && d.kind.Insert? && e.kind.Insert?
    ensures ApplyAll(info, map[], [d, e]) == map[Pk(info, d.values) := d.values][Pk(info, e.values) := e.values]
  {
    assert [d, e][..1] == [d] && [d][..0] == [];
    assert ApplyAll(info, map[], [d]) == map[Pk(info, d.values) := d.values];
  }

  lemma TwoMerged(info: TableInfo, fmt: Key -> string, d: DML, e: DML)
    requires info.Keyed() && d.kind.Insert? && e.kind.Insert? && fmt(Pk(info, d.values)) == fmt(Pk(info, e.values))
    ensures MergeAll(info, fmt, SplitAll(info, [d, e])) == map[fmt(Pk(info, e.values)) := e]
  {
    assert [d, e][..1] == [d] && [d][..0] == [];
    assert SplitAll(info, [d]) == [d] && SplitAll(info, [d, e]) == [d, e];
    assert MergeAll(info, fmt, [d]) == map[fmt(Pk(info, d.values)) := d];
  }

  /** Of two inserts whose keys are written out alike, the first is lost: on the empty table its row
      is there after the changes in order and missing after the phases, in whatever order. */
  lemma SecondInsertWins(info: TableInfo, fmt: Key -> string, d: DML, e: DML, deletes: seq<DML>, inserts: seq<DML>, updates: seq<DML>)
    requires info.Keyed() && d.kind.Insert? && e.kind.Insert?
    requires Pk(info, d.values) != Pk(info, e.values) && fmt(Pk(info, d.values)) == fmt(Pk(info, e.values))
    requires Phases(MergeAll(info, fmt, SplitAll(info, [d, e])), deletes, inserts, updates)
    ensures ApplyAll(info, map[], [d, e]) == map[Pk(info, d.values) := d.values, Pk(info, e.values) := e.values]
    ensures Pk(info, d.values) !in RunPhases(info, map[], deletes, inserts, updates)
  {
    TwoApplied(info, d, e);
    TwoMerged(info, fmt, d, e);
    RunMisses(info, map[], MergeAll(info, fmt, SplitAll(info, [d, e])), deletes, inserts, updates, Pk(info, d.values));
  }

  /** A table with a primary key of two columns, and two rows for it. */
  const PAIR := TableInfo(["x", "y"], [["x", "y"]], true)
  const FIRST: Row := map["x" := Text("a--b"), "y" := Text("c")]
  const SECOND: Row := map["x" := Text("a"), "y" := Text("b--c")]

  lemma PairKeys()
    ensures Pk(PAIR, FIRST) == [Text("a--b"), Text("c")] && Pk(PAIR, SECOND) == [Text("a"), Text("b--c")]
    ensures Pk(PAIR, FIRST) != Pk(PAIR, SECOND) && Unique(PAIR, map[Pk(PAIR, FIRST) := FIRST, Pk(PAIR, SECOND) := SECOND])
  {
    assert Pk(PAIR, FIRST)[0] != Pk(PAIR, SECOND)[0];
  }

  /** A valid input on which a row is lost. */
  lemma CollisionLosesRow(render: Value -> string, deletes: seq<DML>, inserts: seq<DML>, updates: seq<DML>)
    requires forall s :: render(Text(s)) == s
    requires var ds := [DML(Insert, FIRST, map[]), DML(Insert, SECOND, map[])];
      Phases(MergeAll(PAIR, k => FormatKey(render, k), SplitAll(PAIR, ds)), deletes, inserts, updates)
    ensures var ds := [DML(Insert, FIRST, map[]), DML(Insert, SECOND, map[])];
      && Unique(PAIR, ApplyAll(PAIR, map[], ds)) && Pk(PAIR, FIRST) in ApplyAll(PAIR, map[], ds)
      && Pk(PAIR, FIRST) !in RunPhases(PAIR, map[], deletes, inserts, updates)
  {
    PairKeys();
    FormatCollides(render);
    SecondInsertWins(PAIR, k => FormatKey(render, k), DML(Insert, FIRST, map[]), DML(Insert, SECOND, map[]), deletes, inserts, updates);
  }

  // ---------------------------------------------------------------- the code

  method UpdateKey(info: TableInfo, d: DML) returns (changed: bool)
    requires info.Keyed() && d.kind.Update?
    ensures changed <==> UpdatesKey(info, d)
  {
    if |d.oldValues| == 0 {
      return false;
    }
    var columns := info.uniqueKeys[0];
    for i := 0 to |columns|
      invariant forall j :: 0 <= j < i ==> Get(d.values, columns[j]) == Get(d.oldValues, columns[j])
    {
      if Get(d.values, columns[i]) != Get(d.oldValues, columns[i]) {
        assert Pk(info, d.values)[i] != Pk(info, d.oldValues)[i];
        return true;
      }
    }
    assert Pk(info, d.values) == Pk(info, d.oldValues);
    return false;
  }

  method MergeByPrimaryKey(info: TableInfo, fmt: Key -> string, ds: seq<DML>) returns (ok: bool, res: Merged)
    requires info.hasPrimary ==> info.Keyed()
    ensures ok <==> info.hasPrimary || ds == []
    ensures ds == [] ==> res == map[]
    ensures info.hasPrimary ==> res == MergeAll(info, fmt, SplitAll(info, ds))
  {
    res := map[];
    if |ds| == 0 {
      return true, res;
    }
    if !info.hasPrimary {
      return false, res;
    }
    var split: seq<DML> := [];
    for i := 0 to |ds|
      invariant split == SplitAll(info, ds[..i])
    {
      assert ds[..i + 1][..i] == ds[..i];
      var d := ds[i];
      var changed := false;
      if d.kind.Update? {
        changed := UpdateKey(info, d);
      }
      if changed {
        split := split + [DML(Delete, d.oldValues, map[])] + [DML(Insert, d.values, map[])];
      } else {
        split := split + [d];
      }
    }
    assert ds[..|ds|] == ds;
    for i := 0 to |split|
      invariant res == MergeAll(info, fmt, split[..i])
    {
      assert split[..i + 1][..i] == split[..i];
      var d := split[i];
      var key := fmt(Pk(info, d.values));
      if key in res {
        var before := res[key];
        match d.kind
        case Insert => res := res[key := d];
        case Delete => res := res[key := d];
        case Update =>
          if before.kind.Insert? {
            d := DML(Insert, d.values, map[]);
          } else if before.kind.Update? {
            d := DML(Update, d.values, before.oldValues);
          }
          res := res[key := d];
      } else {
        res := res[key := d];
      }
    }
    assert split[..|split|] == split;
    ok := true;
  }

  lemma PhaseAdd(m: Merged, key: string, d: DML, kind: Kind, ds: seq<DML>)
    requires key !in m && IsPhase(m, kind, ds)
    ensures IsPhase(m[key := d], kind, if d.kind == kind then ds + [d] else ds)
  {
    var m' := m[key := d];
    forall e | e in ds ensures exists l :: l in m' && m'[l] == e {
      var l :| l in m && m[l] == e;
      assert m'[l] == e;
    }
    assert m'[key] == d;
  }

  /** The merged changes by kind; the iteration order over the map is arbitrary. */
  method GroupByKind(m: Merged) returns (deletes: seq<DML>, inserts: seq<DML>, updates: seq<DML>)
    ensures Phases(m, deletes, inserts, updates)
  {
    deletes, inserts, updates := [], [], [];
    var todo := m.Keys;
    ghost var done: Merged := map[];
    while todo != {}
      invariant todo <= m.Keys && done == m - todo
      invariant Phases(done, deletes, inserts, updates)
      decreases todo
    {
      InhabitedStrings(todo);
      var key :| key in todo;
      var d := m[key];
      PhaseAdd(done, key, d, Delete, deletes);
      PhaseAdd(done, key, d, Insert, inserts);
      PhaseAdd(done, key, d, Update, updates);
      todo := todo - {key};
      done := done[key := d];
      match d.kind
      case Delete => deletes := deletes + [d];
      case Insert => inserts := inserts + [d];
      case Update => updates := updates + [d];
    }
    assert done == m;
  }
}
