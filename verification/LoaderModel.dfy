/** Rows, tables and row changes of the downstream loader.

    A row maps column names to values; a missing column reads as NULL.  A table with a primary
    key maps primary key values to rows.  The first unique key is the primary key if there is
    one. */
module LoaderModel {

  datatype Value = Null | Num(n: int) | Text(s: string)

  type Row = map<string, Value>
  type Key = seq<Value>

  datatype TableInfo = TableInfo(columns: seq<string>, uniqueKeys: seq<seq<string>>, hasPrimary: bool) {
    predicate Keyed() {
      hasPrimary && uniqueKeys != [] && uniqueKeys[0] != []
    }
  }

  datatype Kind = Insert | Update | Delete

  /** `oldValues` is the row before an update; it is empty otherwise. */
  datatype DML = DML(kind: Kind, values: Row, oldValues: Row)

  function Get(row: Row, column: string): Value {
    if column in row then row[column] else Null
  }

  function KeyOf(row: Row, columns: seq<string>): (k: Key)
    ensures |k| == |columns|
  {
    seq(|columns|, i requires 0 <= i < |columns| => Get(row, columns[i]))
  }

  predicate NoNull(k: Key) {
    forall i :: 0 <= i < |k| ==> k[i] != Null
  }

  /** Two rows agree on a unique key, none of its columns being NULL. */
  predicate ClashOn(a: Row, b: Row, columns: seq<string>) {
    KeyOf(a, columns) == KeyOf(b, columns) && NoNull(KeyOf(a, columns))
  }

  predicate Clash(info: TableInfo, a: Row, b: Row) {
    exists i :: 0 <= i < |info.uniqueKeys| && ClashOn(a, b, info.uniqueKeys[i])
  }

  lemma ClashSymmetric(info: TableInfo, a: Row, b: Row)
    ensures Clash(info, a, b) <==> Clash(info, b, a)
  {
    assert forall i :: 0 <= i < |info.uniqueKeys| ==>
             (ClashOn(a, b, info.uniqueKeys[i]) <==> ClashOn(b, a, info.uniqueKeys[i]));
  }

  function Pk(info: TableInfo, row: Row): Key
    requires info.Keyed()
  {
    KeyOf(row, info.uniqueKeys[0])
  }

  // ---------------------------------------------------------------- tables with a primary key

  type Table = map<Key, Row>

  /** No two rows clash on a unique key. */
  ghost predicate Unique(info: TableInfo, t: Table) {
    forall k, l :: k in t && l in t && k != l ==> !Clash(info, t[k], t[l])
  }

  /** The primary key of the row a change starts from. */
  function OldPk(info: TableInfo, d: DML): Key
    requires info.Keyed()
  {
    if d.kind.Update? && |d.oldValues| > 0 then Pk(info, d.oldValues) else Pk(info, d.values)
  }

  /** The row change as the upstream made it. */
  function Apply(info: TableInfo, t: Table, d: DML): Table
    requires info.Keyed()
  {
    match d.kind
    case Insert => t[Pk(info, d.values) := d.values]
    case Update => (t - {OldPk(info, d)})[Pk(info, d.values) := d.values]
    case Delete => t - {Pk(info, d.values)}
  }

  function ApplyAll(info: TableInfo, t: Table, ds: seq<DML>): Table
    requires info.Keyed()
  {
    if ds == [] then t else Apply(info, ApplyAll(info, t, ds[..|ds| - 1]), ds[|ds| - 1])
  }

  /** REPLACE removes every row that clashes with the new one on some unique key, and puts the
      new row. */
  function Replace(info: TableInfo, t: Table, row: Row): Table
    requires info.Keyed()
  {
    (map k | k in t && !Clash(info, t[k], row) :: t[k])[Pk(info, row) := row]
  }

  function ReplaceAll(info: TableInfo, t: Table, rows: seq<Row>): Table
    requires info.Keyed()
  {
    if rows == [] then t else Replace(info, ReplaceAll(info, t, rows[..|rows| - 1]), rows[|rows| - 1])
  }
}
