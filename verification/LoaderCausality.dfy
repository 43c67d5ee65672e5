/** The keys a row change is scheduled by, and the grouping of keys into causal classes. */
module LoaderCausality {
  import opened Collections
  import opened LoaderModel

  /** A row change of a table; `table` is the quoted, hence nonempty, full table name. */
  datatype Change = Change(table: string, dml: DML)

  /** How values and hash codes are written out. */
  datatype Printer = Printer(show: Value -> string, hash: string -> nat, number: nat -> string)

  ghost predicate Prints(p: Printer) {
    forall n :: p.number(n) != ""
  }

  // ---------------------------------------------------------------- keys of a change

  /** The text of the columns that are not NULL. */
  function GetKey(p: Printer, names: seq<string>, row: Row): string {
    if names == [] then ""
    else
      var init := GetKey(p, names[..|names| - 1], row);
      var name := names[|names| - 1];
      var v := Get(row, name);
      if v == Null then init else init + "(" + name + ": " + p.show(v) + ")"
  }

  function UniqueTexts(p: Printer, table: string, indexes: seq<seq<string>>, row: Row): seq<string> {
    if indexes == [] then []
    else
      var init := UniqueTexts(p, table, indexes[..|indexes| - 1], row);
      var key := GetKey(p, indexes[|indexes| - 1], row);
      if key == "" then init else init + [key + table]
  }

  function Fallback(p: Printer, info: TableInfo, table: string, row: Row): string {
    p.number(p.hash(GetKey(p, info.columns, row) + table))
  }

  /** The keys of one row: one per unique key that is not all NULL, else a hash of the row. */
  function ImageKeys(p: Printer, info: TableInfo, table: string, row: Row): set<string> {
    var texts := UniqueTexts(p, table, info.uniqueKeys, row);
    if texts == [] then {Fallback(p, info, table, row)} else set k | k in texts
  }

  /** The rows a change names: the new one, and for an update the old one. */
  function Images(d: DML): set<Row> {
    {d.values} + if d.kind.Update? then {d.oldValues} else {}
  }

  method KeyText(p: Printer, names: seq<string>, row: Row) returns (key: string)
    ensures key == GetKey(p, names, row)
  {
    key := "";
    for i := 0 to |names|
      invariant key == GetKey(p, names[..i], row)
    {
      assert names[..i + 1][..i] == names[..i];
      var v := Get(row, names[i]);
      if v == Null {
        continue;
      }
      key := key + "(" + names[i] + ": " + p.show(v) + ")";
    }
    assert names[..|names|] == names;
  }

  method IndexKeys(p: Printer, info: TableInfo, table: string, row: Row) returns (keys: seq<string>)
    ensures keys == UniqueTexts(p, table, info.uniqueKeys, row)
  {
    keys := [];
    for i := 0 to |info.uniqueKeys|
      invariant keys == UniqueTexts(p, table, info.uniqueKeys[..i], row)
    {
      assert info.uniqueKeys[..i + 1][..i] == info.uniqueKeys[..i];
      var key := KeyText(p, info.uniqueKeys[i], row);
      if |key| > 0 {
        keys := keys + [key + table];
      }
    }
    assert info.uniqueKeys[..|info.uniqueKeys|] == info.uniqueKeys;
  }

  /** The keys of a change are those of its rows; there is always one, and none is empty. */
  method GetKeys(p: Printer, info: TableInfo, c: Change) returns (keys: seq<string>)
    requires Prints(p)
    ensures (set k | k in keys) == ChangeKeys(p, info, c)
    ensures keys != [] && "" !in keys
  {
    var newKeys := IndexKeys(p, info, c.table, c.dml.values);
    keys := newKeys;
    var oldKeys := [];
    if c.dml.kind == Update {
      oldKeys := IndexKeys(p, info, c.table, c.dml.oldValues);
      keys := keys + oldKeys;
    }
    if newKeys == [] {
      var key := KeyText(p, info.columns, c.dml.values);
      keys := keys + [p.number(p.hash(key + c.table))];
    }
    if c.dml.kind == Update && oldKeys == [] {
      var key := KeyText(p, info.columns, c.dml.oldValues);
      keys := keys + [p.number(p.hash(key + c.table))];
    }
    TextsNonempty(p, c.table, info.uniqueKeys, c.dml.values);
    TextsNonempty(p, c.table, info.uniqueKeys, c.dml.oldValues);
  }

  function ChangeKeys(p: Printer, info: TableInfo, c: Change): set<string> {
    ImageKeys(p, info, c.table, c.dml.values)
    + if c.dml.kind.Update? then ImageKeys(p, info, c.table, c.dml.oldValues) else {}
  }

  lemma {:induction false} TextsNonempty(p: Printer, table: string, indexes: seq<seq<string>>, row: Row)
    ensures "" !in UniqueTexts(p, table, indexes, row)
  {
    if indexes != [] {
      TextsNonempty(p, table, indexes[..|indexes| - 1], row);
    }
  }

  lemma {:induction false} KeyOfTextAgrees(p: Printer, names: seq<string>, a: Row, b: Row)
    requires KeyOf(a, names) == KeyOf(b, names)
    ensures GetKey(p, names, a) == GetKey(p, names, b)
    ensures NoNull(KeyOf(a, names)) && names != [] ==> GetKey(p, names, a) != ""
  {
    if names != [] {
      var init := names[..|names| - 1];
      assert KeyOf(a, names)[|names| - 1] == KeyOf(b, names)[|names| - 1];
      assert KeyOf(a, init) == KeyOf(a, names)[..|init|] && KeyOf(b, init) == KeyOf(b, names)[..|init|];
      KeyOfTextAgrees(p, init, a, b);
    }
  }

  lemma {:induction false} TextIsKey(p: Printer, table: string, indexes: seq<seq<string>>, row: Row, i: nat)
    requires i < |indexes| && GetKey(p, indexes[i], row) != ""
    ensures GetKey(p, indexes[i], row) + table in UniqueTexts(p, table, indexes, row)
  {
    if i < |indexes| - 1 {
      TextIsKey(p, table, indexes[..|indexes| - 1], row, i);
    }
  }

  /** Two rows of a table that are equal, or agree on a unique key without NULL, share a key. */
  lemma RelatedShareKey(p: Printer, info: TableInfo, table: string, a: Row, b: Row)
    requires [] !in info.uniqueKeys
    requires a == b || Clash(info, a, b)
    ensures ImageKeys(p, info, table, a) * ImageKeys(p, info, table, b) != {}
  {
    if a == b {
      var texts := UniqueTexts(p, table, info.uniqueKeys, a);
      var key := if texts == [] then Fallback(p, info, table, a) else texts[0];
      assert key in ImageKeys(p, info, table, a) * ImageKeys(p, info, table, b);
    } else {
      var i :| 0 <= i < |info.uniqueKeys| && ClashOn(a, b, info.uniqueKeys[i]);
      KeyOfTextAgrees(p, info.uniqueKeys[i], a, b);
      TextIsKey(p, table, info.uniqueKeys, a, i);
      TextIsKey(p, table, info.uniqueKeys, b, i);
      assert GetKey(p, info.uniqueKeys[i], a) + table in ImageKeys(p, info, table, a) * ImageKeys(p, info, table, b);
    }
  }

  /** A key text is empty exactly if all its columns are NULL. */
  lemma {:induction false} EmptyText(p: Printer, names: seq<string>, row: Row)
    ensures GetKey(p, names, row) == "" <==> forall i :: 0 <= i < |names| ==> Get(row, names[i]) == Null
  {
    if names != [] {
      var init := names[..|names| - 1];
      EmptyText(p, init, row);
      assert forall i :: 0 <= i < |init| ==> init[i] == names[i];
    }
  }

  lemma {:induction false} TextsExact(p: Printer, table: string, indexes: seq<seq<string>>, row: Row, k: string)
    ensures k in UniqueTexts(p, table, indexes, row) <==>
            exists i :: 0 <= i < |indexes| && GetKey(p, indexes[i], row) != "" && k == GetKey(p, indexes[i], row) + table
  {
    if indexes != [] {
      var init, last := indexes[..|indexes| - 1], indexes[|indexes| - 1];
      TextsExact(p, table, init, row, k);
      assert forall i :: 0 <= i < |init| ==> init[i] == indexes[i];
      assert indexes[|init|] == last;
    }
  }

  /** The keys of a row are exactly the texts of its unique keys that are not all NULL, with the table name;
      and if all are, the hash of the row. */
  lemma ImageKeysExact(p: Printer, info: TableInfo, table: string, row: Row, k: string)
    ensures k in ImageKeys(p, info, table, row) <==>
      || (exists i :: 0 <= i < |info.uniqueKeys| && GetKey(p, info.uniqueKeys[i], row) != ""
                      && k == GetKey(p, info.uniqueKeys[i], row) + table)
      || ((forall i :: 0 <= i < |info.uniqueKeys| ==> GetKey(p, info.uniqueKeys[i], row) == "")
          && k == Fallback(p, info, table, row))
  {
    var texts := UniqueTexts(p, table, info.uniqueKeys, row);
    TextsExact(p, table, info.uniqueKeys, row, k);
    if texts != [] {
      TextsExact(p, table, info.uniqueKeys, row, texts[0]);
    } else {
      forall i | 0 <= i < |info.uniqueKeys| ensures GetKey(p, info.uniqueKeys[i], row) == "" {
        TextsExact(p, table, info.uniqueKeys, row, GetKey(p, info.uniqueKeys[i], row) + table);
      }
    }
  }

  lemma CancelEnds(x: string, y: string, before: string, after: string)
    requires before + x + after == before + y + after
    ensures x == y
  {
    assert |x| == |y|;
    assert x == (before + x + after)[|before|..|before| + |x|] && y == (before + y + after)[|before|..|before| + |y|];
  }

  lemma OneColumnText(p: Printer, name: string, row: Row)
    ensures GetKey(p, [name], row) == if Get(row, name) == Null then "" else "(" + name + ": " + p.show(Get(row, name)) + ")"
  {
    assert [name][..0] == [];
    assert "" + "(" == "(";
  }

  /** Keys do not relate more rows than they should: for one-column keys whose values are written out
      differently, two rows have the same text only if they have the same value. */
  lemma TextSeparates(p: Printer, name: string, a: Row, b: Row)
    requires forall v, w :: p.show(v) == p.show(w) ==> v == w
    requires GetKey(p, [name], a) == GetKey(p, [name], b) != ""
    ensures Get(a, name) == Get(b, name) != Null
  {
    OneColumnText(p, name, a);
    OneColumnText(p, name, b);
    CancelEnds(p.show(Get(a, name)), p.show(Get(b, name)), "(" + name + ": ", ")");
  }

  // ---------------------------------------------------------------- causal classes

  type Relations = map<string, string>

  /** Tokens are keys of their own class, and not empty. */
  ghost predicate Fixed(m: Relations) {
    forall k :: k in m ==> m[k] != "" && m[k] in m && m[m[k]] == m[k]
  }

  /** Two of the keys belong to different classes. */
  ghost predicate Conflict(m: Relations, keys: seq<string>) {
    exists i, j :: 0 <= i < |keys| && 0 <= j < |keys| && keys[i] in m && keys[j] in m && m[keys[i]] != m[keys[j]]
  }

  /** The class the keys are in, or will be. */
  function Token(m: Relations, keys: seq<string>): string
    requires keys != []
  {
    if keys[|keys| - 1] in m then m[keys[|keys| - 1]]
    else if |keys| == 1 then keys[0]
    else Token(m, keys[..|keys| - 1])
  }

  function Added(m: Relations, keys: seq<string>): Relations {
    if keys == [] then m
    else m + map k | k in keys && k !in m :: Token(m, keys)
  }

  lemma {:induction false} TokenChosen(m: Relations, keys: seq<string>)
    requires keys != []
    ensures (exists i :: 0 <= i < |keys| && keys[i] in m && Token(m, keys) == m[keys[i]])
         || (Token(m, keys) == keys[0] && forall i :: 0 <= i < |keys| ==> keys[i] !in m)
  {
    if keys[|keys| - 1] !in m && |keys| > 1 {
      var init := keys[..|keys| - 1];
      TokenChosen(m, init);
      if i :| 0 <= i < |init| && init[i] in m && Token(m, init) == m[init[i]] {
        assert keys[i] == init[i];
      }
    }
  }

  /** Adding keys without conflict puts them all in one class, changes no class, and keeps the
      tokens fixed points. */
  lemma AddedOneClass(m: Relations, keys: seq<string>)
    requires Fixed(m) && !Conflict(m, keys) && keys != [] && "" !in keys
    ensures Fixed(Added(m, keys))
    ensures forall k :: k in Added(m, keys) <==> k in m || k in keys
    ensures forall k :: k in m ==> Added(m, keys)[k] == m[k]
    ensures forall k :: k in keys ==> k in Added(m, keys) && Added(m, keys)[k] == Token(m, keys)
  {
    TokenChosen(m, keys);
    var a := Added(m, keys);
    forall k | k in keys ensures k in a && a[k] == Token(m, keys) {
      if k in m {
        var i :| 0 <= i < |keys| && keys[i] in m && Token(m, keys) == m[keys[i]];
        var j :| 0 <= j < |keys| && keys[j] == k;
      }
    }
  }

  class Causality {
    var relations: Relations

    constructor ()
      ensures relations == map[] && Fixed(relations)
    {
      relations := map[];
    }

    method DetectConflict(keys: seq<string>) returns (conflict: bool)
      requires Fixed(relations)
      ensures conflict <==> Conflict(relations, keys)
    {
      if |keys| == 0 {
        return false;
      }
      var existed := "";
      ghost var seen := 0;
      for i := 0 to |keys|
        invariant existed == "" ==> forall j :: 0 <= j < i ==> keys[j] !in relations
        invariant existed != "" ==> 0 <= seen < i && keys[seen] in relations && relations[keys[seen]] == existed
        invariant forall j :: 0 <= j < i && keys[j] in relations ==> relations[keys[j]] == existed
      {
        if keys[i] in relations {
          var val := relations[keys[i]];
          if existed != "" && val != existed {
            return true;
          }
          existed := val;
          seen := i;
        }
      }
      return false;
    }

    method Add(keys: seq<string>) returns (ok: bool)
      requires Fixed(relations) && "" !in keys
      modifies this
      ensures ok <==> !old(Conflict(relations, keys))
      ensures relations == if ok then Added(old(relations), keys) else old(relations)
      ensures Fixed(relations)
    {
      if |keys| == 0 {
        return true;
      }
      var conflict := DetectConflict(keys);
      if conflict {
        return false;
      }
      AddedOneClass(relations, keys);
      var selected, nonExist := Select(keys);
      SetAll(keys, nonExist, selected);
      return true;
    }

    /** The class of the keys, and the keys not in any class yet. */
    method Select(keys: seq<string>) returns (selected: string, nonExist: seq<string>)
      requires keys != []
      ensures selected == Token(relations, keys)
      ensures forall k :: k in nonExist <==> k in keys && k !in relations
    {
      selected := keys[0];
      nonExist := [];
      for i := 0 to |keys|
        invariant selected == if i == 0 then keys[0] else Token(relations, keys[..i])
        invariant forall k :: k in nonExist <==> k in keys[..i] && k !in relations
      {
        assert i > 0 ==> keys[..i + 1][..i] == keys[..i];
        if keys[i] in relations {
          selected := relations[keys[i]];
        } else {
          nonExist := nonExist + [keys[i]];
        }
      }
      assert keys[..|keys|] == keys;
    }

    method SetAll(keys: seq<string>, nonExist: seq<string>, selected: string)
      requires keys != [] && selected == Token(relations, keys)
      requires forall k :: k in nonExist <==> k in keys && k !in relations
      modifies this
      ensures relations == Added(old(relations), keys)
    {
      for i := 0 to |nonExist|
        invariant forall k :: k in relations <==> k in old(relations) || k in nonExist[..i]
        invariant forall k :: k in relations ==>
                    relations[k] == if k in old(relations) then old(relations)[k] else selected
      {
        relations := relations[nonExist[i] := selected];
      }
      assert nonExist[..|nonExist|] == nonExist;
    }

    method Get(key: string) returns (token: string)
      ensures token == if key in relations then relations[key] else ""
    {
      token := if key in relations then relations[key] else "";
    }

    method Reset()
      modifies this
      ensures relations == map[] && Fixed(relations)
    {
      relations := map[];
    }
  }
}
