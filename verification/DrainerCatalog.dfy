/** What each kind of DDL job does to the drainer's catalog, told by what the catalog holds before and
    after, and when the parts of the catalog stay in step. */
module DrainerCatalog {
  import opened Collections
  import opened DrainerSchema

  // ---------------------------------------------------------------- comparing catalogs

  ghost predicate SameTable(c: Catalog, d: Catalog, id: int) {
    && (id in c.tables <==> id in d.tables) && (id in c.tables ==> c.tables[id] == d.tables[id])
    && (id in c.tableIDToName <==> id in d.tableIDToName)
    && (id in c.tableIDToName ==> c.tableIDToName[id] == d.tableIDToName[id])
  }

  ghost predicate NoTable(c: Catalog, id: int) {
    id !in c.tables && id !in c.tableIDToName
  }

  /** The schemas are the same but for their lists of tables. */
  ghost predicate SameSchemas(c: Catalog, d: Catalog) {
    && c.schemas.Keys == d.schemas.Keys && c.schemaNameToID == d.schemaNameToID
    && forall s :: s in c.schemas ==> c.schemas[s].id == d.schemas[s].id && c.schemas[s].name == d.schemas[s].name
  }

  function Listed(c: Catalog, s: int): multiset<int> {
    if s in c.schemas then multiset(c.schemas[s].tables) else multiset{}
  }

  /** The schema that the name of a table leads to. */
  ghost predicate InSchema(c: Catalog, id: int, s: int) {
    && id in c.tableIDToName && c.tableIDToName[id].schema in c.schemaNameToID
    && c.schemaNameToID[c.tableIDToName[id].schema] == s && s in c.schemas
  }

  /** A table can be dropped if it is there and its name leads to a schema. */
  ghost predicate CanDrop(c: Catalog, id: int) {
    id in c.tables && exists s :: InSchema(c, id, s)
  }

  lemma {:induction false} RemoveFirstOne(ids: seq<int>, id: int)
    ensures multiset(RemoveFirst(ids, id)) == multiset(ids) - multiset{id}
  {
    if ids != [] {
      assert ids == [ids[0]] + ids[1..];
      if ids[0] != id {
        RemoveFirstOne(ids[1..], id);
      }
    }
  }

  // ---------------------------------------------------------------- schemas

  /** The schema is there as given, under its name, and nothing else has changed. */
  ghost predicate SchemaSet(c: Catalog, d: Catalog, db: DBInfo) {
    && d.tables == c.tables && d.tableIDToName == c.tableIDToName
    && (forall s :: s in d.schemas <==> s in c.schemas || s == db.id)
    && (forall s :: s in d.schemas ==> d.schemas[s] == if s == db.id then db else c.schemas[s])
    && (forall n :: n in d.schemaNameToID <==> n in c.schemaNameToID || n == db.name)
    && (forall n :: n in d.schemaNameToID ==> d.schemaNameToID[n] == if n == db.name then db.id else c.schemaNameToID[n])
  }

  /** Creating a schema fails exactly if its id is there; it adds the schema as the job gives it. */
  lemma CreateSchemaExact(full: bool, c: Catalog, job: Job)
    requires job.action == CreateSchema
    ensures var o, db := Perform(full, c, job), job.db;
      && (o.ok <==> db.id !in c.schemas) && (!o.ok ==> o.catalog == c)
      && (o.ok ==> SchemaSet(c, o.catalog, db) && o.name == Name(db.name, ""))
  {
  }

  /** Modifying a schema fails exactly if its id is not there; it puts the job's schema in its place. */
  lemma ModifySchemaExact(full: bool, c: Catalog, job: Job)
    requires job.action == ModifySchema
    ensures var o, db := Perform(full, c, job), job.db;
      && (o.ok <==> db.id in c.schemas) && (!o.ok ==> o.catalog == c)
      && (o.ok ==> SchemaSet(c, o.catalog, db) && o.name == Name(db.name, ""))
  {
  }

  /** Dropping a schema fails exactly if it is not there; it removes the schema, its name and the tables of
      its list, and nothing else. */
  lemma DropSchemaExact(full: bool, c: Catalog, job: Job)
    requires job.action == DropSchema
    ensures var o, s := Perform(full, c, job), job.schemaID;
      && (o.ok <==> s in c.schemas) && (!o.ok ==> o.catalog == c)
      && (o.ok ==>
            && o.name == Name(c.schemas[s].name, "")
            && (forall id :: if id in c.schemas[s].tables then NoTable(o.catalog, id) else SameTable(c, o.catalog, id))
            && o.catalog.schemas.Keys == c.schemas.Keys - {s}
            && (forall x :: x in o.catalog.schemas ==> o.catalog.schemas[x] == c.schemas[x])
            && o.catalog.schemaNameToID.Keys == c.schemaNameToID.Keys - {c.schemas[s].name}
            && (forall n :: n in o.catalog.schemaNameToID ==> o.catalog.schemaNameToID[n] == c.schemaNameToID[n]))
  {
  }

  // ---------------------------------------------------------------- tables

  /** The table is gone from all three places, and nothing else has changed. */
  ghost predicate Dropped(c: Catalog, d: Catalog, id: int) {
    && SameSchemas(c, d) && NoTable(d, id)
    && (forall other :: other != id ==> SameTable(c, d, other))
    && (forall s :: Listed(d, s) == Listed(c, s) - if InSchema(c, id, s) then multiset{id} else multiset{})
  }

  /** The table is there with just this definition, under this schema and name. */
  ghost predicate Created(c: Catalog, d: Catalog, s: int, version: int, table: TableInfo) {
    && SameSchemas(c, d) && s in c.schemas
    && table.id in d.tables && d.tables[table.id] == [Entry(version, table)]
    && table.id in d.tableIDToName && d.tableIDToName[table.id] == Name(c.schemas[s].name, table.name)
    && (forall other :: other != table.id ==> SameTable(c, d, other))
    && (forall x :: Listed(d, x) == Listed(c, x) + if x == s then multiset{table.id} else multiset{})
  }

  lemma SchemaOfExact(c: Catalog, id: int, s: int)
    ensures InSchema(c, id, s) <==> SchemaOfTable(c, id) == Some(s)
  {
  }

  lemma RemovedLists(c: Catalog, id: int, schemaID: int)
    requires RemoveTable(c, id, schemaID).ok
    ensures var d := RemoveTable(c, id, schemaID).catalog;
      && d.schemas.Keys == c.schemas.Keys
      && forall s :: Listed(d, s) == Listed(c, s) - if InSchema(c, id, s) then multiset{id} else multiset{}
  {
    var d, key := RemoveTable(c, id, schemaID).catalog, SchemaOfTable(c, id).value;
    RemoveFirstOne(c.schemas[key].tables, id);
    forall s ensures Listed(d, s) == Listed(c, s) - if InSchema(c, id, s) then multiset{id} else multiset{} {
      SchemaOfExact(c, id, s);
    }
  }

  lemma RemoveTableExact(c: Catalog, id: int, schemaID: int)
    ensures var o := RemoveTable(c, id, schemaID);
      && (o.ok <==> CanDrop(c, id)) && (!o.ok ==> o.catalog == c) && (o.ok ==> Dropped(c, o.catalog, id))
  {
    if SchemaOfTable(c, id) != None {
      assert InSchema(c, id, SchemaOfTable(c, id).value);
      if id in c.tables {
        RemovedLists(c, id, schemaID);
      }
    }
  }

  lemma AddedList(full: bool, c: Catalog, version: int, s: int, table: TableInfo, x: int)
    requires s in c.schemas && table.id !in c.tables
    ensures Listed(AddTable(full, c, version, s, table).catalog, x)
         == Listed(c, x) + if x == s then multiset{table.id} else multiset{}
  {
    assert multiset(c.schemas[s].tables + [table.id]) == multiset(c.schemas[s].tables) + multiset{table.id};
  }

  lemma AddTableExact(full: bool, c: Catalog, version: int, s: int, table: TableInfo)
    ensures var o := AddTable(full, c, version, s, table);
      && (o.ok <==> s in c.schemas && table.id !in c.tables) && (!o.ok ==> o.catalog == c)
      && (o.ok ==> Created(c, o.catalog, s, version, table) && o.name == Name(c.schemas[s].name, table.name))
  {
    if s in c.schemas && table.id !in c.tables {
      var d := AddTable(full, c, version, s, table).catalog;
      assert [] + [Entry(version, table)] == [Entry(version, table)];
      forall x ensures Listed(d, x) == Listed(c, x) + if x == s then multiset{table.id} else multiset{} {
        AddedList(full, c, version, s, table, x);
      }
    }
  }

  /** Dropping a table fails exactly if the job's schema is not there or the table cannot be dropped. */
  lemma DropTableExact(full: bool, c: Catalog, job: Job)
    requires job.action == DropTable
    ensures var o := Perform(full, c, job);
      && (o.ok <==> job.schemaID in c.schemas && CanDrop(c, job.tableID)) && (!o.ok ==> o.catalog == c)
      && (o.ok ==> Dropped(c, o.catalog, job.tableID))
      && (o.ok && c.tables[job.tableID] != [] ==>
            o.name == Name(c.schemas[job.schemaID].name, c.tables[job.tableID][|c.tables[job.tableID]| - 1].info.name))
  {
    RemoveTableExact(c, job.tableID, job.schemaID);
  }

  /** Creating a table fails exactly without a definition or schema, or if its id is there. */
  lemma CreateTableExact(full: bool, c: Catalog, job: Job)
    requires job.action == CreateTable
    ensures var o := Perform(full, c, job);
      && (o.ok <==> job.table.Some? && job.schemaID in c.schemas && job.table.value.id !in c.tables)
      && (!o.ok ==> o.catalog == c)
      && (o.ok ==> Created(c, o.catalog, job.schemaID, job.version, job.table.value))
      && (o.ok ==> o.name == Name(c.schemas[job.schemaID].name, job.table.value.name))
  {
    if job.table.Some? {
      AddTableExact(full, c, job.version, job.schemaID, job.table.value);
    }
  }

  /** The new table can be created once the old one is gone. */
  ghost predicate CanFollow(c: Catalog, job: Job) {
    && job.table.Some? && job.schemaID in c.schemas
    && (job.table.value.id == job.tableID || job.table.value.id !in c.tables)
  }

  /** The old table is gone and the new one is there; if it fails in between, the old one is gone. */
  ghost predicate Recreated(c: Catalog, o: Outcome, job: Job) {
    && (o.ok ==> job.table.Some?)
    && exists d ::
      && Dropped(c, d, job.tableID)
      && if o.ok then Created(d, o.catalog, job.schemaID, job.version, job.table.value) else o.catalog == d
  }

  lemma RecreateExact(full: bool, c: Catalog, job: Job)
    ensures var o := Recreate(full, c, job);
      && (o.ok <==> CanDrop(c, job.tableID) && CanFollow(c, job))
      && (if CanDrop(c, job.tableID) then Recreated(c, o, job) else o.catalog == c)
      && (o.ok ==> o.name == Name(c.schemas[job.schemaID].name, job.table.value.name))
  {
    RemoveTableExact(c, job.tableID, job.schemaID);
    var r := RemoveTable(c, job.tableID, job.schemaID);
    if r.ok && job.table.Some? {
      assert job.table.value.id != job.tableID ==> SameTable(c, r.catalog, job.table.value.id);
      AddTableExact(full, r.catalog, job.version, job.schemaID, job.table.value);
    }
  }

  /** Renaming a table: the old id is gone and the new one is there with its definition, in its schema and
      under its name. A failure can leave the table dropped. */
  lemma RenameTableExact(full: bool, c: Catalog, job: Job)
    requires job.action == RenameTable
    ensures var o := Perform(full, c, job);
      && (o.ok <==> CanDrop(c, job.tableID) && CanFollow(c, job))
      && (if CanDrop(c, job.tableID) then Recreated(c, o, job) else o.catalog == c)
      && (o.ok ==> o.name == Name(c.schemas[job.schemaID].name, job.table.value.name))
  {
    RecreateExact(full, c, job);
    if SchemaOfTable(c, job.tableID) != None {
      assert InSchema(c, job.tableID, SchemaOfTable(c, job.tableID).value);
    }
  }

  /** Truncating a table does the same, but not without the job's schema. */
  lemma TruncateTableExact(full: bool, c: Catalog, job: Job)
    requires job.action == TruncateTable
    ensures var o, can := Perform(full, c, job), job.schemaID in c.schemas && CanDrop(c, job.tableID);
      && (o.ok <==> can && CanFollow(c, job))
      && (if can then Recreated(c, o, job) else o.catalog == c)
      && (o.ok ==> o.name == Name(c.schemas[job.schemaID].name, job.table.value.name))
  {
    RecreateExact(full, c, job);
  }

  /** Every other job fails exactly without a definition or schema, or if the table is not there; it adds
      one definition to the table's history, and changes nothing else. */
  lemma OtherExact(full: bool, c: Catalog, job: Job)
    requires job.action == OtherTable || job.action == DropColumn || job.action == Unsupported
    ensures var o := Perform(full, c, job);
      && (o.ok <==> job.table.Some? && job.schemaID in c.schemas && job.table.value.id in c.tables)
      && (!o.ok ==> o.catalog == c)
      && (o.ok ==>
            var id, e := job.table.value.id, Entry(job.version, job.table.value);
            && o.name == Name(c.schemas[job.schemaID].name, job.table.value.name)
            && o.catalog.schemas == c.schemas && o.catalog.schemaNameToID == c.schemaNameToID
            && o.catalog.tableIDToName == c.tableIDToName && id in o.catalog.tables
            && (forall other :: other != id ==> SameTable(c, o.catalog, other))
            && (full || |c.tables[id]| < 2 ==> o.catalog.tables[id] == c.tables[id] + [e])
            && (!full && |c.tables[id]| >= 2 ==> o.catalog.tables[id] == [c.tables[id][|c.tables[id]| - 1], e]))
  {
  }

  // ---------------------------------------------------------------- the parts in step

  /** Every schema is found by its name, and only so. */
  ghost predicate NamesTied(c: Catalog) {
    && (forall s :: s in c.schemas ==> c.schemas[s].name in c.schemaNameToID && c.schemaNameToID[c.schemas[s].name] == s)
    && (forall n :: n in c.schemaNameToID ==> c.schemaNameToID[n] in c.schemas && c.schemas[c.schemaNameToID[n]].name == n)
  }

  /** A table has a history and a name or neither, its name leads to a schema, and exactly the list of that
      schema has it, once. */
  ghost predicate TablesTied(c: Catalog) {
    && c.tables.Keys == c.tableIDToName.Keys
    && (forall id :: id in c.tables ==> c.tables[id] != [] && exists s :: InSchema(c, id, s))
    && (forall s, id :: s in c.schemas ==> Listed(c, s)[id] == if InSchema(c, id, s) then 1 else 0)
  }

  ghost predicate Tied(c: Catalog) {
    NamesTied(c) && TablesTied(c)
  }

  lemma SameNamesTied(c: Catalog, d: Catalog)
    requires NamesTied(c) && SameSchemas(c, d)
    ensures NamesTied(d)
  {
    assert forall s :: s in d.schemas <==> s in c.schemas;
  }

  lemma DroppedIn(c: Catalog, d: Catalog, id: int, other: int)
    requires Dropped(c, d, id)
    ensures other in d.tables <==> other in c.tables && other != id
    ensures other in d.tableIDToName <==> other in c.tableIDToName && other != id
    ensures other in d.tables ==> d.tables[other] == c.tables[other]
    ensures forall s :: InSchema(d, other, s) <==> InSchema(c, other, s) && other != id
  {
    if other != id {
      assert SameTable(c, d, other);
    }
  }

  lemma DroppedListed(c: Catalog, d: Catalog, id: int, s: int, other: int)
    requires Tied(c) && Dropped(c, d, id) && s in d.schemas
    ensures Listed(d, s)[other] == if InSchema(d, other, s) then 1 else 0
  {
    DroppedIn(c, d, id, other);
    assert Listed(d, s) == Listed(c, s) - if InSchema(c, id, s) then multiset{id} else multiset{};
    assert Listed(c, s)[other] == if InSchema(c, other, s) then 1 else 0;
  }

  lemma DroppedTied(c: Catalog, d: Catalog, id: int)
    requires Tied(c) && Dropped(c, d, id)
    ensures Tied(d)
  {
    forall other
      ensures other in d.tables <==> other in d.tableIDToName
      ensures other in d.tables ==> d.tables[other] != [] && exists s :: InSchema(d, other, s)
    {
      DroppedIn(c, d, id, other);
      if other in d.tables {
        var s :| InSchema(c, other, s);
        assert InSchema(d, other, s);
      }
    }
    assert d.tables.Keys == d.tableIDToName.Keys;
    forall s, other | s in d.schemas ensures Listed(d, s)[other] == if InSchema(d, other, s) then 1 else 0 {
      DroppedListed(c, d, id, s, other);
    }
    SameNamesTied(c, d);
  }

  lemma CreatedTied(c: Catalog, d: Catalog, s: int, version: int, table: TableInfo)
    requires Tied(c) && table.id !in c.tables && Created(c, d, s, version, table)
    ensures Tied(d)
  {
    forall other, x ensures InSchema(d, other, x) <==> InSchema(c, other, x) || (other == table.id && x == s) {
      assert other != table.id ==> SameTable(c, d, other);
    }
    forall other ensures other in d.tables <==> other in c.tables || other == table.id {
      assert other != table.id ==> SameTable(c, d, other);
    }
    forall other ensures other in d.tableIDToName <==> other in c.tableIDToName || other == table.id {
      assert other != table.id ==> SameTable(c, d, other);
    }
    forall other | other in d.tables ensures d.tables[other] != [] && exists x :: InSchema(d, other, x) {
      if other == table.id {
        assert InSchema(d, other, s);
      } else {
        assert SameTable(c, d, other);
        var x :| InSchema(c, other, x);
        assert InSchema(d, other, x);
      }
    }
  }

  lemma RecreatedTied(c: Catalog, o: Outcome, job: Job)
    requires Tied(c) && Recreated(c, o, job) && (o.ok ==> CanFollow(c, job))
    ensures Tied(o.catalog)
  {
    var d :|
      && Dropped(c, d, job.tableID)
      && if o.ok then Created(d, o.catalog, job.schemaID, job.version, job.table.value) else o.catalog == d;
    DroppedTied(c, d, job.tableID);
    if o.ok {
      DroppedIn(c, d, job.tableID, job.table.value.id);
      CreatedTied(d, o.catalog, job.schemaID, job.version, job.table.value);
    }
  }

  /** Histories may change, as long as the same tables have one. */
  lemma HistoriesTied(c: Catalog, d: Catalog)
    requires Tied(c) && d.tables.Keys == c.tables.Keys && d == c.(tables := d.tables)
    requires forall id :: id in d.tables ==> d.tables[id] != []
    ensures Tied(d)
  {
    forall id, s ensures InSchema(d, id, s) <==> InSchema(c, id, s) {
    }
    forall id | id in d.tables ensures exists s :: InSchema(d, id, s) {
      assert id in c.tables;
      var s :| InSchema(c, id, s);
      assert InSchema(d, id, s);
    }
    forall s, id | s in d.schemas ensures Listed(d, s)[id] == if InSchema(d, id, s) then 1 else 0 {
      assert Listed(d, s) == Listed(c, s);
    }
  }

  lemma OtherTied(full: bool, c: Catalog, job: Job)
    requires Tied(c) && (job.action == OtherTable || job.action == DropColumn || job.action == Unsupported)
    ensures Tied(Perform(full, c, job).catalog)
  {
    OtherExact(full, c, job);
    var o := Perform(full, c, job);
    if o.ok {
      var d := o.catalog;
      forall id
        ensures id in d.tables <==> id in c.tables
        ensures id in d.tables ==> d.tables[id] != []
      {
        assert id != job.table.value.id ==> SameTable(c, d, id);
      }
      HistoriesTied(c, d);
    }
  }

  /** Tables of other schemas are not in the list of the one that is dropped. */
  lemma DropSchemaTied(full: bool, c: Catalog, job: Job)
    requires Tied(c) && job.action == DropSchema
    ensures Tied(Perform(full, c, job).catalog)
  {
    DropSchemaExact(full, c, job);
    var o, s := Perform(full, c, job), job.schemaID;
    if o.ok {
      var d := o.catalog;
      forall id
        ensures id in d.tables <==> id in c.tables && !InSchema(c, id, s)
        ensures id in d.tableIDToName <==> id in c.tableIDToName && !InSchema(c, id, s)
        ensures id in d.tables ==> d.tables[id] == c.tables[id]
        ensures forall x :: InSchema(d, id, x) <==> InSchema(c, id, x) && x != s
      {
        DropSchemaOne(c, d, s, id);
      }
      forall id | id in d.tables ensures exists x :: InSchema(d, id, x) {
        var x :| InSchema(c, id, x);
        assert InSchema(d, id, x);
      }
      assert forall x :: x in d.schemas ==> Listed(d, x) == Listed(c, x);
    }
  }

  lemma DropSchemaOne(c: Catalog, d: Catalog, s: int, id: int)
    requires Tied(c) && s in c.schemas
    requires if id in c.schemas[s].tables then NoTable(d, id) else SameTable(c, d, id)
    requires d.schemas.Keys == c.schemas.Keys - {s}
    requires d.schemaNameToID.Keys == c.schemaNameToID.Keys - {c.schemas[s].name}
    requires forall n :: n in d.schemaNameToID ==> d.schemaNameToID[n] == c.schemaNameToID[n]
    ensures id in d.tables <==> id in c.tables && !InSchema(c, id, s)
    ensures id in d.tableIDToName <==> id in c.tableIDToName && !InSchema(c, id, s)
    ensures id in d.tables ==> d.tables[id] == c.tables[id]
    ensures forall x :: InSchema(d, id, x) <==> InSchema(c, id, x) && x != s
  {
    assert Listed(c, s)[id] == if InSchema(c, id, s) then 1 else 0;
    assert id in c.schemas[s].tables <==> id in multiset(c.schemas[s].tables);
  }

  /** A schema job that leaves the parts in step: a new schema has no tables yet and a new name, and a
      modified one keeps its name and its list. */
  ghost predicate Orderly(c: Catalog, job: Job) {
    && (job.action == CreateSchema && job.db.id !in c.schemas ==>
          job.db.tables == [] && job.db.name !in c.schemaNameToID)
    && (job.action == ModifySchema && job.db.id in c.schemas ==>
          job.db.name == c.schemas[job.db.id].name && multiset(job.db.tables) == multiset(c.schemas[job.db.id].tables))
  }

  lemma SchemaSetIn(c: Catalog, d: Catalog, db: DBInfo, id: int, s: int)
    requires NamesTied(c) && SchemaSet(c, d, db)
    requires db.id in c.schemas ==> db.name == c.schemas[db.id].name
    requires db.id !in c.schemas ==> db.name !in c.schemaNameToID
    ensures c.tables.Keys == c.tableIDToName.Keys && TablesTied(c) ==> (InSchema(d, id, s) <==> InSchema(c, id, s))
    ensures InSchema(c, id, s) ==> InSchema(d, id, s)
  {
    if InSchema(d, id, s) && TablesTied(c) {
      assert id in c.tables;
      var x :| InSchema(c, id, x);
    }
  }

  lemma SchemaSetNames(c: Catalog, d: Catalog, db: DBInfo)
    requires NamesTied(c) && SchemaSet(c, d, db)
    ensures NamesTied(d) <==> if db.id in c.schemas then db.name == c.schemas[db.id].name else db.name !in c.schemaNameToID
  {
    if db.id in c.schemas {
      var old' := c.schemas[db.id].name;
      assert c.schemaNameToID[old'] == db.id && old' in d.schemaNameToID;
      assert d.schemaNameToID[old'] == db.id && d.schemas[db.id].name == db.name;
    } else if db.name in c.schemaNameToID {
      var x := c.schemaNameToID[db.name];
      assert x in d.schemas && d.schemas[x].name == db.name && d.schemaNameToID[db.name] == db.id;
    }
  }

  /** No table belongs to a schema that is not there. */
  lemma NewSchemaEmpty(c: Catalog, s: int, id: int)
    requires s !in c.schemas
    ensures !InSchema(c, id, s)
  {
  }

  /** The list the job should bring. */
  function ListBefore(c: Catalog, s: int): seq<int> {
    if s in c.schemas then c.schemas[s].tables else []
  }

  lemma ListBeforeTied(c: Catalog, s: int, id: int)
    requires Tied(c)
    ensures multiset(ListBefore(c, s))[id] == if InSchema(c, id, s) then 1 else 0
  {
    if s !in c.schemas {
      NewSchemaEmpty(c, s, id);
    } else {
      assert Listed(c, s)[id] == if InSchema(c, id, s) then 1 else 0;
    }
  }

  /** With the list there was, the tables stay in step. */
  lemma SameListTied(c: Catalog, d: Catalog, db: DBInfo)
    requires Tied(c) && SchemaSet(c, d, db) && multiset(db.tables) == multiset(ListBefore(c, db.id))
    requires forall id, s :: InSchema(d, id, s) <==> InSchema(c, id, s)
    ensures TablesTied(d)
  {
    forall id | id in d.tables ensures d.tables[id] != [] && exists s :: InSchema(d, id, s) {
      var s :| InSchema(c, id, s);
      assert InSchema(d, id, s);
    }
    forall s, id | s in d.schemas ensures Listed(d, s)[id] == if InSchema(d, id, s) then 1 else 0 {
      ListBeforeTied(c, s, id);
    }
  }

  lemma SchemaSetTables(c: Catalog, d: Catalog, db: DBInfo)
    requires Tied(c) && NamesTied(d) && SchemaSet(c, d, db)
    ensures TablesTied(d) <==> multiset(db.tables) == multiset(ListBefore(c, db.id))
  {
    SchemaSetNames(c, d, db);
    forall id, s ensures InSchema(d, id, s) <==> InSchema(c, id, s) {
      SchemaSetIn(c, d, db, id, s);
    }
    if TablesTied(d) {
      forall id ensures multiset(db.tables)[id] == multiset(ListBefore(c, db.id))[id] {
        assert Listed(d, db.id)[id] == if InSchema(d, id, db.id) then 1 else 0;
        ListBeforeTied(c, db.id, id);
      }
    }
    if multiset(db.tables) == multiset(ListBefore(c, db.id)) {
      SameListTied(c, d, db);
    }
  }

  lemma SchemaSetTied(c: Catalog, d: Catalog, db: DBInfo)
    requires Tied(c) && SchemaSet(c, d, db)
    ensures Tied(d) <==>
      && multiset(db.tables) == multiset(ListBefore(c, db.id))
      && if db.id in c.schemas then db.name == c.schemas[db.id].name else db.name !in c.schemaNameToID
  {
    SchemaSetNames(c, d, db);
    if NamesTied(d) {
      SchemaSetTables(c, d, db);
    }
  }

  lemma EmptyList(ids: seq<int>)
    ensures multiset(ids) == multiset([]) <==> ids == []
  {
    assert |multiset(ids)| == |ids|;
  }

  /** Main result: a job, whether it fails or not, leaves histories, names and lists in step if and only if
      it is an orderly one. */
  lemma TiedExact(full: bool, c: Catalog, job: Job)
    requires Tied(c)
    ensures Tied(Perform(full, c, job).catalog) <==> Orderly(c, job)
  {
    var o := Perform(full, c, job);
    match job.action
    case CreateSchema =>
      CreateSchemaExact(full, c, job);
      EmptyList(job.db.tables);
      if o.ok {
        SchemaSetTied(c, o.catalog, job.db);
      }
    case ModifySchema =>
      ModifySchemaExact(full, c, job);
      if o.ok {
        SchemaSetTied(c, o.catalog, job.db);
      }
    case DropSchema => DropSchemaTied(full, c, job);
    case RenameTable =>
      RenameTableExact(full, c, job);
      if CanDrop(c, job.tableID) {
        RecreatedTied(c, o, job);
      }
    case CreateTable =>
      CreateTableExact(full, c, job);
      if o.ok {
        CreatedTied(c, o.catalog, job.schemaID, job.version, job.table.value);
      }
    case DropTable =>
      DropTableExact(full, c, job);
      if o.ok {
        DroppedTied(c, o.catalog, job.tableID);
      }
    case TruncateTable =>
      TruncateTableExact(full, c, job);
      if job.schemaID in c.schemas && CanDrop(c, job.tableID) {
        RecreatedTied(c, o, job);
      }
    case _ => OtherTied(full, c, job);
  }

  // ---------------------------------------------------------------- a job in the loop

  /** The job reaches the catalog. */
  predicate Performed(s: Store, job: Job) {
    && s.log.current < job.version && job.action != Unsupported && !(job.deleteOnly && job.action == DropColumn)
    && job.finished && job.query != ""
  }

  ghost predicate SameVersions(a: map<int, int>, b: map<int, int>, id: int, version: int) {
    b.Keys == a.Keys + {id} && forall x :: x in b ==> b[x] == if x == id then version else a[x]
  }

  /** What a turn of the catching-up loop does to the store, in all cases. An old or unsupported job does
      nothing, the first stage of dropping a column only marks the table, an unfinished job only moves the
      table's version, and any other job acts on the catalog and, if it succeeds, is noted. */
  lemma ReplayExact(full: bool, s: Store, job: Job)
    ensures var r, o := Replay(full, s, job), Perform(full, s.catalog, job);
      && (r.ok <==> !(Performed(s, job) && !o.ok) && !(s.log.current < job.version && job.action != Unsupported
                      && !(job.deleteOnly && job.action == DropColumn) && job.finished && job.query == ""))
      && (r.store.catalog == if Performed(s, job) then o.catalog else s.catalog)
      && (job.version <= s.log.current || !r.ok ==> r.store.log == s.log)
  {
  }

  lemma NotedExact(full: bool, s: Store, job: Job)
    requires Performed(s, job) && Perform(full, s.catalog, job).ok
    ensures var l, m := s.log, Replay(full, s, job).store.log;
      && m.current == job.version && m.applied == l.applied + [job.version]
      && m.named.Keys == l.named.Keys + {job.version} && m.named[job.version] == Perform(full, s.catalog, job).name
      && (forall v :: v in l.named && v != job.version ==> m.named[v] == l.named[v])
      && (forall id :: id in m.truncated <==> id in l.truncated || (job.action == TruncateTable && id == job.tableID))
      && (forall id :: id in m.dropping <==> id in l.dropping && !(job.action == DropColumn && id == job.tableID))
      && SameVersions(l.tableVersion, m.tableVersion, job.tableID, job.version)
  {
  }

  lemma UnappliedExact(full: bool, s: Store, job: Job)
    requires s.log.current < job.version && !Performed(s, job) && Replay(full, s, job).ok
    ensures var l, m := s.log, Replay(full, s, job).store.log;
      && m.current == l.current && m.applied == l.applied && m.named == l.named && m.truncated == l.truncated
      && (forall id :: id in m.dropping <==>
            id in l.dropping || (job.deleteOnly && job.action == DropColumn && id == job.tableID))
      && (if job.action == Unsupported || (job.deleteOnly && job.action == DropColumn) then m.tableVersion == l.tableVersion
          else SameVersions(l.tableVersion, m.tableVersion, job.tableID, job.version))
  {
  }

  /** The answer for a version is the first definition that is not older. */
  lemma {:induction false} LookupFirst(entries: seq<Entry>, version: int)
    ensures match Lookup(entries, version)
            case None => forall i :: 0 <= i < |entries| ==> entries[i].version < version
            case Some(e) => exists k :: 0 <= k < |entries| && entries[k] == e && e.version >= version &&
                                        forall i :: 0 <= i < k ==> entries[i].version < version
  {
    if entries != [] && entries[0].version < version {
      var rest := entries[1..];
      LookupFirst(rest, version);
      match Lookup(rest, version)
      case None =>
        assert forall i :: 0 < i < |entries| ==> entries[i] == rest[i - 1];
      case Some(e) =>
        var k :| 0 <= k < |rest| && rest[k] == e && e.version >= version && forall i :: 0 <= i < k ==> rest[i].version < version;
        assert entries[k + 1] == e;
        assert forall i :: 0 < i < k + 1 ==> entries[i] == rest[i - 1];
    }
  }

  /** Catching up takes jobs from the front, none above the version, and stops at the first above it or at
      one that fails. */
  lemma {:induction false} CatchUpExact(full: bool, s: Store, jobs: seq<Job>, version: int) returns (k: nat)
    ensures var p := CatchUp(full, s, jobs, version);
      && k <= |jobs| && p.jobs == jobs[k..] && (forall i :: 0 <= i < k ==> jobs[i].version <= version)
      && (p.ok ==> k == |jobs| || jobs[k].version > version)
      && (!p.ok ==> k < |jobs| && jobs[k].version <= version)
    decreases |jobs|
  {
    k := 0;
    if jobs != [] && jobs[0].version <= version && Replay(full, s, jobs[0]).ok {
      var rest := jobs[1..];
      var n := CatchUpExact(full, Replay(full, s, jobs[0]).store, rest, version);
      k := n + 1;
      assert rest[n..] == jobs[k..];
      assert forall i :: 0 < i < k ==> jobs[i] == rest[i - 1];
    }
  }

  // ---------------------------------------------------------------- every run

  ghost predicate OrderlyJobs(full: bool, s: Store, jobs: seq<Job>, version: int)
    decreases |jobs|
  {
    jobs == [] || jobs[0].version > version ||
    (&& (Performed(s, jobs[0]) ==> Orderly(s.catalog, jobs[0]))
     && (Replay(full, s, jobs[0]).ok ==> OrderlyJobs(full, Replay(full, s, jobs[0]).store, jobs[1..], version)))
  }

  lemma {:induction false} CatchUpTied(full: bool, s: Store, jobs: seq<Job>, version: int)
    requires Tied(s.catalog) && OrderlyJobs(full, s, jobs, version)
    ensures Tied(CatchUp(full, s, jobs, version).store.catalog)
    decreases |jobs|
  {
    if jobs != [] && jobs[0].version <= version {
      ReplayExact(full, s, jobs[0]);
      if Performed(s, jobs[0]) {
        TiedExact(full, s.catalog, jobs[0]);
      }
      if Replay(full, s, jobs[0]).ok {
        CatchUpTied(full, Replay(full, s, jobs[0]).store, jobs[1..], version);
      }
    }
  }

  ghost predicate OrderlyRun(full: bool, s: Schema, steps: seq<Step>)
    decreases |steps|
  {
    steps != [] ==>
      && (steps[0].Catch? ==> OrderlyJobs(full, s.store, s.jobs, steps[0].version))
      && (Apply(full, s, steps[0]).Some? ==> OrderlyRun(full, Apply(full, s, steps[0]).value, steps[1..]))
  }

  lemma {:induction false} RunTied(full: bool, s: Schema, steps: seq<Step>, t: Schema)
    requires Tied(s.store.catalog) && Runs(full, s, steps, t) && OrderlyRun(full, s, steps)
    ensures Tied(t.store.catalog)
    decreases |steps|
  {
    if steps != [] {
      if steps[0].Catch? {
        CatchUpTied(full, s.store, s.jobs, steps[0].version);
      }
      RunTied(full, Apply(full, s, steps[0]).value, steps[1..], t);
    }
  }

  /** Main result: in every run whose schema jobs are orderly, every table has a history, a name, and a place
      in the list of exactly the schema its name says. */
  lemma CatalogTied(full: bool, jobs: seq<Job>, steps: seq<Step>, t: Schema)
    requires Runs(full, Schema(EMPTY, jobs), steps, t) && OrderlyRun(full, Schema(EMPTY, jobs), steps)
    ensures Tied(t.store.catalog)
  {
    assert Tied(EMPTY.catalog);
    RunTied(full, Schema(EMPTY, jobs), steps, t);
  }

  // ---------------------------------------------------------------- a table without a schema

  const DB := DBInfo(1, "d", [])
  const TABLE := TableInfo(2, "t", [])

  function JobOf(version: int, action: Action): Job {
    Job(version, action, 1, 2, DB, Some(TABLE), "sql", true, false)
  }

  function WithTable(): Catalog {
    Catalog(map[1 := DB.(tables := [2])], map["d" := 1], map[2 := [Entry(2, TABLE)]], map[2 := Name("d", "t")])
  }

  /** A job brings the schema with an empty list, so modifying a schema makes it forget its tables, and
      dropping it afterwards leaves them behind. */
  lemma OrphanTable(full: bool)
    ensures var c1 := Perform(full, EMPTY.catalog, JobOf(1, CreateSchema)).catalog;
      var c2 := Perform(full, c1, JobOf(2, CreateTable)).catalog;
      var c3 := Perform(full, c2, JobOf(3, ModifySchema)).catalog;
      var o := Perform(full, c3, JobOf(4, DropSchema));
      c2 == WithTable() && o.ok && o.catalog.schemas == map[] && 2 in o.catalog.tables && 2 in o.catalog.tableIDToName
  {
    assert [] + [2] == [2] && [] + [Entry(2, TABLE)] == [Entry(2, TABLE)];
  }
}
