/** The drainer's view of the upstream schema, kept by replaying DDL jobs. */
module DrainerSchema {
  import opened Collections

  datatype TableInfo = TableInfo(id: int, name: string, columns: seq<string>)

  /** A schema and the ids of its tables. */
  datatype DBInfo = DBInfo(id: int, name: string, tables: seq<int>)

  datatype Action = CreateSchema | ModifySchema | DropSchema | RenameTable | CreateTable | DropTable | TruncateTable
                  | DropColumn | Unsupported | OtherTable

  /** `finished` jobs are synced or done; `deleteOnly` is the first state of dropping a column. */
  datatype Job = Job(version: int, action: Action, schemaID: int, tableID: int, db: DBInfo, table: Option<TableInfo>,
                     query: string, finished: bool, deleteOnly: bool)

  datatype Entry = Entry(version: int, info: TableInfo)

  datatype Name = Name(schema: string, table: string)

  /** The schemas and tables, each table with the history of its definitions. */
  datatype Catalog = Catalog(schemas: map<int, DBInfo>, schemaNameToID: map<string, int>,
                             tables: map<int, seq<Entry>>, tableIDToName: map<int, Name>)

  /** What is noted about the jobs; `applied` records the versions of those that took effect. */
  datatype Log = Log(truncated: set<int>, dropping: set<int>, tableVersion: map<int, int>, named: map<int, Name>,
                     current: int, applied: seq<int>)

  datatype Store = Store(catalog: Catalog, log: Log)

  datatype Result = Result(store: Store, ok: bool)

  /** The effect of a job on the catalog, partial if it fails, and the name it concerns. */
  datatype Outcome = Outcome(catalog: Catalog, ok: bool, name: Name)

  const NO_NAME := Name("", "")

  const EMPTY := Store(Catalog(map[], map[], map[], map[]), Log({}, {}, map[], map[], 0, []))

  // ---------------------------------------------------------------- schemas and tables

  function AddSchema(c: Catalog, db: DBInfo): Outcome {
    if db.id in c.schemas then Outcome(c, false, NO_NAME)
    else
      Outcome(c.(schemas := c.schemas[db.id := db], schemaNameToID := c.schemaNameToID[db.name := db.id]),
              true, Name(db.name, ""))
  }

  function SetSchema(c: Catalog, db: DBInfo): Outcome {
    if db.id !in c.schemas then Outcome(c, false, NO_NAME)
    else
      Outcome(c.(schemas := c.schemas[db.id := db], schemaNameToID := c.schemaNameToID[db.name := db.id]),
              true, Name(db.name, ""))
  }

  function RemoveSchema(c: Catalog, id: int): Outcome {
    if id !in c.schemas then Outcome(c, false, NO_NAME)
    else
      var db := c.schemas[id];
      var gone := set t | t in db.tables;
      Outcome(Catalog(c.schemas - {id}, c.schemaNameToID - {db.name}, c.tables - gone, c.tableIDToName - gone),
              true, Name(db.name, ""))
  }

  function SchemaOfTable(c: Catalog, id: int): Option<int> {
    if id in c.tableIDToName && c.tableIDToName[id].schema in c.schemaNameToID &&
       c.schemaNameToID[c.tableIDToName[id].schema] in c.schemas
    then Some(c.schemaNameToID[c.tableIDToName[id].schema])
    else None
  }

  function RemoveFirst(ids: seq<int>, id: int): seq<int> {
    if ids == [] then [] else if ids[0] == id then ids[1..] else [ids[0]] + RemoveFirst(ids[1..], id)
  }

  function SchemaName(c: Catalog, id: int): string {
    if id in c.schemas then c.schemas[id].name else ""
  }

  function EntriesOf(c: Catalog, id: int): seq<Entry> {
    if id in c.tables then c.tables[id] else []
  }

  function LatestName(entries: seq<Entry>): string {
    if entries == [] then "" else entries[|entries| - 1].info.name
  }

  function RemoveTable(c: Catalog, id: int, schemaID: int): Outcome {
    if id !in c.tables || SchemaOfTable(c, id) == None then Outcome(c, false, NO_NAME)
    else
      var key := SchemaOfTable(c, id).value;
      var db := c.schemas[key];
      Outcome(c.(schemas := c.schemas[key := db.(tables := RemoveFirst(db.tables, id))],
                 tables := c.tables - {id}, tableIDToName := c.tableIDToName - {id}),
              true, Name(SchemaName(c, schemaID), LatestName(c.tables[id])))
  }

  /** The history of a table is kept in full, or as the code does only its last two entries. */
  function Keep(full: bool, entries: seq<Entry>): seq<Entry> {
    if !full && |entries| > 2 then entries[|entries| - 2..] else entries
  }

  function AppendInfo(full: bool, c: Catalog, version: int, table: TableInfo): Catalog {
    c.(tables := c.tables[table.id := Keep(full, EntriesOf(c, table.id) + [Entry(version, table)])])
  }

  function AddTable(full: bool, c: Catalog, version: int, schemaID: int, table: TableInfo): Outcome {
    if schemaID !in c.schemas || table.id in c.tables then Outcome(c, false, NO_NAME)
    else
      var db := c.schemas[schemaID];
      var d := AppendInfo(full, c, version, table);
      Outcome(d.(schemas := d.schemas[schemaID := db.(tables := db.tables + [table.id])],
                 tableIDToName := d.tableIDToName[table.id := Name(db.name, table.name)]),
              true, Name(db.name, table.name))
  }

  function ReplaceTable(full: bool, c: Catalog, version: int, schemaID: int, table: TableInfo): Outcome {
    if schemaID !in c.schemas || table.id !in c.tables then Outcome(c, false, NO_NAME)
    else Outcome(AppendInfo(full, c, version, table), true, Name(SchemaName(c, schemaID), table.name))
  }

  /** Drop the job's table and create it anew, as renaming and truncating do. */
  function Recreate(full: bool, c: Catalog, job: Job): Outcome {
    var r := RemoveTable(c, job.tableID, job.schemaID);
    if !r.ok || job.table == None then Outcome(r.catalog, false, NO_NAME)
    else AddTable(full, r.catalog, job.version, job.schemaID, job.table.value)
  }

  // ---------------------------------------------------------------- one job

  function Perform(full: bool, c: Catalog, job: Job): Outcome {
    match job.action
    case CreateSchema => AddSchema(c, job.db)
    case ModifySchema => SetSchema(c, job.db)
    case DropSchema => RemoveSchema(c, job.schemaID)
    case RenameTable =>
      if SchemaOfTable(c, job.tableID) == None then Outcome(c, false, NO_NAME) else Recreate(full, c, job)
    case CreateTable =>
      if job.table == None then Outcome(c, false, NO_NAME)
      else AddTable(full, c, job.version, job.schemaID, job.table.value)
    case DropTable =>
      if job.schemaID !in c.schemas then Outcome(c, false, NO_NAME) else RemoveTable(c, job.tableID, job.schemaID)
    case TruncateTable =>
      if job.schemaID !in c.schemas then Outcome(c, false, NO_NAME) else Recreate(full, c, job)
    case _ =>
      if job.table == None then Outcome(c, false, NO_NAME)
      else ReplaceTable(full, c, job.version, job.schemaID, job.table.value)
  }

  /** The job took effect. */
  function Finish(l: Log, job: Job, name: Name): Log {
    l.(named := l.named[job.version := name], current := job.version, applied := l.applied + [job.version],
       truncated := if job.action == TruncateTable then l.truncated + {job.tableID} else l.truncated,
       dropping := if job.action == DropColumn then l.dropping - {job.tableID} else l.dropping)
  }

  function HandleDDL(full: bool, s: Store, job: Job): Result {
    if !job.finished then Result(s, true)
    else if job.query == "" then Result(s, false)
    else
      var o := Perform(full, s.catalog, job);
      Result(Store(o.catalog, if o.ok then Finish(s.log, job, o.name) else s.log), o.ok)
  }

  /** One turn of the catching-up loop. */
  function Replay(full: bool, s: Store, job: Job): Result {
    if job.version <= s.log.current then Result(s, true)
    else if job.deleteOnly && job.action == DropColumn then
      Result(s.(log := s.log.(dropping := s.log.dropping + {job.tableID})), true)
    else if job.action == Unsupported then Result(s, true)
    else
      var r := HandleDDL(full, s, job);
      if r.ok then
        Result(r.store.(log := r.store.log.(tableVersion := r.store.log.tableVersion[job.tableID := job.version])), true)
      else r
  }

  // ---------------------------------------------------------------- catching up

  /** The store, the jobs left, the first being the one that failed if the replay is not ok. */
  datatype Progress = Progress(store: Store, jobs: seq<Job>, ok: bool)

  function CatchUp(full: bool, s: Store, jobs: seq<Job>, version: int): Progress
    decreases |jobs|
  {
    if jobs == [] || jobs[0].version > version then Progress(s, jobs, true)
    else
      var r := Replay(full, s, jobs[0]);
      if r.ok then CatchUp(full, r.store, jobs[1..], version) else Progress(r.store, jobs, false)
  }

  /** Catching up to a version, and then to a later one, is catching up to the later one at once,
      errors included. */
  lemma {:induction false} PathIndependent(full: bool, s: Store, jobs: seq<Job>, v1: int, v2: int)
    requires v1 <= v2
    ensures var p := CatchUp(full, s, jobs, v1);
            CatchUp(full, s, jobs, v2) == if p.ok then CatchUp(full, p.store, p.jobs, v2) else p
    decreases |jobs|
  {
    if jobs != [] && jobs[0].version <= v1 {
      var r := Replay(full, s, jobs[0]);
      if r.ok {
        PathIndependent(full, r.store, jobs[1..], v1, v2);
      }
    }
  }

  /** Catching up through a series of versions, until an error. */
  function CatchUpAll(full: bool, s: Store, jobs: seq<Job>, versions: seq<int>): Progress {
    if versions == [] then Progress(s, jobs, true)
    else
      var p := CatchUpAll(full, s, jobs, versions[..|versions| - 1]);
      if p.ok then CatchUp(full, p.store, p.jobs, versions[|versions| - 1]) else p
  }

  /** Main result: any increasing series of versions is as good as its last. */
  lemma {:induction false} SeriesIsLast(full: bool, s: Store, jobs: seq<Job>, versions: seq<int>)
    requires versions != [] && forall i, j :: 0 <= i < j < |versions| ==> versions[i] <= versions[j]
    ensures CatchUpAll(full, s, jobs, versions) == CatchUp(full, s, jobs, versions[|versions| - 1])
  {
    var init := versions[..|versions| - 1];
    if init == [] {
      assert CatchUpAll(full, s, jobs, init) == Progress(s, jobs, true);
    } else {
      SeriesIsLast(full, s, jobs, init);
      PathIndependent(full, s, jobs, init[|init| - 1], versions[|versions| - 1]);
    }
  }

  // ---------------------------------------------------------------- no job twice

  function WithJob(jobs: seq<Job>, job: Job): seq<Job> {
    if jobs == [] || jobs[|jobs| - 1].version < job.version then jobs + [job] else jobs
  }

  datatype Step = Add(job: Job) | Catch(version: int) | TakeName(version: int)

  /** The schema while it is kept; an error ends the run. */
  datatype Schema = Schema(store: Store, jobs: seq<Job>)

  function Apply(full: bool, s: Schema, step: Step): Option<Schema> {
    match step
    case Add(job) => Some(s.(jobs := WithJob(s.jobs, job)))
    case Catch(version) =>
      var p := CatchUp(full, s.store, s.jobs, version);
      if p.ok then Some(Schema(p.store, p.jobs)) else None
    case TakeName(version) =>
      var log := s.store.log;
      if version in log.named then Some(s.(store := s.store.(log := log.(named := log.named - {version})))) else None
  }

  ghost predicate Runs(full: bool, s: Schema, steps: seq<Step>, t: Schema)
    decreases |steps|
  {
    if steps == [] then s == t
    else Apply(full, s, steps[0]).Some? && Runs(full, Apply(full, s, steps[0]).value, steps[1..], t)
  }

  ghost predicate Rising(versions: seq<int>) {
    forall i, j :: 0 <= i < j < |versions| ==> versions[i] < versions[j]
  }

  /** The versions applied rise strictly, up to the current one. */
  ghost predicate AppliedInv(l: Log) {
    Rising(l.applied) && forall i :: 0 <= i < |l.applied| ==> l.applied[i] <= l.current
  }

  lemma ReplayApplied(full: bool, s: Store, job: Job)
    requires AppliedInv(s.log)
    ensures AppliedInv(Replay(full, s, job).store.log) && s.log.applied <= Replay(full, s, job).store.log.applied
  {
  }

  lemma {:induction false} CatchUpApplied(full: bool, s: Store, jobs: seq<Job>, version: int)
    requires AppliedInv(s.log)
    ensures AppliedInv(CatchUp(full, s, jobs, version).store.log)
    ensures s.log.applied <= CatchUp(full, s, jobs, version).store.log.applied
    decreases |jobs|
  {
    if jobs != [] && jobs[0].version <= version {
      ReplayApplied(full, s, jobs[0]);
      if Replay(full, s, jobs[0]).ok {
        CatchUpApplied(full, Replay(full, s, jobs[0]).store, jobs[1..], version);
      }
    }
  }

  lemma {:induction false} RunApplied(full: bool, s: Schema, steps: seq<Step>, t: Schema)
    requires AppliedInv(s.store.log) && Runs(full, s, steps, t)
    ensures AppliedInv(t.store.log) && s.store.log.applied <= t.store.log.applied
    decreases |steps|
  {
    if steps != [] {
      if steps[0].Catch? {
        CatchUpApplied(full, s.store, s.jobs, steps[0].version);
      }
      RunApplied(full, Apply(full, s, steps[0]).value, steps[1..], t);
    }
  }

  /** Main result: in every run, jobs added again included, no job is applied twice. */
  lemma NeverTwice(full: bool, jobs: seq<Job>, steps: seq<Step>, t: Schema)
    requires Runs(full, Schema(EMPTY, jobs), steps, t)
    ensures forall i, j :: 0 <= i < j < |t.store.log.applied| ==> t.store.log.applied[i] < t.store.log.applied[j]
  {
    RunApplied(full, Schema(EMPTY, jobs), steps, t);
  }

  // ---------------------------------------------------------------- two entries are enough

  /** The answer for a table at a schema version: the first definition not older than it. */
  function Lookup(entries: seq<Entry>, version: int): Option<Entry> {
    if entries == [] then None
    else if entries[0].version >= version then Some(entries[0])
    else Lookup(entries[1..], version)
  }

  ghost predicate RisingEntries(entries: seq<Entry>) {
    forall i, j :: 0 <= i < j < |entries| ==> entries[i].version < entries[j].version
  }

  /** The third newest entry, if there is one, is older than the version. */
  predicate Recent(entries: seq<Entry>, version: int) {
    |entries| > 2 ==> entries[|entries| - 3].version < version
  }

  /** The last two entries answer as the full history does exactly for recent versions. */
  lemma {:induction false} LookupKept(entries: seq<Entry>, version: int)
    requires RisingEntries(entries)
    ensures Lookup(Keep(false, entries), version) == Lookup(entries, version) <==> Recent(entries, version)
    decreases |entries|
  {
    if |entries| > 2 {
      if entries[0].version < version {
        LookupKept(entries[1..], version);
        assert |entries| > 3 ==> Keep(false, entries[1..]) == Keep(false, entries);
        assert |entries| == 3 ==> entries[1..] == Keep(false, entries);
      } else {
        var two := Keep(false, entries);
        assert two[0].version > entries[0].version;
      }
    }
  }

  function Trim(c: Catalog): Catalog {
    c.(tables := map id | id in c.tables :: Keep(false, c.tables[id]))
  }

  function TrimStore(s: Store): Store {
    s.(catalog := Trim(s.catalog))
  }

  lemma TrimAppend(c: Catalog, version: int, table: TableInfo)
    ensures Trim(AppendInfo(true, c, version, table)) == AppendInfo(false, Trim(c), version, table)
  {
    var e, old' := Entry(version, table), EntriesOf(c, table.id);
    assert EntriesOf(Trim(c), table.id) == Keep(false, old');
    assert Keep(false, Keep(false, old') + [e]) == Keep(false, old' + [e]);
  }

  lemma TrimRemoveTable(c: Catalog, id: int, schemaID: int)
    ensures RemoveTable(Trim(c), id, schemaID)
         == var o := RemoveTable(c, id, schemaID); o.(catalog := Trim(o.catalog))
  {
    assert Trim(c).tables - {id} == Trim(c.(tables := c.tables - {id})).tables;
  }

  lemma TrimAddTable(c: Catalog, version: int, schemaID: int, table: TableInfo)
    ensures AddTable(false, Trim(c), version, schemaID, table)
         == var o := AddTable(true, c, version, schemaID, table); o.(catalog := Trim(o.catalog))
  {
    TrimAppend(c, version, table);
  }

  lemma TrimRemoveSchema(c: Catalog, id: int)
    ensures RemoveSchema(Trim(c), id) == var o := RemoveSchema(c, id); o.(catalog := Trim(o.catalog))
  {
    if id in c.schemas {
      var gone := set t | t in c.schemas[id].tables;
      assert Trim(c).tables - gone == Trim(c.(tables := c.tables - gone)).tables;
    }
  }

  lemma TrimRecreate(c: Catalog, job: Job)
    ensures Recreate(false, Trim(c), job) == var o := Recreate(true, c, job); o.(catalog := Trim(o.catalog))
  {
    TrimRemoveTable(c, job.tableID, job.schemaID);
    if job.table != None {
      TrimAddTable(RemoveTable(c, job.tableID, job.schemaID).catalog, job.version, job.schemaID, job.table.value);
    }
  }

  lemma TrimReplaceTable(c: Catalog, version: int, schemaID: int, table: TableInfo)
    ensures ReplaceTable(false, Trim(c), version, schemaID, table)
         == var o := ReplaceTable(true, c, version, schemaID, table); o.(catalog := Trim(o.catalog))
  {
    TrimAppend(c, version, table);
  }

  lemma TrimSchemas(c: Catalog, db: DBInfo)
    ensures AddSchema(Trim(c), db) == var o := AddSchema(c, db); o.(catalog := Trim(o.catalog))
    ensures SetSchema(Trim(c), db) == var o := SetSchema(c, db); o.(catalog := Trim(o.catalog))
  {
  }

  /** A job has the same outcome whether the full histories are kept or only two entries. */
  lemma TrimPerform(c: Catalog, job: Job)
    ensures Perform(false, Trim(c), job) == var o := Perform(true, c, job); o.(catalog := Trim(o.catalog))
  {
    match job.action
    case CreateSchema => TrimSchemas(c, job.db);
    case ModifySchema => TrimSchemas(c, job.db);
    case DropSchema => TrimRemoveSchema(c, job.schemaID);
    case RenameTable => TrimRecreate(c, job);
    case CreateTable =>
      if job.table != None {
        TrimAddTable(c, job.version, job.schemaID, job.table.value);
      }
    case DropTable => TrimRemoveTable(c, job.tableID, job.schemaID);
    case TruncateTable => TrimRecreate(c, job);
    case _ =>
      if job.table != None {
        TrimReplaceTable(c, job.version, job.schemaID, job.table.value);
      }
  }

  lemma TrimReplay(s: Store, job: Job)
    ensures Replay(false, TrimStore(s), job) == var r := Replay(true, s, job); r.(store := TrimStore(r.store))
  {
    TrimPerform(s.catalog, job);
  }

  lemma {:induction false} TrimCatchUp(s: Store, jobs: seq<Job>, version: int)
    ensures CatchUp(false, TrimStore(s), jobs, version)
         == var p := CatchUp(true, s, jobs, version); p.(store := TrimStore(p.store))
    decreases |jobs|
  {
    if jobs != [] && jobs[0].version <= version {
      TrimReplay(s, jobs[0]);
      if Replay(true, s, jobs[0]).ok {
        TrimCatchUp(Replay(true, s, jobs[0]).store, jobs[1..], version);
      }
    }
  }

  function TrimSchema(s: Schema): Schema {
    s.(store := TrimStore(s.store))
  }

  /** Any run with full histories is a run with two entries, step by step. */
  lemma {:induction false} RunTrimmed(s: Schema, steps: seq<Step>, t: Schema)
    requires Runs(true, s, steps, t)
    ensures Runs(false, TrimSchema(s), steps, TrimSchema(t))
    decreases |steps|
  {
    if steps != [] {
      if steps[0].Catch? {
        TrimCatchUp(s.store, s.jobs, steps[0].version);
      }
      RunTrimmed(Apply(true, s, steps[0]).value, steps[1..], t);
    }
  }

  /** Every full history rises, up to the current version. */
  ghost predicate HistoryInv(c: Catalog, current: int) {
    forall id :: id in c.tables ==> RisingEntries(c.tables[id]) && NotAbove(c.tables[id], current)
  }

  ghost predicate NotAbove(entries: seq<Entry>, current: int) {
    forall i :: 0 <= i < |entries| ==> entries[i].version <= current
  }

  lemma AppendHistory(c: Catalog, current: int, version: int, table: TableInfo)
    requires HistoryInv(c, current) && current < version
    ensures HistoryInv(AppendInfo(true, c, version, table), version)
  {
    var entries := EntriesOf(c, table.id);
    assert RisingEntries(entries) && NotAbove(entries, current);
  }

  lemma PerformHistory(c: Catalog, current: int, job: Job)
    requires HistoryInv(c, current) && current < job.version
    ensures HistoryInv(Perform(true, c, job).catalog, job.version)
  {
    assert HistoryInv(c, job.version);
    if job.table != None {
      AppendHistory(c, current, job.version, job.table.value);
      var d := RemoveTable(c, job.tableID, job.schemaID).catalog;
      AppendHistory(d, current, job.version, job.table.value);
    }
  }

  lemma ReplayHistory(s: Store, job: Job)
    requires HistoryInv(s.catalog, s.log.current)
    ensures Replay(true, s, job).ok ==>
              HistoryInv(Replay(true, s, job).store.catalog, Replay(true, s, job).store.log.current)
  {
    if s.log.current < job.version {
      PerformHistory(s.catalog, s.log.current, job);
    }
  }

  lemma {:induction false} CatchUpHistory(s: Store, jobs: seq<Job>, version: int)
    requires HistoryInv(s.catalog, s.log.current)
    ensures CatchUp(true, s, jobs, version).ok ==>
              HistoryInv(CatchUp(true, s, jobs, version).store.catalog, CatchUp(true, s, jobs, version).store.log.current)
    decreases |jobs|
  {
    if jobs != [] && jobs[0].version <= version {
      ReplayHistory(s, jobs[0]);
      if Replay(true, s, jobs[0]).ok {
        CatchUpHistory(Replay(true, s, jobs[0]).store, jobs[1..], version);
      }
    }
  }

  lemma {:induction false} RunHistory(s: Schema, steps: seq<Step>, t: Schema)
    requires HistoryInv(s.store.catalog, s.store.log.current) && Runs(true, s, steps, t)
    ensures HistoryInv(t.store.catalog, t.store.log.current)
    decreases |steps|
  {
    if steps != [] {
      if steps[0].Catch? {
        CatchUpHistory(s.store, s.jobs, steps[0].version);
      }
      RunHistory(Apply(true, s, steps[0]).value, steps[1..], t);
    }
  }

  /** Main result: in every run, keeping two entries per table answers for a table and version as
      the full history does if and only if the version is above the third newest entry. */
  lemma HistoryExact(jobs: seq<Job>, steps: seq<Step>, t: Schema, id: int, version: int)
    requires Runs(true, Schema(EMPTY, jobs), steps, t)
    ensures Runs(false, Schema(EMPTY, jobs), steps, TrimSchema(t))
    ensures Lookup(EntriesOf(TrimSchema(t).store.catalog, id), version) == Lookup(EntriesOf(t.store.catalog, id), version)
       <==> Recent(EntriesOf(t.store.catalog, id), version)
  {
    RunTrimmed(Schema(EMPTY, jobs), steps, t);
    assert TrimStore(EMPTY) == EMPTY;
    RunHistory(Schema(EMPTY, jobs), steps, t);
    LookupKept(EntriesOf(t.store.catalog, id), version);
  }

  // ---------------------------------------------------------------- the schema object

  class SchemaKeeper {
    var store: Store
    var jobs: seq<Job>

    constructor (jobs: seq<Job>)
      ensures store == EMPTY && this.jobs == jobs
    {
      store, this.jobs := EMPTY, jobs;
    }

    method AddJob(job: Job)
      modifies this
      ensures store == old(store) && jobs == WithJob(old(jobs), job)
      ensures jobs == old(jobs) + [job] || (jobs == old(jobs) != [] && jobs[|jobs| - 1].version >= job.version)
      ensures |jobs| >= 2 && jobs != old(jobs) ==> jobs[|jobs| - 2].version < job.version
    {
      if |jobs| == 0 || jobs[|jobs| - 1].version < job.version {
        jobs := jobs + [job];
      }
    }

    method AppendTableInfo(schemaVersion: int, table: TableInfo)
      modifies this
      ensures jobs == old(jobs) && store == old(store).(catalog := AppendInfo(false, old(store.catalog), schemaVersion, table))
    {
      var tbls := EntriesOf(store.catalog, table.id);
      tbls := tbls + [Entry(schemaVersion, table)];
      if |tbls| > 2 {
        tbls := tbls[|tbls| - 2..];
      }
      store := store.(catalog := store.catalog.(tables := store.catalog.tables[table.id := tbls]));
    }

    method TableBySchemaVersion(id: int, schemaVersion: int) returns (r: Option<TableInfo>)
      ensures r == match Lookup(EntriesOf(store.catalog, id), schemaVersion)
                   case None => None
                   case Some(e) => Some(e.info)
    {
      var tbls := EntriesOf(store.catalog, id);
      for i := 0 to |tbls|
        invariant Lookup(tbls[i..], schemaVersion) == Lookup(tbls, schemaVersion)
      {
        if tbls[i].version >= schemaVersion {
          return Some(tbls[i].info);
        }
        assert tbls[i..][1..] == tbls[i + 1..];
      }
      return None;
    }

    /** The jobs replayed are dropped, unless one fails. */
    method HandlePreviousDDLJobIfNeed(version: int) returns (ok: bool)
      modifies this
      ensures var p := CatchUp(false, old(store), old(jobs), version);
              ok == p.ok && store == p.store && jobs == if ok then p.jobs else old(jobs)
    {
      var i := 0;
      while i < |jobs|
        invariant 0 <= i <= |jobs| && jobs == old(jobs)
        invariant CatchUp(false, store, jobs[i..], version) == CatchUp(false, old(store), jobs, version)
      {
        var job := jobs[i];
        if job.version > version {
          break;
        }
        assert jobs[i..][1..] == jobs[i + 1..];
        var r := Replay(false, store, job);
        store := r.store;
        if !r.ok {
          return false;
        }
        i := i + 1;
      }
      jobs := jobs[i..];
      return true;
    }
  }
}
