/** The table manager: DDL calls, catalog introspection, and the
    `tableSchemas` cache in front of `getTableSchema`. The cache maps the key
    `dbId + '-' + tableName` to the last introspected schema. `getTableSchema`
    fills it on a miss; the five column- and table-changing calls evict their
    key once they return normally; `dropForeignKey`, `listTables` and
    `getTableRelationships` leave it alone. */
module TableManager {
  import opened Outcomes
  import opened JavaText
  import opened Dto
  import opened Engine
  import Ddl

  // ---------------------------------------------------------------- cache key

  type SchemaCache = map<string, TableSchemaResponse>

  /** The cache key expression `#dbId + '-' + #tableName`. */
  function CacheKey(dbId: int, tableName: string): string
  {
    LongToString(dbId) + "-" + tableName
  }

  /** Reads the instance id and table name back out of a cache key. */
  function ParseCacheKey(key: string): Option<(int, string)>
  {
    var signed := |key| > 0 && key[0] == '-';
    var body := if signed then key[1..] else key;
    match SplitAt(body, '-')
    case None => None
    case Some((digits, table)) =>
      match ParseLong(if signed then "-" + digits else digits)
      case None => None
      case Some(id) => Some((id, table))
  }

  /** A key determines its instance id and table name, whatever the table name holds. */
  lemma CacheKeyRoundTrip(dbId: int, tableName: string)
    requires IsLong(dbId)
    ensures ParseCacheKey(CacheKey(dbId, tableName)) == Some((dbId, tableName))
  {
    var s := LongToString(dbId);
    var key := CacheKey(dbId, tableName);
    LongRoundTrip(dbId);
    if dbId < 0 {
      assert key[1..] == s[1..] + ['-'] + tableName;
      SplitAtGlue(s[1..], tableName, '-');
      assert "-" + s[1..] == s;
    } else {
      assert key == s + ['-'] + tableName;
      SplitAtGlue(s, tableName, '-');
    }
  }

  /** Distinct (instance, table) pairs never share a cache entry. */
  lemma CacheKeyInjective(d1: int, t1: string, d2: int, t2: string)
    requires IsLong(d1) && IsLong(d2)
    requires CacheKey(d1, t1) == CacheKey(d2, t2)
    ensures d1 == d2 && t1 == t2
  {
    CacheKeyRoundTrip(d1, t1);
    CacheKeyRoundTrip(d2, t2);
  }

  // ---------------------------------------------------------------- introspection

  /** One row of `DatabaseMetaData.getColumns`. */
  datatype CatalogColumn = CatalogColumn(name: string, typeName: string, size: int, isNullable: Option<string>)

  /** What the two catalog reads of `getTableSchema` return: the primary-key
      column names and the column rows, or the SQLException message. */
  datatype SchemaCatalog =
    | SchemaCatalogFailed(message: string)
    | SchemaCatalogRows(primaryKeys: seq<string>, columns: seq<CatalogColumn>)

  /** One row of `DatabaseMetaData.getImportedKeys`. */
  datatype ImportedKeyRow = ImportedKeyRow(
    fkName: Option<string>, fkTable: Option<string>, fkColumn: Option<string>,
    pkTable: Option<string>, pkColumn: Option<string>)

  /** `"YES".equalsIgnoreCase(IS_NULLABLE)`; a null value is not "YES". */
  predicate CatalogSaysNullable(isNullable: Option<string>) {
    isNullable.Some? && EqualsIgnoreCase("YES", isNullable.value)
  }

  /** Character types get their size appended; every other type is kept verbatim. */
  predicate IsSizedType(typeName: string) {
    EqualsIgnoreCase(typeName, "varchar") || EqualsIgnoreCase(typeName, "char")
  }

  /** The column definition built from one catalog row. The `isNullable`
      field receives the negation of what the catalog reports. */
  function MapColumn(c: CatalogColumn, primaryKeys: set<string>): (r: ColumnDefinition)
    ensures r.name == c.name
    ensures IsSizedType(c.typeName) ==> r.dataType == c.typeName + "(" + LongToString(c.size) + ")"
    ensures !IsSizedType(c.typeName) ==> r.dataType == c.typeName
    ensures r.isPrimaryKey <==> c.name in primaryKeys
    ensures r.isNullable <==> !CatalogSaysNullable(c.isNullable)
    ensures !r.isUnique
  {
    var dataType := if IsSizedType(c.typeName) then c.typeName + "(" + LongToString(c.size) + ")" else c.typeName;
    ColumnDefinition(c.name, dataType, c.name in primaryKeys, !CatalogSaysNullable(c.isNullable), false)
  }

  function MapColumns(cols: seq<CatalogColumn>, primaryKeys: set<string>): (r: seq<ColumnDefinition>)
    ensures |r| == |cols|
    ensures forall i :: 0 <= i < |cols| ==> r[i] == MapColumn(cols[i], primaryKeys)
  {
    seq(|cols|, i requires 0 <= i < |cols| => MapColumn(cols[i], primaryKeys))
  }

  /** Feeding an introspected column back to the DDL builder flips its
      nullability: a column the catalog reports nullable comes back as
      `NOT NULL`, and a NOT NULL one comes back without it. */
  lemma IntrospectionInvertsNullability(c: CatalogColumn, primaryKeys: set<string>)
    ensures var clause := Ddl.ColumnClause(MapColumn(c, primaryKeys));
            var typ := MapColumn(c, primaryKeys).dataType;
            && (CatalogSaysNullable(c.isNullable) ==> clause == c.name + " " + typ + " NOT NULL")
            && (!CatalogSaysNullable(c.isNullable) ==> clause == c.name + " " + typ)
  {
  }

  /** The uncached body of `getTableSchema`. */
  function Introspect(repo: Repository, catalog: SchemaCatalog, dbId: int, tableName: string): (r: Result<TableSchemaResponse>)
    ensures dbId !in repo ==> r == Threw(FindInstance(repo, dbId).thrown)
    ensures dbId in repo && catalog.SchemaCatalogFailed? ==> r == Threw(RuntimeFailure("Failed to get table schema: " + catalog.message))
    ensures dbId in repo && catalog.SchemaCatalogRows? && |catalog.columns| == 0 ==>
              r == Threw(ResourceNotFound("Table '" + tableName + "' not found in database ID " + LongToString(dbId)))
    ensures r.Ok? <==> dbId in repo && catalog.SchemaCatalogRows? && |catalog.columns| > 0
    ensures r.Ok? ==> r.value.tableName == tableName
                      && r.value.columns == MapColumns(catalog.columns, set k | k in catalog.primaryKeys)
  {
    match FindInstance(repo, dbId)
    case Threw(e) => Threw(e)
    case Ok(_) =>
      match catalog
      case SchemaCatalogFailed(m) => Threw(RuntimeFailure("Failed to get table schema: " + m))
      case SchemaCatalogRows(pks, cols) =>
        if |cols| == 0 then Threw(ResourceNotFound("Table '" + tableName + "' not found in database ID " + LongToString(dbId)))
        else Ok(TableSchemaResponse(tableName, MapColumns(cols, set k | k in pks)))
  }

  // ---------------------------------------------------------------- the calls

  /** Runs the statements of one DDL call; an SQLException becomes
      InvalidInputException with the call's message prefix. */
  function RunDdl(link: Link, stmts: seq<string>, prefix: string): (r: Result<Unit>)
    ensures r.Ok? <==> link.openError.None? && forall i :: 0 <= i < |stmts| ==> link.run(stmts[i]).None?
    ensures link.openError.Some? ==> r == Threw(InvalidInput(prefix + link.openError.value))
    ensures link.openError.None? && r.Threw? ==>
              exists i :: 0 <= i < |stmts| && link.run(stmts[i]).Some?
                          && r.thrown == InvalidInput(prefix + link.run(stmts[i]).value)
                          && forall j :: 0 <= j < i ==> link.run(stmts[j]).None?
  {
    match RunScript(link, stmts)
    case None => Ok(Unit)
    case Some(m) => Threw(InvalidInput(prefix + m))
  }

  /** `@CacheEvict` with its default timing: the entry goes only when the
      method returns normally. */
  function EvictAfter<T>(cache: SchemaCache, key: string, r: Result<T>): (c: SchemaCache)
    ensures r.Ok? ==> key !in c
    ensures r.Threw? ==> c == cache
    ensures forall k :: k != key ==> (k in c <==> k in cache) && (k in c ==> c[k] == cache[k])
  {
    if r.Ok? then cache - {key} else cache
  }

  /** `createTable`. A null column list fails while the text is being built,
      before any connection is opened. */
  function CreateTable(cache: SchemaCache, repo: Repository, link: Link, dbId: int, req: CreateTableRequest): (r: (Result<Unit>, SchemaCache))
    ensures r.0.Ok? <==> dbId in repo && req.columns.Some? && link.openError.None?
                         && link.run(Ddl.CreateTableSql(req.tableName, req.columns.value, req.foreignKeys)).None?
    ensures dbId !in repo ==> r.0 == Threw(FindInstance(repo, dbId).thrown)
    ensures dbId in repo && req.columns.None? ==> r.0 == Threw(NullPointer)
    ensures dbId in repo && req.columns.Some? && r.0.Threw? ==> FailsWithPrefix(r.0, "Failed to create table: ")
    ensures r.0.Ok? ==> CacheKey(dbId, Show(req.tableName)) !in r.1
    ensures r.0.Threw? ==> r.1 == cache
  {
    var r :=
      match FindInstance(repo, dbId)
      case Threw(e) => Threw(e)
      case Ok(_) =>
        if req.columns.None? then Threw(NullPointer)
        else RunDdl(link, [Ddl.CreateTableSql(req.tableName, req.columns.value, req.foreignKeys)], "Failed to create table: ");
    (r, EvictAfter(cache, CacheKey(dbId, Show(req.tableName)), r))
  }

  function DeleteTable(cache: SchemaCache, repo: Repository, link: Link, dbId: int, tableName: string): (r: (Result<Unit>, SchemaCache))
    ensures r.0.Ok? <==> dbId in repo && link.openError.None? && link.run(Ddl.DropTableSql(tableName)).None?
    ensures dbId !in repo ==> r.0 == Threw(FindInstance(repo, dbId).thrown)
    ensures dbId in repo && r.0.Threw? ==> FailsWithPrefix(r.0, "Failed to delete table '" + tableName + "': ")
    ensures r.0.Ok? ==> CacheKey(dbId, tableName) !in r.1
    ensures r.0.Threw? ==> r.1 == cache
  {
    var r :=
      match FindInstance(repo, dbId)
      case Threw(e) => Threw(e)
      case Ok(_) => RunDdl(link, [Ddl.DropTableSql(tableName)], "Failed to delete table '" + tableName + "': ");
    (r, EvictAfter(cache, CacheKey(dbId, tableName), r))
  }

  function AddColumn(cache: SchemaCache, repo: Repository, link: Link, dbId: int, tableName: string, column: ColumnDefinition): (r: (Result<Unit>, SchemaCache))
    ensures r.0.Ok? <==> dbId in repo && link.openError.None? && link.run(Ddl.AddColumnSql(tableName, column)).None?
    ensures dbId !in repo ==> r.0 == Threw(FindInstance(repo, dbId).thrown)
    ensures dbId in repo && r.0.Threw? ==>
              FailsWithPrefix(r.0, "Failed to add column '" + column.name + "' to table '" + tableName + "': ")
    ensures r.0.Ok? ==> CacheKey(dbId, tableName) !in r.1
    ensures r.0.Threw? ==> r.1 == cache
  {
    var r :=
      match FindInstance(repo, dbId)
      case Threw(e) => Threw(e)
      case Ok(_) =>
        RunDdl(link, [Ddl.AddColumnSql(tableName, column)],
               "Failed to add column '" + column.name + "' to table '" + tableName + "': ");
    (r, EvictAfter(cache, CacheKey(dbId, tableName), r))
  }

  /** `modifyColumn`: the rename, retype and nullability ALTERs on one
      connection, stopping at the first that fails. */
  function ModifyColumn(cache: SchemaCache, repo: Repository, link: Link, dbId: int, tableName: string, oldName: string, req: ModifyColumnRequest): (r: (Result<Unit>, SchemaCache))
    ensures var stmts := Ddl.ModifyColumnSql(tableName, oldName, req);
            r.0.Ok? <==> dbId in repo && link.openError.None? && forall i :: 0 <= i < |stmts| ==> link.run(stmts[i]).None?
    ensures dbId !in repo ==> r.0 == Threw(FindInstance(repo, dbId).thrown)
    ensures dbId in repo && r.0.Threw? ==>
              FailsWithPrefix(r.0, "Failed to modify column '" + oldName + "' in table '" + tableName + "': ")
    ensures r.0.Ok? ==> CacheKey(dbId, tableName) !in r.1
    ensures r.0.Threw? ==> r.1 == cache
  {
    var r :=
      match FindInstance(repo, dbId)
      case Threw(e) => Threw(e)
      case Ok(_) =>
        RunDdl(link, Ddl.ModifyColumnSql(tableName, oldName, req),
               "Failed to modify column '" + oldName + "' in table '" + tableName + "': ");
    (r, EvictAfter(cache, CacheKey(dbId, tableName), r))
  }

  function DeleteColumn(cache: SchemaCache, repo: Repository, link: Link, dbId: int, tableName: string, columnName: string): (r: (Result<Unit>, SchemaCache))
    ensures r.0.Ok? <==> dbId in repo && link.openError.None? && link.run(Ddl.DropColumnSql(tableName, columnName)).None?
    ensures dbId !in repo ==> r.0 == Threw(FindInstance(repo, dbId).thrown)
    ensures dbId in repo && r.0.Threw? ==>
              FailsWithPrefix(r.0, "Failed to delete column '" + columnName + "' from table '" + tableName + "': ")
    ensures r.0.Ok? ==> CacheKey(dbId, tableName) !in r.1
    ensures r.0.Threw? ==> r.1 == cache
  {
    var r :=
      match FindInstance(repo, dbId)
      case Threw(e) => Threw(e)
      case Ok(_) =>
        RunDdl(link, [Ddl.DropColumnSql(tableName, columnName)],
               "Failed to delete column '" + columnName + "' from table '" + tableName + "': ");
    (r, EvictAfter(cache, CacheKey(dbId, tableName), r))
  }

  /** `dropForeignKey` carries no cache annotation. */
  function DropForeignKey(repo: Repository, link: Link, dbId: int, tableName: string, constraintName: string): (r: Result<Unit>)
    ensures r.Ok? <==> dbId in repo && link.openError.None? && link.run(Ddl.DropConstraintSql(tableName, constraintName)).None?
    ensures dbId !in repo ==> r == Threw(FindInstance(repo, dbId).thrown)
    ensures dbId in repo && r.Threw? ==>
              FailsWithPrefix(r, "Failed to drop foreign key constraint '" + constraintName + "' from table '" + tableName + "': ")
  {
    match FindInstance(repo, dbId)
    case Threw(e) => Threw(e)
    case Ok(_) =>
      RunDdl(link, [Ddl.DropConstraintSql(tableName, constraintName)],
             "Failed to drop foreign key constraint '" + constraintName + "' from table '" + tableName + "': ")
  }

  function ListTables(repo: Repository, tables: Rows<string>, dbId: int): (r: Result<seq<string>>)
    ensures r.Ok? <==> dbId in repo && tables.RowsRead?
    ensures r.Ok? ==> r.value == tables.rows
    ensures dbId !in repo ==> r == Threw(FindInstance(repo, dbId).thrown)
    ensures dbId in repo && tables.RowsFailed? ==> r == Threw(RuntimeFailure("Failed to list tables: " + tables.message))
  {
    match FindInstance(repo, dbId)
    case Threw(e) => Threw(e)
    case Ok(_) =>
      match tables
      case RowsFailed(m) => Threw(RuntimeFailure("Failed to list tables: " + m))
      case RowsRead(names) => Ok(names)
  }

  /** `getTableRelationships`: one relationship per imported-key row, in order. */
  function GetTableRelationships(repo: Repository, keys: Rows<ImportedKeyRow>, dbId: int, tableName: string): (r: Result<seq<TableRelationship>>)
    ensures r.Ok? <==> dbId in repo && keys.RowsRead?
    ensures r.Ok? ==> |r.value| == |keys.rows|
    ensures dbId in repo && keys.RowsFailed? ==>
              r == Threw(RuntimeFailure("Failed to get relationships for table '" + tableName + "': " + keys.message))
    ensures r.Ok? ==> forall i :: 0 <= i < |keys.rows| ==>
              r.value[i] == TableRelationship(keys.rows[i].fkName, keys.rows[i].fkTable, keys.rows[i].fkColumn,
                                              keys.rows[i].pkTable, keys.rows[i].pkColumn)
  {
    match FindInstance(repo, dbId)
    case Threw(e) => Threw(e)
    case Ok(_) =>
      match keys
      case RowsFailed(m) => Threw(RuntimeFailure("Failed to get relationships for table '" + tableName + "': " + m))
      case RowsRead(rows) =>
        Ok(seq(|rows|, i requires 0 <= i < |rows| =>
          TableRelationship(rows[i].fkName, rows[i].fkTable, rows[i].fkColumn, rows[i].pkTable, rows[i].pkColumn)))
  }

  /** `@Cacheable getTableSchema`: a hit answers from the cache without
      touching the engine; a miss introspects and caches only a normal return. */
  function GetTableSchema(cache: SchemaCache, repo: Repository, catalog: SchemaCatalog, dbId: int, tableName: string): (r: (Result<TableSchemaResponse>, SchemaCache))
    ensures var key := CacheKey(dbId, tableName);
            && (key in cache ==> r.0 == Ok(cache[key]) && r.1 == cache)
            && (key !in cache ==> r.0 == Introspect(repo, catalog, dbId, tableName))
            && (key in r.1 <==> key in cache || r.0.Ok?)
            && (r.0.Ok? ==> r.1[key] == r.0.value)
            && (forall k :: k != key ==> (k in r.1 <==> k in cache) && (k in cache ==> r.1[k] == cache[k]))
  {
    var key := CacheKey(dbId, tableName);
    if key in cache then (Ok(cache[key]), cache)
    else
      var r := Introspect(repo, catalog, dbId, tableName);
      (r, if r.Ok? then cache[key := r.value] else cache)
  }

  // ---------------------------------------------------------------- as a state machine

  datatype SchemaCall =
    | CreateTableCall(dbId: int, request: CreateTableRequest)
    | DeleteTableCall(dbId: int, tableName: string)
    | AddColumnCall(dbId: int, tableName: string, column: ColumnDefinition)
    | ModifyColumnCall(dbId: int, tableName: string, oldName: string, modification: ModifyColumnRequest)
    | DeleteColumnCall(dbId: int, tableName: string, columnName: string)
    | DropForeignKeyCall(dbId: int, tableName: string, constraintName: string)
    | ListTablesCall(dbId: int)
    | RelationshipsCall(dbId: int, tableName: string)
    | GetSchemaCall(dbId: int, tableName: string)

  /** Everything outside the process a call may consult. */
  datatype World = World(
    repo: Repository,
    link: Link,
    tables: Rows<string>,
    schema: SchemaCatalog,
    importedKeys: Rows<ImportedKeyRow>)

  datatype Reply =
    | Done(done: Result<Unit>)
    | TableNames(names: Result<seq<string>>)
    | Schema(schema: Result<TableSchemaResponse>)
    | Relationships(relationships: Result<seq<TableRelationship>>)

  /** The table a call addresses, as its cache key names it. */
  function CallTable(c: SchemaCall): string
    requires !c.ListTablesCall?
  {
    if c.CreateTableCall? then Show(c.request.tableName) else c.tableName
  }

  /** The five calls annotated with `@CacheEvict`. */
  predicate Evicts(c: SchemaCall) {
    c.CreateTableCall? || c.DeleteTableCall? || c.AddColumnCall? || c.ModifyColumnCall? || c.DeleteColumnCall?
  }

  predicate Succeeded(r: Reply) {
    match r
    case Done(x) => x.Ok?
    case TableNames(x) => x.Ok?
    case Schema(x) => x.Ok?
    case Relationships(x) => x.Ok?
  }

  /** One service call against the cache. */
  function Step(cache: SchemaCache, c: SchemaCall, w: World): (Reply, SchemaCache)
  {
    match c
    case CreateTableCall(d, req) => var (r, c2) := CreateTable(cache, w.repo, w.link, d, req); (Done(r), c2)
    case DeleteTableCall(d, t) => var (r, c2) := DeleteTable(cache, w.repo, w.link, d, t); (Done(r), c2)
    case AddColumnCall(d, t, col) => var (r, c2) := AddColumn(cache, w.repo, w.link, d, t, col); (Done(r), c2)
    case ModifyColumnCall(d, t, o, req) => var (r, c2) := ModifyColumn(cache, w.repo, w.link, d, t, o, req); (Done(r), c2)
    case DeleteColumnCall(d, t, col) => var (r, c2) := DeleteColumn(cache, w.repo, w.link, d, t, col); (Done(r), c2)
    case DropForeignKeyCall(d, t, k) => (Done(DropForeignKey(w.repo, w.link, d, t, k)), cache)
    case ListTablesCall(d) => (TableNames(ListTables(w.repo, w.tables, d)), cache)
    case RelationshipsCall(d, t) => (Relationships(GetTableRelationships(w.repo, w.importedKeys, d, t)), cache)
    case GetSchemaCall(d, t) => var (r, c2) := GetTableSchema(cache, w.repo, w.schema, d, t); (Schema(r), c2)
  }

  /** No entry other than `key` appears, disappears or changes. */
  ghost predicate OthersUnchanged(before: SchemaCache, after: SchemaCache, key: string) {
    forall k :: k != key ==> (k in after <==> k in before) && (k in after ==> after[k] == before[k])
  }

  /** The cache discipline of one call: an evicting call that returns
      normally removes its key and a throwing one changes nothing; the calls
      without cache annotation change nothing; a schema read only ever adds
      its own key; and no call touches another key. */
  lemma StepCacheDiscipline(cache: SchemaCache, c: SchemaCall, w: World)
    ensures var (reply, after) := Step(cache, c, w);
            && (Evicts(c) && Succeeded(reply) ==> CacheKey(c.dbId, CallTable(c)) !in after)
            && (Evicts(c) && !Succeeded(reply) ==> after == cache)
            && (!Evicts(c) && !c.GetSchemaCall? ==> after == cache)
            && (c.GetSchemaCall? ==> cache.Keys <= after.Keys && forall k :: k in cache ==> after[k] == cache[k])
            && (!c.ListTablesCall? ==> OthersUnchanged(cache, after, CacheKey(c.dbId, CallTable(c))))
  {
    if Evicts(c) {
      EvictingStep(cache, c, w);
    } else if c.GetSchemaCall? {
      var key := CacheKey(c.dbId, c.tableName);
      assert OthersUnchanged(cache, Step(cache, c, w).1, key);
    }
  }

  /** An evicting call's cache is `EvictAfter` of its own outcome. */
  lemma EvictingStep(cache: SchemaCache, c: SchemaCall, w: World)
    requires Evicts(c)
    ensures Step(cache, c, w).0.Done?
    ensures Step(cache, c, w).1 == EvictAfter(cache, CacheKey(c.dbId, CallTable(c)), Step(cache, c, w).0.done)
  {
  }

  /** A hit answers with the cached schema whatever the engine now holds; a
      miss answers exactly what introspection of the engine gives. */
  lemma SchemaReadHitOrMiss(cache: SchemaCache, repo: Repository, catalog: SchemaCatalog, dbId: int, tableName: string)
    ensures var (r, after) := GetTableSchema(cache, repo, catalog, dbId, tableName);
            var key := CacheKey(dbId, tableName);
            && (key in cache ==> r == Ok(cache[key]) && after == cache)
            && (key !in cache ==> r == Introspect(repo, catalog, dbId, tableName)
                                  && (r.Ok? <==> key in after)
                                  && (r.Ok? ==> after[key] == r.value))
  {
  }

  /** After a successful evicting call on a table, the next schema read of
      that table re-derives it from the engine. */
  lemma ReadAfterDdlRederives(cache: SchemaCache, c: SchemaCall, w: World, w2: World)
    requires Evicts(c) && Succeeded(Step(cache, c, w).0)
    ensures GetTableSchema(Step(cache, c, w).1, w2.repo, w2.schema, c.dbId, CallTable(c)).0
            == Introspect(w2.repo, w2.schema, c.dbId, CallTable(c))
  {
    StepCacheDiscipline(cache, c, w);
  }

  /** `dropForeignKey` leaves a cached schema in place: the next read returns
      the snapshot taken before the constraint was dropped, whatever the
      engine reports now. */
  lemma DropForeignKeyKeepsSnapshot(cache: SchemaCache, w: World, w2: World, dbId: int, tableName: string, constraint: string)
    requires CacheKey(dbId, tableName) in cache
    ensures var after := Step(cache, DropForeignKeyCall(dbId, tableName, constraint), w).1;
            GetTableSchema(after, w2.repo, w2.schema, dbId, tableName).0 == Ok(cache[CacheKey(dbId, tableName)])
  {
  }

  /** Runs a trace of calls, each against its own view of the world. */
  function RunTrace(cache: SchemaCache, trace: seq<(SchemaCall, World)>): SchemaCache
    decreases |trace|
  {
    if |trace| == 0 then cache
    else RunTrace(Step(cache, trace[0].0, trace[0].1).1, trace[1..])
  }

  /** Once a key is absent it stays absent until a schema read of that very
      (instance, table) pair: reads of other pairs cannot fill it because keys
      are injective, and no other call ever adds an entry. */
  lemma {:induction false} AbsentUntilReread(cache: SchemaCache, trace: seq<(SchemaCall, World)>, dbId: int, tableName: string)
    requires IsLong(dbId) && CacheKey(dbId, tableName) !in cache
    requires forall i :: 0 <= i < |trace| ==> IsLong(trace[i].0.dbId)
    requires forall i :: 0 <= i < |trace| ==> trace[i].0 != GetSchemaCall(dbId, tableName)
    ensures CacheKey(dbId, tableName) !in RunTrace(cache, trace)
    decreases |trace|
  {
    if |trace| > 0 {
      var (c, w) := trace[0];
      var next := Step(cache, c, w).1;
      StepCacheDiscipline(cache, c, w);
      if c.GetSchemaCall? && CacheKey(c.dbId, c.tableName) == CacheKey(dbId, tableName) {
        CacheKeyInjective(c.dbId, c.tableName, dbId, tableName);
      }
      assert CacheKey(dbId, tableName) !in next;
      AbsentUntilReread(next, trace[1..], dbId, tableName);
    }
  }

  /** The coherence promise over any run: after a successful evicting call on
      a table, whatever calls follow, the table's key is absent until a schema
      read of that table, so that read goes to the engine. */
  lemma DdlThenTrace(cache: SchemaCache, c: SchemaCall, w: World, trace: seq<(SchemaCall, World)>)
    requires Evicts(c) && IsLong(c.dbId) && Succeeded(Step(cache, c, w).0)
    requires forall i :: 0 <= i < |trace| ==> IsLong(trace[i].0.dbId)
    requires forall i :: 0 <= i < |trace| ==> trace[i].0 != GetSchemaCall(c.dbId, CallTable(c))
    ensures CacheKey(c.dbId, CallTable(c)) !in RunTrace(Step(cache, c, w).1, trace)
  {
    StepCacheDiscipline(cache, c, w);
    AbsentUntilReread(Step(cache, c, w).1, trace, c.dbId, CallTable(c));
  }
}
