/** The DDL text the table manager sends to PostgreSQL: CREATE TABLE with its
    column, primary-key and foreign-key clauses, the single-statement ALTER and
    DROP templates, the ordered ALTER sequence of a column modification, and
    the JDBC URL of an instance. Names are interpolated verbatim. */
module Ddl {
  import opened Outcomes
  import opened JavaText
  import opened Dto

  // ---------------------------------------------------------------- clauses

  /** The clause for one column: name and type, then ` NOT NULL` when the
      column is not nullable, then ` UNIQUE` when it is unique. */
  function ColumnClause(c: ColumnDefinition): string
  {
    c.name + " " + c.dataType + (if !c.isNullable then " NOT NULL" else "") + (if c.isUnique then " UNIQUE" else "")
  }

  /** The column clause starts with name and type; what follows is one of the
      four modifier suffixes, chosen by nullability and uniqueness alone. */
  lemma ColumnClauseModifiers(c: ColumnDefinition)
    ensures ColumnClause(c) == c.name + " " + c.dataType + ColumnModifiers(c.isNullable, c.isUnique)
    ensures ColumnClause(c) == ColumnClause(c.(isPrimaryKey := !c.isPrimaryKey))
    ensures ColumnModifiers(c.isNullable, c.isUnique) in ["", " NOT NULL", " UNIQUE", " NOT NULL UNIQUE"]
  {
  }

  /** The suffix table of `ColumnClause`: NOT NULL exactly for non-nullable
      columns, UNIQUE exactly for unique ones, NOT NULL first. */
  function ColumnModifiers(nullable: bool, unique: bool): string
  {
    match (nullable, unique)
    case (true, false) => ""
    case (false, false) => " NOT NULL"
    case (true, true) => " UNIQUE"
    case (false, true) => " NOT NULL UNIQUE"
  }

  function ColumnClauses(cols: seq<ColumnDefinition>): (r: seq<string>)
    ensures |r| == |cols|
    ensures forall i :: 0 <= i < |cols| ==> r[i] == ColumnClause(cols[i])
  {
    seq(|cols|, i requires 0 <= i < |cols| => ColumnClause(cols[i]))
  }

  /** The name of the first column flagged as primary key, if any. */
  function FirstPrimaryKey(cols: seq<ColumnDefinition>): (r: Option<string>)
    ensures r.None? <==> forall i :: 0 <= i < |cols| ==> !cols[i].isPrimaryKey
    ensures r.Some? ==> exists i :: 0 <= i < |cols| && cols[i].isPrimaryKey && cols[i].name == r.value
                                     && forall j :: 0 <= j < i ==> !cols[j].isPrimaryKey
  {
    if |cols| == 0 then None
    else if cols[0].isPrimaryKey then Some(cols[0].name)
    else
      var rest := FirstPrimaryKey(cols[1..]);
      assert forall i :: 1 <= i < |cols| ==> cols[i] == cols[1..][i - 1];
      if rest.Some? then
        var k :| 0 <= k < |cols[1..]| && cols[1..][k].isPrimaryKey && cols[1..][k].name == rest.value
                 && forall j :: 0 <= j < k ==> !cols[1..][j].isPrimaryKey;
        assert forall j :: 0 <= j < k + 1 ==> !cols[j].isPrimaryKey by {
          forall j | 0 <= j < k + 1 ensures !cols[j].isPrimaryKey {
            if j > 0 { assert cols[j] == cols[1..][j - 1]; }
          }
        }
        rest
      else rest
  }

  /** Zero or one `PRIMARY KEY (c)` clause, naming the first flagged column. */
  function PrimaryKeyClauses(cols: seq<ColumnDefinition>): (r: seq<string>)
    ensures |r| <= 1
    ensures |r| == 1 <==> exists i :: 0 <= i < |cols| && cols[i].isPrimaryKey
    ensures |r| == 1 ==> r[0] == "PRIMARY KEY (" + FirstPrimaryKey(cols).value + ")"
  {
    match FirstPrimaryKey(cols)
    case None => []
    case Some(pk) => ["PRIMARY KEY (" + pk + ")"]
  }

  /** Flags on columns after the first primary key never change the clause. */
  lemma LaterPrimaryKeyFlagsIgnored(cols: seq<ColumnDefinition>, i: nat, more: seq<ColumnDefinition>)
    requires i < |cols| && cols[i].isPrimaryKey
    ensures PrimaryKeyClauses(cols + more) == PrimaryKeyClauses(cols)
  {
    var r := FirstPrimaryKey(cols);
    var k :| 0 <= k < |cols| && cols[k].isPrimaryKey && cols[k].name == r.value
             && forall j :: 0 <= j < k ==> !cols[j].isPrimaryKey;
    FirstPrimaryKeyAt(cols, k);
    FirstPrimaryKeyAt(cols + more, k);
  }

  /** The first flagged column decides the primary key. */
  lemma {:induction false} FirstPrimaryKeyAt(cols: seq<ColumnDefinition>, k: nat)
    requires k < |cols| && cols[k].isPrimaryKey
    requires forall j :: 0 <= j < k ==> !cols[j].isPrimaryKey
    ensures FirstPrimaryKey(cols) == Some(cols[k].name)
  {
    if k > 0 {
      assert forall j :: 0 <= j < k - 1 ==> cols[1..][j] == cols[j + 1];
      FirstPrimaryKeyAt(cols[1..], k - 1);
    }
  }

  /** `CONSTRAINT k FOREIGN KEY (l) REFERENCES t (f)`. */
  function ForeignKeyClause(fk: ForeignKeyDefinition): string
  {
    "CONSTRAINT " + Show(fk.constraintName) + " FOREIGN KEY (" + Show(fk.localColumn)
    + ") REFERENCES " + Show(fk.foreignTable) + " (" + Show(fk.foreignColumn) + ")"
  }

  /** The valid foreign keys, in list order. */
  function ValidForeignKeys(fks: seq<ForeignKeyDefinition>): (r: seq<ForeignKeyDefinition>)
    ensures |r| <= |fks|
    ensures forall x :: x in r ==> x in fks && ForeignKeyIsValid(x)
    ensures forall x :: x in fks && ForeignKeyIsValid(x) ==> x in r
  {
    if |fks| == 0 then []
    else (if ForeignKeyIsValid(fks[0]) then [fks[0]] else []) + ValidForeignKeys(fks[1..])
  }

  /** Filtering distributes over concatenation, so the kept keys keep their order. */
  lemma {:induction false} ValidForeignKeysAppend(a: seq<ForeignKeyDefinition>, b: seq<ForeignKeyDefinition>)
    ensures ValidForeignKeys(a + b) == ValidForeignKeys(a) + ValidForeignKeys(b)
  {
    if |a| > 0 {
      assert (a + b)[1..] == a[1..] + b;
      ValidForeignKeysAppend(a[1..], b);
    } else {
      assert a + b == b;
    }
  }

  /** One clause per valid foreign key, in list order; a null list gives none. */
  function ForeignKeyClauses(fks: Option<seq<ForeignKeyDefinition>>): (r: seq<string>)
    ensures fks.None? ==> r == []
    ensures fks.Some? ==> |r| == |ValidForeignKeys(fks.value)|
    ensures fks.Some? ==> forall i :: 0 <= i < |r| ==> r[i] == ForeignKeyClause(ValidForeignKeys(fks.value)[i])
  {
    match fks
    case None => []
    case Some(list) =>
      var valid := ValidForeignKeys(list);
      seq(|valid|, i requires 0 <= i < |valid| => ForeignKeyClause(valid[i]))
  }

  /** The definitions list of `buildCreateTableSql`: all column clauses joined
      as one entry, then the primary-key clause if any, then the FK clauses. */
  function TableDefinitions(cols: seq<ColumnDefinition>, fks: Option<seq<ForeignKeyDefinition>>): seq<string>
  {
    [Join(ColumnClauses(cols), ", ")] + PrimaryKeyClauses(cols) + ForeignKeyClauses(fks)
  }

  /** `buildCreateTableSql`. A null table name prints as `null`. */
  function CreateTableSql(tableName: Option<string>, cols: seq<ColumnDefinition>, fks: Option<seq<ForeignKeyDefinition>>): string
  {
    "CREATE TABLE " + Show(tableName) + " (" + Join(TableDefinitions(cols, fks), ", ") + ");"
  }

  /** With at least one column, the joined column entry flattens into the
      definitions list. */
  lemma DefinitionsFlatten(cols: seq<ColumnDefinition>, fks: Option<seq<ForeignKeyDefinition>>)
    requires |cols| > 0
    ensures Join(TableDefinitions(cols, fks), ", ")
            == Join(ColumnClauses(cols) + PrimaryKeyClauses(cols) + ForeignKeyClauses(fks), ", ")
  {
    var a, p, f := ColumnClauses(cols), PrimaryKeyClauses(cols), ForeignKeyClauses(fks);
    var head := Join(a, ", ");
    assert TableDefinitions(cols, fks) == [head] + (p + f);
    assert a + (p + f) == a + p + f;
    JoinFlatten(a, p + f, ", ");
  }

  /** With at least one column, the CREATE TABLE body is the flat comma list of
      one clause per column in declaration order, at most one primary-key
      clause, then one clause per valid foreign key. */
  lemma CreateTableShape(tableName: Option<string>, cols: seq<ColumnDefinition>, fks: Option<seq<ForeignKeyDefinition>>)
    requires |cols| > 0
    ensures var clauses := ColumnClauses(cols) + PrimaryKeyClauses(cols) + ForeignKeyClauses(fks);
            && CreateTableSql(tableName, cols, fks) == "CREATE TABLE " + Show(tableName) + " (" + Join(clauses, ", ") + ");"
            && |clauses| == |cols| + |PrimaryKeyClauses(cols)| + |ForeignKeyClauses(fks)|
            && |PrimaryKeyClauses(cols)| <= 1
  {
    DefinitionsFlatten(cols, fks);
  }

  /** With no columns the joined column entry is empty, so a foreign-key
      clause follows a bare separator: `CREATE TABLE t (, CONSTRAINT ...);`. */
  lemma CreateTableWithoutColumns(name: string, fk: ForeignKeyDefinition)
    requires ForeignKeyIsValid(fk)
    ensures CreateTableSql(Some(name), [], Some([fk])) == "CREATE TABLE " + name + " (, " + ForeignKeyClause(fk) + ");"
  {
    assert ValidForeignKeys([fk]) == [fk];
    var clause := ForeignKeyClause(fk);
    assert TableDefinitions([], Some([fk])) == ["", clause];
    assert Join(["", clause], ", ") == ", " + clause;
  }

  // ---------------------------------------------------------------- single statements

  /** `DROP TABLE IF EXISTS t CASCADE`: the name sits verbatim between the
      fixed lead and the closing ` CASCADE`. */
  function DropTableSql(table: string): (r: string)
    ensures var lead := "DROP TABLE IF EXISTS ";
            && |r| == |lead| + |table| + |" CASCADE"|
            && r[..|lead|] == lead && r[|lead|..|lead| + |table|] == table && r[|lead| + |table|..] == " CASCADE"
  {
    "DROP TABLE IF EXISTS " + table + " CASCADE"
  }

  /** `addColumn` reuses the column clause of CREATE TABLE. */
  function AddColumnSql(table: string, c: ColumnDefinition): string
  {
    "ALTER TABLE " + table + " ADD COLUMN " + ColumnClause(c)
  }

  /** Adding a column writes, after `ADD COLUMN`, exactly the clause that
      CREATE TABLE writes for that column at its position in the list. */
  lemma AddColumnMatchesCreateTable(tableName: Option<string>, table: string, cols: seq<ColumnDefinition>,
                                    fks: Option<seq<ForeignKeyDefinition>>, i: int)
    requires 0 <= i < |cols|
    ensures var clauses := ColumnClauses(cols) + PrimaryKeyClauses(cols) + ForeignKeyClauses(fks);
            var lead := "ALTER TABLE " + table + " ADD COLUMN ";
            && CreateTableSql(tableName, cols, fks) == "CREATE TABLE " + Show(tableName) + " (" + Join(clauses, ", ") + ");"
            && |lead| <= |AddColumnSql(table, cols[i])|
            && AddColumnSql(table, cols[i])[..|lead|] == lead
            && AddColumnSql(table, cols[i])[|lead|..] == clauses[i]
  {
    CreateTableShape(tableName, cols, fks);
    var lead := "ALTER TABLE " + table + " ADD COLUMN ";
    assert AddColumnSql(table, cols[i]) == lead + ColumnClause(cols[i]);
  }

  function DropColumnSql(table: string, column: string): (r: string)
    ensures var lead := "ALTER TABLE " + table + " DROP COLUMN ";
            |lead| <= |r| && r[..|lead|] == lead && r[|lead|..] == column
  {
    "ALTER TABLE " + table + " DROP COLUMN " + column
  }

  function DropConstraintSql(table: string, constraint: string): (r: string)
    ensures var lead := "ALTER TABLE " + table + " DROP CONSTRAINT ";
            |r| == |lead| + |constraint| && r[..|lead|] == lead && r[|r| - |constraint|..] == constraint
  {
    "ALTER TABLE " + table + " DROP CONSTRAINT " + constraint
  }

  // ---------------------------------------------------------------- modifyColumn

  /** One ALTER that `modifyColumn` may issue. */
  datatype AlterAction =
    | RenameColumn(from: string, to: string)
    | RetypeColumn(column: string, dataType: string)
    | DropNotNull(column: string)
    | SetNotNull(column: string)

  function AlterSql(table: string, a: AlterAction): (r: string)
  {
    match a
    case RenameColumn(from, to) => "ALTER TABLE " + table + " RENAME COLUMN " + from + " TO " + to
    case RetypeColumn(c, t) => "ALTER TABLE " + table + " ALTER COLUMN " + c + " TYPE " + t
    case DropNotNull(c) => "ALTER TABLE " + table + " ALTER COLUMN " + c + " DROP NOT NULL"
    case SetNotNull(c) => "ALTER TABLE " + table + " ALTER COLUMN " + c + " SET NOT NULL"
  }

  /** The request renames: a new name with text that differs from the old one. */
  predicate Renames(oldName: string, req: ModifyColumnRequest) {
    HasText(req.newColumnName) && req.newColumnName.value != oldName
  }

  /** The column name the later ALTERs address. */
  function NameAfterRename(oldName: string, req: ModifyColumnRequest): string
  {
    if Renames(oldName, req) then req.newColumnName.value else oldName
  }

  /** The ALTERs of `modifyColumn`, in order: rename, retype, nullability. */
  function ModifyColumnActions(oldName: string, req: ModifyColumnRequest): (r: seq<AlterAction>)
    ensures |r| == (if Renames(oldName, req) then 1 else 0) + (if HasText(req.newDataType) then 1 else 0)
                   + (if req.isNullable.Some? then 1 else 0)
    ensures r == [] <==> !Renames(oldName, req) && !HasText(req.newDataType) && req.isNullable.None?
    ensures Renames(oldName, req) ==> r[0] == RenameColumn(oldName, req.newColumnName.value)
    ensures forall i :: 0 <= i < |r| && !r[i].RenameColumn? ==> r[i].column == NameAfterRename(oldName, req)
    ensures forall i :: 0 < i < |r| ==> !r[i].RenameColumn?
    ensures HasText(req.newDataType) ==>
              r[if Renames(oldName, req) then 1 else 0] == RetypeColumn(NameAfterRename(oldName, req), req.newDataType.value)
    ensures req.isNullable.Some? ==>
              r[|r| - 1] == (if req.isNullable.value then DropNotNull(NameAfterRename(oldName, req))
                             else SetNotNull(NameAfterRename(oldName, req)))
  {
    var name := NameAfterRename(oldName, req);
    RenameStep(oldName, req) + RetypeStep(name, req) + NullabilityStep(name, req)
  }

  function RenameStep(oldName: string, req: ModifyColumnRequest): seq<AlterAction>
  {
    if Renames(oldName, req) then [RenameColumn(oldName, req.newColumnName.value)] else []
  }

  function RetypeStep(name: string, req: ModifyColumnRequest): seq<AlterAction>
  {
    if HasText(req.newDataType) then [RetypeColumn(name, req.newDataType.value)] else []
  }

  /** `isNullable = true` drops NOT NULL, `false` sets it. */
  function NullabilityStep(name: string, req: ModifyColumnRequest): seq<AlterAction>
  {
    match req.isNullable
    case None => []
    case Some(nullable) => if nullable then [DropNotNull(name)] else [SetNotNull(name)]
  }

  function ModifyColumnSql(table: string, oldName: string, req: ModifyColumnRequest): (r: seq<string>)
    ensures |r| == |ModifyColumnActions(oldName, req)|
    ensures forall i :: 0 <= i < |r| ==> r[i] == AlterSql(table, ModifyColumnActions(oldName, req)[i])
  {
    var actions := ModifyColumnActions(oldName, req);
    seq(|actions|, i requires 0 <= i < |actions| => AlterSql(table, actions[i]))
  }

  /** A request that only sets the uniqueness flag passes validation yet
      produces no statement at all. */
  lemma UniqueOnlyEmitsNothing(table: string, oldName: string, unique: bool)
    ensures ModifyColumnIsValid(ModifyColumnRequest(None, None, None, Some(unique)))
    ensures ModifyColumnSql(table, oldName, ModifyColumnRequest(None, None, None, Some(unique))) == []
  {
  }

  // ---------------------------------------------------------------- effect of the ALTERs

  /** The shape of one column as the engine keeps it. */
  datatype ColumnShape = ColumnShape(name: string, dataType: string, notNull: bool)

  predicate HasColumn(cols: seq<ColumnShape>, name: string) {
    exists i :: 0 <= i < |cols| && cols[i].name == name
  }

  predicate DistinctNames(cols: seq<ColumnShape>) {
    forall i, j :: 0 <= i < j < |cols| ==> cols[i].name != cols[j].name
  }

  /** The column named `name` after applying one ALTER to it. */
  function Alter(c: ColumnShape, a: AlterAction): ColumnShape
  {
    match a
    case RenameColumn(_, to) => c.(name := to)
    case RetypeColumn(_, t) => c.(dataType := t)
    case DropNotNull(_) => c.(notNull := false)
    case SetNotNull(_) => c.(notNull := true)
  }

  function Target(a: AlterAction): string
  {
    if a.RenameColumn? then a.from else a.column
  }

  /** The engine's effect of one ALTER on the table's columns: it fails unless
      the addressed column exists and, for a rename, the new name is free. */
  function ApplyAlter(cols: seq<ColumnShape>, a: AlterAction): Option<seq<ColumnShape>>
  {
    if !HasColumn(cols, Target(a)) then None
    else if a.RenameColumn? && HasColumn(cols, a.to) then None
    else Some(seq(|cols|, i requires 0 <= i < |cols| => if cols[i].name == Target(a) then Alter(cols[i], a) else cols[i]))
  }

  /** Applies the ALTERs in order, stopping at the first failure. */
  function ApplyAlters(cols: seq<ColumnShape>, actions: seq<AlterAction>): Option<seq<ColumnShape>>
    decreases |actions|
  {
    if |actions| == 0 then Some(cols)
    else match ApplyAlter(cols, actions[0])
      case None => None
      case Some(next) => ApplyAlters(next, actions[1..])
  }

  /** The column a modification request asks for. */
  function Intended(c: ColumnShape, oldName: string, req: ModifyColumnRequest): ColumnShape
  {
    ColumnShape(
      NameAfterRename(oldName, req),
      if HasText(req.newDataType) then req.newDataType.value else c.dataType,
      if req.isNullable.Some? then !req.isNullable.value else c.notNull)
  }

  /** Running the statements of `modifyColumn` against a table whose column
      `oldName` exists (and whose requested new name is free) changes exactly that
      column, into the column the request describes: the type and nullability
      ALTERs reach the renamed column. */
  lemma ModifyColumnEffect(cols: seq<ColumnShape>, k: nat, oldName: string, req: ModifyColumnRequest)
    requires DistinctNames(cols) && k < |cols| && cols[k].name == oldName
    requires Renames(oldName, req) ==> !HasColumn(cols, req.newColumnName.value)
    ensures ApplyAlters(cols, ModifyColumnActions(oldName, req)) == Some(cols[k := Intended(cols[k], oldName, req)])
  {
    var name := NameAfterRename(oldName, req);
    var want := Intended(cols[k], oldName, req);
    var a1, rest := RenameStep(oldName, req), RetypeStep(name, req) + NullabilityStep(name, req);
    assert ModifyColumnActions(oldName, req) == a1 + rest;
    assert |a1| == 1 ==> a1[0] == RenameColumn(oldName, name) && Alter(cols[k], a1[0]) == cols[k].(name := name);
    var t1 := AlterStep(cols, k, a1, rest);
    assert t1 == cols[k := cols[k].(name := name)];
    RetypeThenNullability(t1, k, name, req);
    assert t1[k := want] == cols[k := want];
  }

  /** The retype and nullability ALTERs, addressed to column `k`, give it the
      requested type and nullability and leave the other columns alone. */
  lemma RetypeThenNullability(cols: seq<ColumnShape>, k: nat, name: string, req: ModifyColumnRequest)
    requires DistinctNames(cols) && k < |cols| && cols[k].name == name
    ensures ApplyAlters(cols, RetypeStep(name, req) + NullabilityStep(name, req))
            == Some(cols[k := cols[k].(
                 dataType := if HasText(req.newDataType) then req.newDataType.value else cols[k].dataType,
                 notNull := if req.isNullable.Some? then !req.isNullable.value else cols[k].notNull)])
  {
    var a2, a3 := RetypeStep(name, req), NullabilityStep(name, req);
    var c2 := cols[k].(dataType := if HasText(req.newDataType) then req.newDataType.value else cols[k].dataType);
    assert |a2| == 1 ==> a2[0] == RetypeColumn(name, req.newDataType.value) && Alter(cols[k], a2[0]) == c2;
    var t2 := AlterStep(cols, k, a2, a3);
    assert t2 == cols[k := c2];
    assert |a3| == 1 ==> Target(a3[0]) == name && !a3[0].RenameColumn? && Alter(c2, a3[0]) == c2.(notNull := !req.isNullable.value);
    var t3 := LastAlterStep(t2, k, a3);
    assert t3 == cols[k := t3[k]];
  }

  /** The final step: at most one ALTER addressed to column `k`. */
  lemma LastAlterStep(cols: seq<ColumnShape>, k: nat, step: seq<AlterAction>) returns (next: seq<ColumnShape>)
    requires DistinctNames(cols) && k < |cols| && |step| <= 1
    requires |step| == 1 ==> cols[k].name == Target(step[0]) && !step[0].RenameColumn?
    ensures next == if |step| == 1 then cols[k := Alter(cols[k], step[0])] else cols
    ensures ApplyAlters(cols, step) == Some(next)
  {
    next := AlterStep(cols, k, step, []);
    assert step + [] == step;
  }

  /** Applies a step of at most one ALTER addressed to column `k`, returning the
      table it leaves behind for the remaining ALTERs. */
  lemma AlterStep(cols: seq<ColumnShape>, k: nat, step: seq<AlterAction>, rest: seq<AlterAction>)
      returns (next: seq<ColumnShape>)
    requires DistinctNames(cols) && k < |cols| && |step| <= 1
    requires |step| == 1 ==> cols[k].name == Target(step[0])
    requires |step| == 1 && step[0].RenameColumn? ==> !HasColumn(cols, step[0].to)
    ensures next == if |step| == 1 then cols[k := Alter(cols[k], step[0])] else cols
    ensures DistinctNames(next) && |next| == |cols|
    ensures ApplyAlters(cols, step + rest) == ApplyAlters(next, rest)
  {
    if |step| == 1 {
      AlterOne(cols, k, step[0]);
      next := cols[k := Alter(cols[k], step[0])];
      ApplyAltersAppend(cols, step, rest, next);
    } else {
      next := cols;
      ApplyAltersAppend(cols, step, rest, next);
    }
  }

  /** One ALTER addressed to column `k` of a table with distinct names changes
      that column alone and keeps the names distinct. */
  lemma AlterOne(cols: seq<ColumnShape>, k: nat, a: AlterAction)
    requires DistinctNames(cols) && k < |cols| && cols[k].name == Target(a)
    requires a.RenameColumn? ==> !HasColumn(cols, a.to)
    ensures ApplyAlter(cols, a) == Some(cols[k := Alter(cols[k], a)])
    ensures DistinctNames(cols[k := Alter(cols[k], a)])
  {
    var r := seq(|cols|, i requires 0 <= i < |cols| => if cols[i].name == Target(a) then Alter(cols[i], a) else cols[i]);
    assert forall i :: 0 <= i < |cols| ==> (cols[i].name == Target(a) <==> i == k);
    assert r == cols[k := Alter(cols[k], a)];
    var t := cols[k := Alter(cols[k], a)];
    forall i, j | 0 <= i < j < |t| ensures t[i].name != t[j].name {
      if a.RenameColumn? && (i == k || j == k) {
        assert !HasColumn(cols, a.to);
        var other := if i == k then j else i;
        assert cols[other].name != a.to;
      }
    }
  }

  /** A prefix of zero or one ALTER that succeeds hands its result to the rest. */
  lemma ApplyAltersAppend(cols: seq<ColumnShape>, a: seq<AlterAction>, b: seq<AlterAction>, mid: seq<ColumnShape>)
    requires |a| <= 1
    requires |a| == 0 ==> mid == cols
    requires |a| == 1 ==> ApplyAlter(cols, a[0]) == Some(mid)
    ensures ApplyAlters(cols, a + b) == ApplyAlters(mid, b)
  {
    if |a| == 1 {
      assert (a + b)[0] == a[0];
      assert (a + b)[1..] == b;
    } else {
      assert a + b == b;
    }
  }

  // ---------------------------------------------------------------- JDBC URL

  const JdbcPrefix: string := "jdbc:postgresql://"

  /** `buildJdbcUrl`. */
  function JdbcUrl(host: string, port: int, dbName: string): string
  {
    JdbcPrefix + host + ":" + LongToString(port) + "/" + dbName
  }

  /** Reads host, port and database name back out of a JDBC URL. */
  function ParseJdbcUrl(url: string): Option<(string, int, string)>
  {
    if |url| < |JdbcPrefix| || url[..|JdbcPrefix|] != JdbcPrefix then None
    else match SplitAt(url[|JdbcPrefix|..], ':')
      case None => None
      case Some((host, rest)) =>
        match SplitAt(rest, '/')
        case None => None
        case Some((portText, db)) =>
          match ParseLong(portText)
          case None => None
          case Some(port) => Some((host, port, db))
  }

  /** The URL determines the instance coordinates, provided the host has no colon. */
  lemma JdbcUrlRoundTrip(host: string, port: int, dbName: string)
    requires ':' !in host && IsInt(port)
    ensures ParseJdbcUrl(JdbcUrl(host, port, dbName)) == Some((host, port, dbName))
  {
    var url := JdbcUrl(host, port, dbName);
    var p := LongToString(port);
    assert url[..|JdbcPrefix|] == JdbcPrefix;
    assert url[|JdbcPrefix|..] == host + [':'] + (p + "/" + dbName);
    SplitAtGlue(host, p + "/" + dbName, ':');
    assert p + "/" + dbName == p + ['/'] + dbName;
    SplitAtGlue(p, dbName, '/');
    LongRoundTrip(port);
  }
}
