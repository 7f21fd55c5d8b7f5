/** The request and response records of the API, and the `isValid` checks the
    request records carry. A Java field that may be null is an `Option`. */
module Dto {
  import opened Outcomes
  import opened JavaText

  /** One column of a table as the DDL builder and the introspection see it. */
  datatype ColumnDefinition = ColumnDefinition(
    name: string,
    dataType: string,
    isPrimaryKey: bool,
    isNullable: bool,
    isUnique: bool)

  datatype ForeignKeyDefinition = ForeignKeyDefinition(
    constraintName: Option<string>,
    localColumn: Option<string>,
    foreignTable: Option<string>,
    foreignColumn: Option<string>)

  datatype CreateTableRequest = CreateTableRequest(
    tableName: Option<string>,
    columns: Option<seq<ColumnDefinition>>,
    foreignKeys: Option<seq<ForeignKeyDefinition>>)

  /** Every field is optional: each one present asks for one kind of change. */
  datatype ModifyColumnRequest = ModifyColumnRequest(
    newColumnName: Option<string>,
    newDataType: Option<string>,
    isNullable: Option<bool>,
    isUnique: Option<bool>)

  datatype CreateDatabaseRequest = CreateDatabaseRequest(
    dbName: Option<string>,
    user: Option<string>,
    password: Option<string>)

  datatype TableSchemaResponse = TableSchemaResponse(tableName: string, columns: seq<ColumnDefinition>)

  datatype ManagePermissionsRequest = ManagePermissionsRequest(tableName: string, privileges: seq<string>)

  datatype DbUserInfo = DbUserInfo(username: Option<string>, canCreateDb: bool, canCreateRole: bool)

  /** One imported foreign key of a table, as the catalog reports it. */
  datatype TableRelationship = TableRelationship(
    constraintName: Option<string>,
    localTableName: Option<string>,
    localColumnName: Option<string>,
    foreignTableName: Option<string>,
    foreignColumnName: Option<string>)

  datatype UserPermissionInfo = UserPermissionInfo(tableName: string, privileges: seq<string>)

  // ---------------------------------------------------------------- isValid

  /** The four text fields of a foreign-key description, in declaration order. */
  function ForeignKeyFields(fk: ForeignKeyDefinition): seq<Option<string>>
  {
    [fk.constraintName, fk.localColumn, fk.foreignTable, fk.foreignColumn]
  }

  /** `ForeignKeyDefinition.isValid`. */
  function ForeignKeyIsValid(fk: ForeignKeyDefinition): (b: bool)
    ensures b <==> forall i :: 0 <= i < 4 ==> HasText(ForeignKeyFields(fk)[i])
    ensures b ==> fk.constraintName.Some? && fk.localColumn.Some? && fk.foreignTable.Some? && fk.foreignColumn.Some?
  {
    var fields := ForeignKeyFields(fk);
    assert forall i :: 0 <= i < 4 ==> fields[i] == fields[0] || fields[i] == fields[1] || fields[i] == fields[2] || fields[i] == fields[3];
    HasText(fk.constraintName) && HasText(fk.localColumn)
    && HasText(fk.foreignTable) && HasText(fk.foreignColumn)
  }

  /** A modification is requested: a non-blank new name or type, or any
      nullability or uniqueness flag, `false` included. */
  function ModifyColumnIsValid(req: ModifyColumnRequest): (b: bool)
    ensures b <==> RequestedChanges(req) > 0
  {
    HasText(req.newColumnName) || HasText(req.newDataType)
    || req.isNullable.Some? || req.isUnique.Some?
  }

  /** How many of the four optional changes a request carries. */
  function RequestedChanges(req: ModifyColumnRequest): nat
  {
    (if HasText(req.newColumnName) then 1 else 0)
    + (if HasText(req.newDataType) then 1 else 0)
    + (if req.isNullable.Some? then 1 else 0)
    + (if req.isUnique.Some? then 1 else 0)
  }

  /** `CreateTableRequest.isValid`: a name with text and at least one column. */
  function CreateTableIsValid(req: CreateTableRequest): (b: bool)
    ensures b <==> HasText(req.tableName) && req.columns.Some? && |req.columns.value| > 0
    ensures b ==> req.tableName.Some?
    ensures req.tableName.Some? && IsBlank(req.tableName.value) ==> !b
  {
    HasText(req.tableName) && req.columns.Some? && |req.columns.value| > 0
  }

  /** The foreign-key list, null or not, never decides validity. */
  lemma CreateTableValidityIgnoresForeignKeys(req: CreateTableRequest, fks: Option<seq<ForeignKeyDefinition>>)
    ensures CreateTableIsValid(req) == CreateTableIsValid(req.(foreignKeys := fks))
  {
  }

  /** `CreateDatabaseRequest.isValid`. */
  function CreateDatabaseIsValid(req: CreateDatabaseRequest): (b: bool)
    ensures b <==> forall f :: f in [req.dbName, req.user, req.password] ==> HasText(f)
  {
    HasText(req.dbName) && HasText(req.user) && HasText(req.password)
  }

  // ---------------------------------------------------------------- annotations

  /** Jakarta `@NotBlank` as Hibernate Validator checks it: not null, and not
      empty once `trim()` has removed the characters up to U+0020. */
  predicate NotBlank(x: Option<string>) {
    x.Some? && |Trim(x.value)| > 0
  }

  /** `@NotNull` together with `@NotEmpty` on a list. */
  predicate NotNullNotEmpty<T>(x: Option<seq<T>>) {
    x.Some? && |x.value| > 0
  }

  /** Text on which `isBlank` and `trim` agree about which characters are blank:
      every character is Java whitespace exactly when it is at most U+0020. */
  predicate PlainText(x: Option<string>) {
    x.Some? ==> forall i :: 0 <= i < |x.value| ==> (x.value[i] <= ' ' <==> IsWhitespace(x.value[i]))
  }

  /** On plain text the hand-written guard and the annotation accept the same values. */
  lemma HasTextIsNotBlank(x: Option<string>)
    requires PlainText(x)
    ensures HasText(x) <==> NotBlank(x)
  {
    if x.Some? {
      TrimNonEmpty(x.value);
    }
  }

  /** The two notions of "blank" differ: an em space is blank for `isBlank` but
      survives `trim`, and NUL is the other way round. */
  lemma BlankNotionsDiffer()
    ensures !HasText(Some("\U{2003}")) && NotBlank(Some("\U{2003}"))
    ensures HasText(Some("\0")) && !NotBlank(Some("\0"))
  {
    TrimNonEmpty("\U{2003}");
    TrimNonEmpty("\0");
  }

  /** `ForeignKeyDefinition.isValid` accepts exactly what its four `@NotBlank`
      constraints accept, whenever the fields are plain text. */
  lemma ForeignKeyValidMatchesAnnotations(fk: ForeignKeyDefinition)
    requires forall i :: 0 <= i < 4 ==> PlainText(ForeignKeyFields(fk)[i])
    ensures ForeignKeyIsValid(fk) <==> forall i :: 0 <= i < 4 ==> NotBlank(ForeignKeyFields(fk)[i])
  {
    forall i | 0 <= i < 4
      ensures HasText(ForeignKeyFields(fk)[i]) <==> NotBlank(ForeignKeyFields(fk)[i])
    {
      HasTextIsNotBlank(ForeignKeyFields(fk)[i]);
    }
  }

  /** `CreateTableRequest.isValid` matches `@NotBlank tableName` together with
      `@NotNull @NotEmpty columns` when the name is plain text. */
  lemma CreateTableValidMatchesAnnotations(req: CreateTableRequest)
    requires PlainText(req.tableName)
    ensures CreateTableIsValid(req) <==> NotBlank(req.tableName) && NotNullNotEmpty(req.columns)
  {
    HasTextIsNotBlank(req.tableName);
  }

  /** `CreateDatabaseRequest.isValid` matches its three `@NotBlank` constraints
      when the fields are plain text. */
  lemma CreateDatabaseValidMatchesAnnotations(req: CreateDatabaseRequest)
    requires PlainText(req.dbName) && PlainText(req.user) && PlainText(req.password)
    ensures CreateDatabaseIsValid(req) <==> NotBlank(req.dbName) && NotBlank(req.user) && NotBlank(req.password)
  {
    HasTextIsNotBlank(req.dbName);
    HasTextIsNotBlank(req.user);
    HasTextIsNotBlank(req.password);
  }

  /** A request carrying only a uniqueness flag passes validation. */
  lemma UniqueOnlyIsValid(unique: bool)
    ensures ModifyColumnIsValid(ModifyColumnRequest(None, None, None, Some(unique)))
  {
  }

  /** A whitespace-only new name is not a modification on its own. */
  lemma BlankNameAloneIsInvalid(name: string)
    requires IsBlank(name)
    ensures !ModifyColumnIsValid(ModifyColumnRequest(Some(name), None, None, None))
  {
  }
}
