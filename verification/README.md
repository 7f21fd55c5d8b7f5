# DataForge API core, modelled in Dafny

DataForge is a Spring service that manages PostgreSQL instances. It turns
REST requests into SQL text, runs that text over JDBC, and shapes the
answers. This project models the part of it that is pure text and
collection logic:

- the schema DDL builder and the `tableSchemas` cache of `TableManagerService`;
- the CRUD statement builder of `DynamicCrudService` and its controller's guards, filters, defaults and status codes;
- the user and privilege statements of `DbUserManagerService`, its quote doubling and its permission grouping;
- the ad-hoc query service and the three variants of `SqlQueryResponse`;
- the set-once master password of `SettingsService`;
- the `isValid` checks of the request records, compared with their Jakarta annotations.

The database engine, the catalog and the JDBC driver are never called. What they answer becomes a parameter:

- a `Link` gives the DDL and user statements their outcome;
- functions from a statement to an outcome do the same for CRUD;
- `Rows` values stand for catalog and result reads;
- a `DriverOutcome` stands for an ad-hoc query.

Exceptions are the `Threw` branch of `Outcomes.Result`.

Modules, one per file:

| file | module | models |
|---|---|---|
| outcomes.dfy | Outcomes | `Option`, `Result`, and the exception kinds the services throw |
| java_text.dfy | JavaText | the JDK string behaviour the code relies on: `isBlank`, `trim`, `String.join`, `equalsIgnoreCase`/`toUpperCase`, `Long.parseLong`/`toString`, 32-bit int arithmetic |
| dto.dfy | Dto | the request and response records and their `isValid` methods |
| ddl.dfy | Ddl | `CREATE TABLE`, `ALTER TABLE` and `DROP` texts, `modifyColumn`'s ALTER sequence and what it does to a table, the JDBC URL |
| engine.dfy | Engine | the instance repository, `findInstance`, and running a script over one connection |
| table_manager.dfy | TableManager | the schema service calls, the cache key, catalog introspection, and the cache as a state machine |
| crud.dfy | Crud | INSERT/SELECT/UPDATE/DELETE statements with their bound parameters, `parseId`, and the four service calls |
| crud_controller.dfy | CrudController | the `/db/{dbId}/tables/{tableName}` endpoints |
| db_users.dfy | DbUsers | CREATE/DROP USER, GRANT/REVOKE, quote doubling, the users and permissions listings |
| query.dfy | Query | `executeQuery` and `SqlQueryResponse` |
| settings.dfy | Settings | the master-password setting |

## Model

| member | source | states |
|---|---|---|
| JavaText.LongToString | src/main/java/com/dataforge/service/TableManagerService.java:29 | the decimal text of an instance id is never empty and holds no `:` or `/`; a `-` can appear only as its first character, and does exactly when the id is negative |
| JavaText.ParseLong | src/main/java/com/dataforge/service/DynamicCrudService.java:159 | `Long.parseLong` accepts exactly an optional `+` or `-` followed by at least one decimal digit whose signed value is in the 64-bit range, and then returns that signed value |
| JavaText.LeadingZeroIgnored | src/main/java/com/dataforge/service/DynamicCrudService.java:159 | a zero in front of the digits, with or without a sign, does not change what `Long.parseLong` returns |
| JavaText.ParseLongSamples | src/main/java/com/dataforge/service/DynamicCrudService.java:159 | `+5` reads as 5, `007` as 7 and `-0` as 0; a lone `+` is refused |
| JavaText.LongRoundTrip | src/main/java/com/dataforge/service/DynamicCrudService.java:155-167 | parsing the decimal text of any 64-bit value gives that value back |
| JavaText.WrapInt | src/main/java/com/dataforge/service/DynamicCrudService.java:77 | Java int arithmetic: the result fits in 32 bits, is congruent to the exact value modulo 2^32, and equals it when that already fits |
| JavaText.TrimNonEmpty | src/main/java/com/dataforge/dto/ForeignKeyDefinition.java:6-13 | `trim()` leaves something exactly when the text holds a character above U+0020, which is what `@NotBlank` tests |
| JavaText.UpperOfCaseInsensitiveMatch | src/main/java/com/dataforge/service/DynamicCrudService.java:70-71 | a direction that equals `ASC` or `DESC` ignoring case upper-cases to exactly that word |
| JavaText.JoinConcat | src/main/java/com/dataforge/service/TableManagerService.java:267 | `String.join` over two non-empty lists is the two joins with one separator between them |
| JavaText.SplitAtGlue | src/main/java/com/dataforge/service/TableManagerService.java:238-240 | splitting at the first `c` recovers the two parts of any text glued by `c`, provided the first part holds no `c` |
| Dto.ForeignKeyIsValid | src/main/java/com/dataforge/dto/ForeignKeyDefinition.java:15-20 | valid exactly when each of the four fields is non-null and not blank; a null field makes it invalid without a fault |
| Dto.ForeignKeyValidMatchesAnnotations | src/main/java/com/dataforge/dto/ForeignKeyDefinition.java:6-20 | on text where `isBlank` and `trim` agree on which characters are blank, `isValid` holds exactly when all four `@NotBlank` constraints do |
| Dto.ModifyColumnIsValid | src/main/java/com/dataforge/dto/ModifyColumnRequest.java:13-19 | valid exactly when at least one of the four changes is present; a name or type counts only with text, a Boolean whenever non-null |
| Dto.UniqueOnlyIsValid | src/main/java/com/dataforge/dto/ModifyColumnRequest.java:18 | a request carrying only `isUnique`, `false` included, is valid |
| Dto.BlankNameAloneIsInvalid | src/main/java/com/dataforge/dto/ModifyColumnRequest.java:15 | a request whose only change is a whitespace-only new name is invalid |
| Dto.CreateTableIsValid | src/main/java/com/dataforge/dto/CreateTableRequest.java:20-23 | valid exactly when the table name has text and the column list is present and non-empty; a whitespace-only name is invalid |
| Dto.CreateTableValidityIgnoresForeignKeys | src/main/java/com/dataforge/dto/CreateTableRequest.java:16-23 | replacing the foreign-key list, with null or anything else, never changes validity |
| Dto.CreateTableValidMatchesAnnotations | src/main/java/com/dataforge/dto/CreateTableRequest.java:11-15 | on plain text, `isValid` holds exactly when `@NotBlank` on the name and `@NotNull`/`@NotEmpty` on the columns do |
| Dto.CreateDatabaseIsValid | src/main/java/com/dataforge/dto/CreateDatabaseRequest.java:16-20 | valid exactly when database name, user and password each have text |
| Dto.CreateDatabaseValidMatchesAnnotations | src/main/java/com/dataforge/dto/CreateDatabaseRequest.java:7-12 | on plain text, `isValid` holds exactly when the three `@NotBlank` constraints do |
| Dto.BlankNotionsDiffer | src/main/java/com/dataforge/dto/CreateDatabaseRequest.java:7-20 | outside plain text the two checks part: an em space passes `@NotBlank` yet fails `isValid`, and a NUL fails `@NotBlank` yet passes `isValid` |
| Ddl.ColumnClauseModifiers | src/main/java/com/dataforge/service/TableManagerService.java:273-283 | a column clause is name, space, type, then ` NOT NULL` exactly when not nullable, then ` UNIQUE` exactly when unique; flipping the primary-key flag never changes it |
| Ddl.ColumnClauses | src/main/java/com/dataforge/service/TableManagerService.java:249-251 | one clause per column, in declaration order |
| Ddl.FirstPrimaryKey | src/main/java/com/dataforge/service/TableManagerService.java:254-257 | absent exactly when no column is flagged; otherwise the name of a flagged column with no flagged column before it |
| Ddl.PrimaryKeyClauses | src/main/java/com/dataforge/service/TableManagerService.java:254-258 | at most one `PRIMARY KEY (c)` clause, present exactly when some column is flagged, naming the first one |
| Ddl.LaterPrimaryKeyFlagsIgnored | src/main/java/com/dataforge/service/TableManagerService.java:254-258 | once a column is flagged, flags on columns appended after it change nothing |
| Ddl.FirstPrimaryKeyAt | src/main/java/com/dataforge/service/TableManagerService.java:254-257 | the key column is the flagged column with no flagged column before it |
| Ddl.ValidForeignKeys | src/main/java/com/dataforge/service/TableManagerService.java:261-262 | keeps exactly the foreign keys that pass `isValid` |
| Ddl.ValidForeignKeysAppend | src/main/java/com/dataforge/service/TableManagerService.java:261-264 | the filter keeps list order: filtering a concatenation filters each part |
| Ddl.ForeignKeyClauses | src/main/java/com/dataforge/service/TableManagerService.java:260-265 | a null list gives no clause; otherwise one `CONSTRAINT … FOREIGN KEY … REFERENCES …` clause per valid key, in list order |
| Ddl.CreateTableShape | src/main/java/com/dataforge/service/TableManagerService.java:242-271 | the text is `CREATE TABLE name (` + column clauses, then at most one key clause, then the foreign-key clauses, all joined by `, `, + `);` |
| Ddl.CreateTableWithoutColumns | src/main/java/com/dataforge/service/TableManagerService.java:249-267 | with no columns the empty column text still takes a slot, so the list opens with `, ` |
| Ddl.AddColumnMatchesCreateTable | src/main/java/com/dataforge/service/TableManagerService.java:127 | the text after `ALTER TABLE t ADD COLUMN ` is exactly the clause `CREATE TABLE` writes for that column at its place in the clause list |
| Ddl.ModifyColumnActions | src/main/java/com/dataforge/service/TableManagerService.java:146-167 | rename, then type, then nullability, each present exactly when requested; rename only to a different name with text, and first; the type change sits right after it and carries the requested type; the last action is `DROP NOT NULL` for `true` and `SET NOT NULL` for `false`; the later ALTERs address the post-rename name |
| Ddl.ModifyColumnSql | src/main/java/com/dataforge/service/TableManagerService.java:149-164 | one ALTER text per action, in the same order |
| Ddl.UniqueOnlyEmitsNothing | src/main/java/com/dataforge/service/TableManagerService.java:146-167 | a uniqueness-only request passes `isValid` yet emits no statement |
| Ddl.ModifyColumnEffect | src/main/java/com/dataforge/service/TableManagerService.java:146-167 | on a table with the column and a free new name, the ALTERs change exactly that column, into the name, type and nullability the request asks for |
| Ddl.DropTableSql | src/main/java/com/dataforge/service/TableManagerService.java:111 | the table name sits verbatim between `DROP TABLE IF EXISTS ` and ` CASCADE`, so a missing table is not an error and dependants are dropped too |
| Ddl.DropColumnSql | src/main/java/com/dataforge/service/TableManagerService.java:180 | the text is `ALTER TABLE t DROP COLUMN ` followed by exactly the column name |
| Ddl.DropConstraintSql | src/main/java/com/dataforge/service/TableManagerService.java:197 | the text is `ALTER TABLE t DROP CONSTRAINT ` followed by exactly the constraint name |
| Ddl.JdbcUrlRoundTrip | src/main/java/com/dataforge/service/TableManagerService.java:238-240 | host, port and database name can be read back from the URL when the host holds no `:` |
| Engine.FindInstance | src/main/java/com/dataforge/service/TableManagerService.java:233-236 | finds the stored instance, or throws not-found naming the id |
| Engine.RunScript | src/main/java/com/dataforge/service/TableManagerService.java:143-171 | a script succeeds exactly when the connection opens and every statement succeeds |
| Engine.FirstFailure | src/main/java/com/dataforge/service/TableManagerService.java:146-167 | the failure reported is that of a statement all of whose predecessors succeeded |
| Engine.Executed | src/main/java/com/dataforge/service/TableManagerService.java:146-167 | the statements run form a prefix of the script; after a failure, the last one run is the one that failed |
| TableManager.CacheKeyRoundTrip | src/main/java/com/dataforge/service/TableManagerService.java:65 | the instance id and table name can be read back from a cache key, whatever the table name holds |
| TableManager.CacheKeyInjective | src/main/java/com/dataforge/service/TableManagerService.java:65 | two calls share a cache entry only when they name the same instance and table |
| TableManager.MapColumn | src/main/java/com/dataforge/service/TableManagerService.java:88-97 | name kept; `varchar`/`char` in any case get `(size)`; primary key exactly when listed; never unique; nullable exactly when the catalog does not say `YES` |
| TableManager.MapColumns | src/main/java/com/dataforge/service/TableManagerService.java:87-98 | one definition per catalog row, in row order |
| TableManager.IntrospectionInvertsNullability | src/main/java/com/dataforge/service/TableManagerService.java:94-97 | feeding an introspected column back into the DDL builder makes a nullable column `NOT NULL` and a `NOT NULL` column nullable |
| TableManager.Introspect | src/main/java/com/dataforge/service/TableManagerService.java:66-104 | a missing instance, a catalog failure and a table with no columns each throw their own error; otherwise the schema holds the mapped columns |
| TableManager.RunDdl | src/main/java/com/dataforge/service/TableManagerService.java:37-42 | succeeds exactly when the connection opens and every statement runs; a connection failure is invalid input with the call's prefix and the connection's message, and a statement failure carries the message of a failing statement all of whose predecessors ran |
| TableManager.EvictAfter | src/main/java/com/dataforge/service/TableManagerService.java:29 | after a normal return the key is gone; after an exception the cache is untouched; other keys never change |
| TableManager.ListTables | src/main/java/com/dataforge/service/TableManagerService.java:45-63 | the names read, in order, exactly when instance and read succeed; a read failure is a runtime error |
| TableManager.GetTableRelationships | src/main/java/com/dataforge/service/TableManagerService.java:208-231 | one relationship per imported-key row, fields in order; a read failure is a runtime error |
| TableManager.StepCacheDiscipline | src/main/java/com/dataforge/service/TableManagerService.java:29-206 | a successful DDL call removes its key, a failed one changes nothing; `dropForeignKey`, `listTables` and relationships never touch the cache; a schema read only adds; no call touches another key |
| TableManager.SchemaReadHitOrMiss | src/main/java/com/dataforge/service/TableManagerService.java:65-104 | a hit answers from the cache; a miss introspects and caches exactly the normal returns |
| TableManager.ReadAfterDdlRederives | src/main/java/com/dataforge/service/TableManagerService.java:29-188 | after a successful evicting call, the next schema read of that table introspects the current catalog |
| TableManager.DropForeignKeyKeepsSnapshot | src/main/java/com/dataforge/service/TableManagerService.java:192-206 | after `dropForeignKey`, a cached schema is still served as it was, whatever the catalog now says |
| TableManager.AbsentUntilReread | src/main/java/com/dataforge/service/TableManagerService.java:65 | an absent key stays absent through any calls that do not read that schema |
| TableManager.CreateTable | src/main/java/com/dataforge/service/TableManagerService.java:29-43 | succeeds exactly when the instance exists, the column list is present, the connection opens and the CREATE TABLE runs; a missing instance throws its not-found, a null column list a null-pointer exception, and other failures are invalid input prefixed `Failed to create table: `; success evicts the key named by the request, failure leaves the cache as it was |
| TableManager.DeleteTable | src/main/java/com/dataforge/service/TableManagerService.java:106-119 | succeeds exactly when the instance exists, the connection opens and the DROP TABLE runs; failures are not-found or invalid input prefixed `Failed to delete table 't': `; success evicts the key, failure leaves the cache as it was |
| TableManager.AddColumn | src/main/java/com/dataforge/service/TableManagerService.java:121-135 | succeeds exactly when the instance exists, the connection opens and the ADD COLUMN runs; failures are not-found or invalid input naming the column and table; success evicts the key, failure leaves the cache as it was |
| TableManager.ModifyColumn | src/main/java/com/dataforge/service/TableManagerService.java:137-172 | succeeds exactly when the instance exists, the connection opens and every ALTER of the request runs; failures are not-found or invalid input naming the old column and table; success evicts the key, failure leaves the cache as it was |
| TableManager.DeleteColumn | src/main/java/com/dataforge/service/TableManagerService.java:174-190 | succeeds exactly when the instance exists, the connection opens and the DROP COLUMN runs; failures are not-found or invalid input naming the column and table; success evicts the key, failure leaves the cache as it was |
| TableManager.DropForeignKey | src/main/java/com/dataforge/service/TableManagerService.java:192-206 | succeeds exactly when the instance exists, the connection opens and the DROP CONSTRAINT runs; failures are not-found or invalid input naming the constraint and table; it has no cache annotation, so the cache is not an input (see DropForeignKeyKeepsSnapshot) |
| TableManager.GetTableSchema | src/main/java/com/dataforge/service/TableManagerService.java:65-104 | a hit returns the cached schema and leaves the cache alone; a miss introspects and caches exactly a successful result under the call's key; no other key changes |
| TableManager.DdlThenTrace | src/main/java/com/dataforge/service/TableManagerService.java:29-188 | after a successful evicting call, the key stays absent until the schema is read again |
| Crud.ParseId | src/main/java/com/dataforge/service/DynamicCrudService.java:155-167 | only text that `Long.parseLong` accepts changes, and it becomes that long; everything else passes through |
| Crud.ParseIdIdempotent | src/main/java/com/dataforge/service/DynamicCrudService.java:155-167 | parsing an id twice gives what parsing it once does |
| Crud.ParseIdOfFormattedLong | src/main/java/com/dataforge/service/DynamicCrudService.java:155-159 | the decimal text of any 64-bit value parses to that value |
| Crud.NonNumericIdKept | src/main/java/com/dataforge/service/DynamicCrudService.java:160-162 | text with a character that is neither a digit nor a leading sign is kept as text |
| Crud.InsertStatement | src/main/java/com/dataforge/service/DynamicCrudService.java:31-41 | the parameters are the record's values, in its key order |
| Crud.InsertMarks | src/main/java/com/dataforge/service/DynamicCrudService.java:31-41 | the INSERT text has one `?` per parameter, plus those in the table and column names |
| Crud.InsertMarksMatchParams | src/main/java/com/dataforge/service/DynamicCrudService.java:31-41 | when the table and column names hold no `?`, the INSERT text has exactly as many `?` as parameters |
| Crud.MarkInColumnNameMiscounts | src/main/java/com/dataforge/service/DynamicCrudService.java:31-41 | a column name holding `?` gives the INSERT more marks than parameters |
| Crud.InsertOfEmptyRecord | src/main/java/com/dataforge/service/DynamicCrudService.java:31-33 | the service itself turns an empty record into `INSERT INTO t () VALUES ()` |
| Crud.WhereClause | src/main/java/com/dataforge/service/DynamicCrudService.java:57-66 | present exactly when filters exist and are non-empty; then `k = ?` per filter, joined by ` AND ` |
| Crud.FilterParams | src/main/java/com/dataforge/service/DynamicCrudService.java:57-64 | the parameters are the filter values, in filter order |
| Crud.Direction | src/main/java/com/dataforge/service/DynamicCrudService.java:70-74 | always `ASC` or `DESC`; `DESC` exactly when the input equals it ignoring case |
| Crud.OrderClause | src/main/java/com/dataforge/service/DynamicCrudService.java:68-75 | present exactly when the order column has text |
| Crud.Offset | src/main/java/com/dataforge/service/DynamicCrudService.java:77 | the offset is a Java int, and page 1 gives offset 0 |
| Crud.OffsetIsWrappedProduct | src/main/java/com/dataforge/service/DynamicCrudService.java:77 | the offset is `(page-1)*limit` modulo 2^32, and equals it exactly when it fits |
| Crud.SelectStatement | src/main/java/com/dataforge/service/DynamicCrudService.java:54-78 | the parameters are the filter values, and ` LIMIT … OFFSET …` is the final suffix |
| Crud.DirectionIgnoredWithoutOrderColumn | src/main/java/com/dataforge/service/DynamicCrudService.java:68-75 | without an order column the direction makes no difference |
| Crud.SelectMarksMatchParams | src/main/java/com/dataforge/service/DynamicCrudService.java:54-86 | when the table, filter and order names hold no `?`, the SELECT text has exactly as many `?` as parameters |
| Crud.UpdateStatement | src/main/java/com/dataforge/service/DynamicCrudService.java:110-122 | n+1 parameters: the update values in key order, then the parsed id |
| Crud.UpdateMarksMatchParams | src/main/java/com/dataforge/service/DynamicCrudService.java:110-131 | when the table and column names hold no `?`, the UPDATE text has exactly as many `?` as parameters |
| Crud.DeleteStatement | src/main/java/com/dataforge/service/DynamicCrudService.java:143-148 | the single parameter is the parsed id |
| Crud.DeleteMarksMatchParams | src/main/java/com/dataforge/service/DynamicCrudService.java:143-148 | when the table name holds no `?`, the DELETE text has exactly one `?` |
| Crud.RowRecordLastWins | src/main/java/com/dataforge/service/DynamicCrudService.java:92-95 | a record has exactly the column names as keys, each with the value of its last column |
| Crud.Records | src/main/java/com/dataforge/service/DynamicCrudService.java:91-97 | one record per result row, in order |
| Crud.CreateRecord | src/main/java/com/dataforge/service/DynamicCrudService.java:26-46 | succeeds exactly when the instance exists and the insert runs; an engine failure is invalid input |
| Crud.ReadRecords | src/main/java/com/dataforge/service/DynamicCrudService.java:48-103 | the records of the rows read exactly when instance and query succeed; a query failure is a runtime error |
| Crud.UpdateRecord | src/main/java/com/dataforge/service/DynamicCrudService.java:105-136 | returns the engine's update count; an engine failure is invalid input |
| Crud.DeleteRecord | src/main/java/com/dataforge/service/DynamicCrudService.java:138-153 | returns the engine's update count; an engine failure is invalid input |
| Crud.MissingInstanceFailsFirst | src/main/java/com/dataforge/service/DynamicCrudService.java:26-153 | with no such instance every write throws not-found, whatever the engine would do |
| Crud.WriteFailureKinds | src/main/java/com/dataforge/service/DynamicCrudService.java:43-152 | with the instance present, create, update and delete fail only with invalid input |
| Crud.ReadFailureKind | src/main/java/com/dataforge/service/DynamicCrudService.java:99-100 | with the instance present, a read fails only with a runtime error |
| CrudController.CreateRecordEndpoint | src/main/java/com/dataforge/controller/DynamicCrudController.java:20-32 | an empty body is 400; 201 exactly when the body has entries, the instance exists and the engine runs the INSERT; a missing instance and an engine failure come back as the service's exceptions |
| CrudController.Lookup | src/main/java/com/dataforge/controller/DynamicCrudController.java:42 | a name is found exactly when the query string carries it, and then with the value of its first occurrence |
| CrudController.FirstValuesLookup | src/main/java/com/dataforge/controller/DynamicCrudController.java:42 | the bound parameter map holds a name with a value exactly when that value is the name's first one in the query string |
| CrudController.FirstValuesNames | src/main/java/com/dataforge/controller/DynamicCrudController.java:42 | the bound map carries every name of the query string, each once |
| CrudController.FirstValuesOfDistinct | src/main/java/com/dataforge/controller/DynamicCrudController.java:42 | a query string without repeated names binds to itself |
| CrudController.FirstValuesAppend | src/main/java/com/dataforge/controller/DynamicCrudController.java:42 | a later part of the query string adds only the names the earlier part has not bound, in their order |
| CrudController.QueryFiltersMembers | src/main/java/com/dataforge/controller/DynamicCrudController.java:42-47 | a name is a filter exactly when it is not one of the four reserved names, and then with its first value; no name is filtered twice |
| CrudController.QueryFiltersAppend | src/main/java/com/dataforge/controller/DynamicCrudController.java:42-47 | the filters of a concatenated query are those of the first part, then those of the second part's names the first part lacks |
| CrudController.QueryFiltersKeepsPlainQueries | src/main/java/com/dataforge/controller/DynamicCrudController.java:42-49 | without reserved names the filters are the bound map, and without repeated names the query string itself |
| CrudController.RequestParamTextOfSingleValue | src/main/java/com/dataforge/controller/DynamicCrudController.java:40-41 | `orderBy` and `orderDirection` are present exactly when the query string carries them, and a name given once binds its one value |
| CrudController.RepeatedValuesJoined | src/main/java/com/dataforge/controller/DynamicCrudController.java:40-41 | a name given twice or more binds text holding a comma |
| CrudController.RepeatedDirectionSortsAscending | src/main/java/com/dataforge/controller/DynamicCrudController.java:41 | a repeated `orderDirection` sorts ascending, whatever its values |
| CrudController.ReadRecordsEndpoint | src/main/java/com/dataforge/controller/DynamicCrudController.java:34-51 | 200 with one record per row read exactly when the instance exists and the SELECT built from the bound parameters runs; otherwise not-found or the read failure as a runtime error |
| CrudController.PageOf | src/main/java/com/dataforge/controller/DynamicCrudController.java:38 | an absent page is 1 |
| CrudController.LimitOf | src/main/java/com/dataforge/controller/DynamicCrudController.java:39 | an absent limit is 20 |
| CrudController.DefaultPaging | src/main/java/com/dataforge/controller/DynamicCrudController.java:38-39 | without paging parameters the statement ends in ` LIMIT 20 OFFSET 0` |
| CrudController.UpdateRecordEndpoint | src/main/java/com/dataforge/controller/DynamicCrudController.java:53-70 | empty body 400; a positive count 200 with the count; otherwise 404 naming id and table |
| CrudController.DeleteRecordEndpoint | src/main/java/com/dataforge/controller/DynamicCrudController.java:72-84 | a positive count 204 without a body; otherwise 404 |
| CrudController.EmptyBodyNeverReachesService | src/main/java/com/dataforge/controller/DynamicCrudController.java:26-62 | an empty body gets the same 400 whatever the repository and engine hold |
| CrudController.WriteStatusFollowsAffectedRows | src/main/java/com/dataforge/controller/DynamicCrudController.java:64-83 | 200 or 204 exactly when the statement reached an existing instance and changed a row; 404 exactly when it ran and changed none |
| DbUsers.Escape | src/main/java/com/dataforge/service/DbUserManagerService.java:40 | doubling quotes lengthens the text by its number of quotes |
| DbUsers.CollapseEscape | src/main/java/com/dataforge/service/DbUserManagerService.java:40 | collapsing each doubled quote recovers the original text |
| DbUsers.EscapePairsQuotes | src/main/java/com/dataforge/service/DbUserManagerService.java:40 | the escaped text has no unpaired quote |
| DbUsers.EscapedLiteralIsClosedByItsQuote | src/main/java/com/dataforge/service/DbUserManagerService.java:40 | an SQL scanner reading the quoted literal returns exactly the original text and stops at the closing quote |
| DbUsers.CreateUserPasswordLiteral | src/main/java/com/dataforge/service/DbUserManagerService.java:40 | the password literal in `CREATE USER` scans back to the password, followed only by `;` |
| DbUsers.GrantRevokeDual | src/main/java/com/dataforge/service/DbUserManagerService.java:78-99 | GRANT and REVOKE share the privilege-and-table text and differ only in keyword and `TO`/`FROM` |
| DbUsers.SplitJoinedList | src/main/java/com/dataforge/service/DbUserManagerService.java:78 | joining a non-empty list with `, ` loses nothing: cutting the text at every `, ` gives the list back when no entry holds `, ` |
| DbUsers.GrantListsPrivilegesInOrder | src/main/java/com/dataforge/service/DbUserManagerService.java:78-99 | GRANT and REVOKE write one privilege list between the keyword and ` ON TABLE `, and cutting it at `, ` recovers the requested privileges in request order |
| DbUsers.SeparatorInPrivilegeSplits | src/main/java/com/dataforge/service/DbUserManagerService.java:78 | a privilege that holds `, ` itself is read back from the list as two |
| DbUsers.PermissionsQueryQuotesGrantee | src/main/java/com/dataforge/service/DbUserManagerService.java:151-154 | the grantee literal scans back to the user name, followed by the public-schema restriction |
| DbUsers.GroupRowsCollectsEachTable | src/main/java/com/dataforge/service/DbUserManagerService.java:162-167 | a table has a group exactly when some row names it, and the group holds its privileges in row order |
| DbUsers.GroupPermissions | src/main/java/com/dataforge/service/DbUserManagerService.java:169-171 | one entry per table, in the map's iteration order, with that table's privileges |
| DbUsers.GroupPermissionsPartitionsRows | src/main/java/com/dataforge/service/DbUserManagerService.java:162-171 | every row's table appears, no table appears twice, and the privileges total the row count |
| DbUsers.CountListedIsRowCount | src/main/java/com/dataforge/service/DbUserManagerService.java:162-167 | counting each listed table's privileges counts every row once |
| DbUsers.UserInfos | src/main/java/com/dataforge/service/DbUserManagerService.java:127-133 | one user per row, with `usesuper` landing in `canCreateRole` |
| DbUsers.RunOne | src/main/java/com/dataforge/service/DbUserManagerService.java:43-48 | succeeds exactly when the connection opens and the statement runs; otherwise invalid input with the call's prefix and the message of the connection or, if it opened, of the statement |
| DbUsers.ListDbUsers | src/main/java/com/dataforge/service/DbUserManagerService.java:110-138 | the mapped users exactly when instance and read succeed; a read failure is a runtime error |
| DbUsers.ListUserPermissions | src/main/java/com/dataforge/service/DbUserManagerService.java:140-177 | the grouped permissions of the rows the quoted query returns; a read failure is a runtime error naming the user |
| DbUsers.DropUserSql | src/main/java/com/dataforge/service/DbUserManagerService.java:59 | the user name sits verbatim between `DROP USER IF EXISTS ` and the closing `;` |
| DbUsers.CreateDbUser | src/main/java/com/dataforge/service/DbUserManagerService.java:32-49 | succeeds exactly when the instance exists, the connection opens and the CREATE USER runs; a missing instance throws its not-found; other failures are invalid input prefixed `Failed to create database user 'u': ` |
| DbUsers.DeleteDbUser | src/main/java/com/dataforge/service/DbUserManagerService.java:51-68 | succeeds exactly when the instance exists, the connection opens and the DROP USER runs; a missing instance throws its not-found; other failures are invalid input prefixed `Failed to delete database user 'u': ` |
| DbUsers.GrantPermissions | src/main/java/com/dataforge/service/DbUserManagerService.java:70-88 | succeeds exactly when the instance exists, the connection opens and the GRANT runs; a missing instance throws its not-found; other failures are invalid input naming the user and table |
| DbUsers.RevokePermissions | src/main/java/com/dataforge/service/DbUserManagerService.java:90-108 | succeeds exactly when the instance exists, the connection opens and the REVOKE runs; a missing instance throws its not-found; other failures are invalid input naming the user and table |
| DbUsers.UserCallFailureKinds | src/main/java/com/dataforge/service/DbUserManagerService.java:32-108 | a missing instance throws not-found before anything runs; otherwise each write fails only as invalid input |
| Query.ReadPayload | src/main/java/com/dataforge/dto/SqlQueryResponse.java:9-16 | a response read as an error is one with `success` false |
| Query.FactoriesRoundTrip | src/main/java/com/dataforge/dto/SqlQueryResponse.java:18-30 | each factory fills exactly its own payload and reads back as its arguments; `success` is false only for errors |
| Query.FactoriesDisjoint | src/main/java/com/dataforge/dto/SqlQueryResponse.java:18-30 | no two factories build the same response |
| Query.LinkedPut | src/main/java/com/dataforge/service/QueryService.java:53-55 | an existing key keeps its place and takes the new value; a new key goes last; keys stay distinct |
| Query.RowEntriesOrderAndValues | src/main/java/com/dataforge/service/QueryService.java:51-58 | a row's keys are the column names in column order, a repeated name at its first place, with the value of its last column |
| Query.ShapeRows | src/main/java/com/dataforge/service/QueryService.java:51-58 | one ordered row per result row, in result order |
| Query.ExecuteQuery | src/main/java/com/dataforge/service/QueryService.java:25-71 | throws only for a missing instance; a result set, an update count and an SQL error each come back as their own response variant |
| Query.QueryOutcomeShapesResponse | src/main/java/com/dataforge/service/QueryService.java:40-70 | with the instance present the call never throws, reports success exactly when the driver did not fail, and lists the columns in index order |
| Settings.IsMasterPasswordSet | src/main/java/com/dataforge/service/SettingsService.java:22-24 | true exactly when the settings table holds the `MASTER_PASSWORD` key; what that means for setting and verifying is stated by SetMasterPassword, VerifyMasterPassword and SetOnce |
| Settings.SetMasterPassword | src/main/java/com/dataforge/service/SettingsService.java:26-32 | when set, it throws and changes nothing; otherwise it stores the encoded password; afterwards a password is set; no other setting changes |
| Settings.VerifyMasterPassword | src/main/java/com/dataforge/service/SettingsService.java:34-40 | false with nothing stored, else the encoder's verdict on the stored hash |
| Settings.SetThenVerify | src/main/java/com/dataforge/service/SettingsService.java:26-40 | after a first set, verification compares against that hash, and with a sound encoder accepts the password just set |
| Settings.SetOnce | src/main/java/com/dataforge/service/SettingsService.java:26-31 | over any call sequence, a stored hash never changes, and on an empty store the hash that ends up stored is that of the first set |

## Left out

- JDBC connections, `DriverManager`, prepared-statement binding and the catalog calls are not modelled. Their answers are parameters: `Link`, the statement-to-outcome functions, `Rows`, `SchemaCatalog` and `DriverOutcome`.
- The instance password decryption (`EncryptionUtil`) and the BCrypt encoder are opaque. The encoder is a pair of functions; BCrypt's random salt, which makes `encode` return a different hash each call, is folded into that function.
- Console logging (`System.out.println`) is left out: it is output only.
- `DockerService`, `DatabaseInstanceService`, the other controllers, the JPA repositories and application start-up are outside this model. They are I/O orchestration or routing.
- Concurrent use of the schema cache is left out. The cache is sequential state.
- Settings.SetOnce: holds for calls made one after another. `setMasterPassword` checks and then saves without a lock, so two concurrent first calls can both pass the check, and the later save wins.
- Crud.InsertMarksMatchParams, Crud.SelectMarksMatchParams, Crud.UpdateMarksMatchParams and Crud.DeleteMarksMatchParams: proved only for table and column names without `?`. The service interpolates identifiers unchecked, and a `?` in one adds a mark with no parameter (`Crud.MarkInColumnNameMiscounts`).
- Crud.SelectMarksMatchParams: the SELECT's mark count is proved only for names without `?`, as above.
- Crud.UpdateMarksMatchParams: the UPDATE's mark count is proved only for names without `?`, as above.
- Crud.DeleteMarksMatchParams: the DELETE's mark count is proved only for a table name without `?`, as above.
- Column values are null, text, integers and booleans. JSON numbers with a fraction, decimals, arrays and nested objects in a request body are not modelled; the service passes them to the driver unchanged.
- Spring's conversion of `page` and `limit` from query text to `int` is left out. Those arrive as integers or as absent. The other query parameters are bound as Spring binds them: the filter map keeps each name's first value, and `orderBy` and `orderDirection` join repeated values with `,`.
- HashMap iteration order is not modelled. The order of a JSON request body's keys is taken as given by the entry list. The order of `listUserPermissions`' groups is a parameter that must list each table once.
- JavaText.ParseLong: accepts ASCII digits only; `Long.parseLong` also accepts other Unicode decimal digits.
- JavaText.UpperOfCaseInsensitiveMatch: Java case folding is modelled only for ASCII letters and U+017F, the only other character that folds onto a letter of the words compared.
- Ddl.ModifyColumnEffect: a column is reduced to name, type and nullability. Constraints, defaults and data are not tracked.
- Null user names, passwords and SQL texts are not modelled. The database's own answers on them are engine behaviour.
- Query.ExecuteQuery: the update count is an unbounded integer; the driver gives a Java int and nothing is computed from it.
- The `@Valid` cascade into the column and foreign-key records is not modelled. Only the annotations on the request records themselves are compared with `isValid`.
- A column's name and type are plain strings and the column list cannot hold a null element, so the null-pointer exceptions `createTable` would raise on those (src/main/java/com/dataforge/service/TableManagerService.java:255-257) are not modelled; only a null column list is.

## Behaviours worth knowing

- Cache eviction happens after the method returns. A DDL call that throws keeps the cached entry.
- `createRecord` does not reject an empty record; only the controller does.
- `IS_NULLABLE` is compared with `equalsIgnoreCase`. The introspected `isNullable` field receives the inverted value (`TableManager.IntrospectionInvertsNullability`).
