/** What every service does before it builds SQL: look the instance up in the
    repository, and talk to its PostgreSQL engine through a short-lived JDBC
    connection. The engine is abstract: a link says whether opening the
    connection fails and how each statement fares. */
module Engine {
  import opened Outcomes
  import opened JavaText
  import Ddl

  /** The stored coordinates of a provisioned database. The password is kept
      encrypted; decrypting it is the credential vault's business. */
  datatype DatabaseInstance = DatabaseInstance(
    host: string,
    port: int,
    dbName: string,
    dbUser: string,
    dbPassword: string)

  /** The instance repository: identifier to stored instance. */
  type Repository = map<int, DatabaseInstance>

  /** `findInstance`: the stored instance, or ResourceNotFoundException. */
  function FindInstance(repo: Repository, dbId: int): (r: Result<DatabaseInstance>)
    ensures r.Ok? <==> dbId in repo
    ensures r.Ok? ==> r.value == repo[dbId]
    ensures r.Threw? ==> r.thrown == ResourceNotFound("Database instance not found with id: " + LongToString(dbId))
  {
    if dbId in repo then Ok(repo[dbId])
    else Threw(ResourceNotFound("Database instance not found with id: " + LongToString(dbId)))
  }

  /** The JDBC URL every service connects to. */
  function InstanceUrl(i: DatabaseInstance): string
  {
    Ddl.JdbcUrl(i.host, i.port, i.dbName)
  }

  /** One JDBC session: the SQLException message of `getConnection`, if it
      fails, and the SQLException message each statement text raises, if any. */
  datatype Link = Link(openError: Option<string>, run: string -> Option<string>)

  /** A query or catalog read: the SQLException message, or the rows in
      result order. */
  datatype Rows<T> = RowsFailed(message: string) | RowsRead(rows: seq<T>)

  /** Executes statements one after another on one connection; the first
      SQLException ends the session and is reported. */
  function RunScript(link: Link, stmts: seq<string>): (r: Option<string>)
    ensures r.None? <==> link.openError.None? && forall i :: 0 <= i < |stmts| ==> link.run(stmts[i]).None?
  {
    if link.openError.Some? then link.openError else FirstFailure(link.run, stmts)
  }

  /** A call that found its instance and then failed on the connection or a
      statement: invalid input whose message starts with the call's prefix. */
  predicate FailsWithPrefix(r: Result<Unit>, prefix: string) {
    r.Threw? && r.thrown.InvalidInput? && prefix <= r.thrown.message
  }

  /** The message of the first statement that fails, if one does. */
  function FirstFailure(run: string -> Option<string>, stmts: seq<string>): (r: Option<string>)
    ensures r.None? <==> forall i :: 0 <= i < |stmts| ==> run(stmts[i]).None?
    ensures r.Some? ==> exists i :: 0 <= i < |stmts| && run(stmts[i]) == r
                                   && forall j :: 0 <= j < i ==> run(stmts[j]).None?
  {
    if |stmts| == 0 then None
    else if run(stmts[0]).Some? then run(stmts[0])
    else
      var rest := FirstFailure(run, stmts[1..]);
      assert forall i :: 1 <= i < |stmts| ==> stmts[i] == stmts[1..][i - 1];
      if rest.Some? then
        var k :| 0 <= k < |stmts[1..]| && run(stmts[1..][k]) == rest
                 && forall j :: 0 <= j < k ==> run(stmts[1..][j]).None?;
        assert forall j :: 0 <= j < k + 1 ==> run(stmts[j]).None? by {
          forall j | 0 <= j < k + 1 ensures run(stmts[j]).None? {
            if j > 0 { assert stmts[j] == stmts[1..][j - 1]; }
          }
        }
        rest
      else rest
  }

  /** The statements that reach the engine: all of them when the session is
      clean, otherwise those up to and including the first that fails. */
  function Executed(link: Link, stmts: seq<string>): (r: seq<string>)
    ensures |r| <= |stmts| && r == stmts[..|r|]
    ensures RunScript(link, stmts).None? ==> r == stmts
    ensures link.openError.None? && RunScript(link, stmts).Some? ==>
              |r| > 0 && link.run(r[|r| - 1]) == RunScript(link, stmts)
              && forall j :: 0 <= j < |r| - 1 ==> link.run(r[j]).None?
  {
    if link.openError.Some? then [] else ExecutedFrom(link.run, stmts)
  }

  function ExecutedFrom(run: string -> Option<string>, stmts: seq<string>): (r: seq<string>)
    ensures |r| <= |stmts| && r == stmts[..|r|]
    ensures FirstFailure(run, stmts).None? ==> r == stmts
    ensures FirstFailure(run, stmts).Some? ==>
              |r| > 0 && run(r[|r| - 1]) == FirstFailure(run, stmts)
              && forall j :: 0 <= j < |r| - 1 ==> run(r[j]).None?
  {
    if |stmts| == 0 then []
    else if run(stmts[0]).Some? then [stmts[0]]
    else
      var rest := ExecutedFrom(run, stmts[1..]);
      assert [stmts[0]] + stmts[1..][..|rest|] == stmts[..|rest| + 1];
      [stmts[0]] + rest
  }
}
