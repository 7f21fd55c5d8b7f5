/** Ad-hoc SQL: the statement is handed to the engine as it is, and the
    driver's answer (a result set, an update count or an SQLException) is
    shaped into one of the three variants of the query response. */
module Query {
  import opened Outcomes
  import opened Engine
  import opened Crud

  /** The response record. `None` is a field Jackson leaves out of the JSON. */
  datatype SqlQueryResponse = SqlQueryResponse(
    success: bool,
    message: Option<string>,
    isQueryResult: Option<bool>,
    columns: Option<seq<string>>,
    rows: Option<seq<Entries<Value>>>,
    rowsAffected: Option<int>)

  const SelectMessage: string := "Query executed successfully."
  const UpdateMessage: string := "Update executed successfully."

  function ForSelect(columns: seq<string>, rows: seq<Entries<Value>>): SqlQueryResponse
  {
    SqlQueryResponse(true, Some(SelectMessage), Some(true), Some(columns), Some(rows), None)
  }

  function ForUpdate(rowsAffected: int): SqlQueryResponse
  {
    SqlQueryResponse(true, Some(UpdateMessage), Some(false), None, None, Some(rowsAffected))
  }

  /** `forError`; the driver's message may itself be null. */
  function ForError(message: Option<string>): SqlQueryResponse
  {
    SqlQueryResponse(false, message, None, None, None, None)
  }

  /** What a response carries, read back from its fields. */
  datatype Payload = SelectPayload(columns: seq<string>, rows: seq<Entries<Value>>) | UpdatePayload(count: int) | ErrorPayload(message: Option<string>)

  /** Reads a response the way a client does: by `success`, then by which
      payload fields are present. */
  function ReadPayload(r: SqlQueryResponse): (p: Option<Payload>)
    ensures p.Some? && p.value.ErrorPayload? ==> !r.success
  {
    if !r.success then
      if r.isQueryResult.None? && r.columns.None? && r.rows.None? && r.rowsAffected.None?
      then Some(ErrorPayload(r.message)) else None
    else if r.columns.Some? && r.rows.Some? && r.rowsAffected.None? && r.isQueryResult == Some(true)
      && r.message == Some(SelectMessage)
    then Some(SelectPayload(r.columns.value, r.rows.value))
    else if r.columns.None? && r.rows.None? && r.rowsAffected.Some? && r.isQueryResult == Some(false)
      && r.message == Some(UpdateMessage)
    then Some(UpdatePayload(r.rowsAffected.value))
    else None
  }

  /** Every factory fills exactly one payload, and reading it back gives the
      factory's arguments; `success` is false exactly for errors. */
  lemma FactoriesRoundTrip(columns: seq<string>, rows: seq<Entries<Value>>, n: int, message: Option<string>)
    ensures ReadPayload(ForSelect(columns, rows)) == Some(SelectPayload(columns, rows))
    ensures ReadPayload(ForUpdate(n)) == Some(UpdatePayload(n))
    ensures ReadPayload(ForError(message)) == Some(ErrorPayload(message))
    ensures ForSelect(columns, rows).success && ForUpdate(n).success && !ForError(message).success
  {
  }

  /** No two factories produce the same response. */
  lemma FactoriesDisjoint(columns: seq<string>, rows: seq<Entries<Value>>, n: int, message: Option<string>)
    ensures ForSelect(columns, rows) != ForUpdate(n)
    ensures ForSelect(columns, rows) != ForError(message)
    ensures ForUpdate(n) != ForError(message)
  {
  }

  // ---------------------------------------------------------------- ordered rows

  /** The position of the first `k` in `ks`. */
  function IndexOf(ks: seq<string>, k: string): (i: nat)
    requires k in ks
    ensures i < |ks| && ks[i] == k && k !in ks[..i]
  {
    if ks[0] == k then 0
    else
      var i := 1 + IndexOf(ks[1..], k);
      assert ks[..i] == [ks[0]] + ks[1..][..i - 1];
      i
  }

  /** `LinkedHashMap.put`: an existing key keeps its position and takes the
      new value; a new key goes to the end. */
  function LinkedPut(m: Entries<Value>, k: string, v: Value): (r: Entries<Value>)
    requires DistinctKeys(m)
    ensures DistinctKeys(r)
    ensures Keys(r) == if k in Keys(m) then Keys(m) else Keys(m) + [k]
    ensures forall i :: 0 <= i < |r| ==> r[i].1 == (if r[i].0 == k then v else m[i].1)
  {
    if k in Keys(m) then m[IndexOf(Keys(m), k) := (k, v)] else m + [(k, v)]
  }

  /** The column names with later repeats dropped. */
  function FirstOccurrences(names: seq<string>): (r: seq<string>)
    ensures forall k :: k in r <==> k in names
  {
    if |names| == 0 then []
    else
      var n := |names| - 1;
      var d := FirstOccurrences(names[..n]);
      assert forall k :: k in names <==> k in names[..n] || k == names[n];
      if names[n] in d then d else d + [names[n]]
  }

  /** The value in the last column called `k`, if any column is. */
  function LastValue(columns: seq<string>, values: seq<Value>, k: string): (r: Option<Value>)
    requires |columns| == |values|
    ensures r.Some? <==> k in columns
  {
    if |columns| == 0 then None
    else
      var n := |columns| - 1;
      assert forall x :: x in columns <==> x in columns[..n] || x == columns[n];
      if columns[n] == k then Some(values[n]) else LastValue(columns[..n], values[..n], k)
  }

  /** One row as the query service builds it: one `put` per column. */
  function RowEntries(columns: seq<string>, values: seq<Value>): (r: Entries<Value>)
    requires |columns| == |values|
    ensures DistinctKeys(r)
  {
    if |columns| == 0 then []
    else
      var n := |columns| - 1;
      LinkedPut(RowEntries(columns[..n], values[..n]), columns[n], values[n])
  }

  /** The row's keys are the column names in column order, a repeated name
      at its first position; its value is that of the name's last column. */
  lemma {:induction false} RowEntriesOrderAndValues(columns: seq<string>, values: seq<Value>)
    requires |columns| == |values|
    ensures Keys(RowEntries(columns, values)) == FirstOccurrences(columns)
    ensures forall i :: 0 <= i < |RowEntries(columns, values)| ==>
              Some(RowEntries(columns, values)[i].1) == LastValue(columns, values, RowEntries(columns, values)[i].0)
  {
    if |columns| > 0 {
      var n := |columns| - 1;
      var before := RowEntries(columns[..n], values[..n]);
      RowEntriesOrderAndValues(columns[..n], values[..n]);
      var r := RowEntries(columns, values);
      forall i | 0 <= i < |r|
        ensures Some(r[i].1) == LastValue(columns, values, r[i].0)
      {
        if r[i].0 != columns[n] {
          assert i < |before| && Keys(r)[i] == Keys(before)[i];
        }
      }
    }
  }

  // ---------------------------------------------------------------- executeQuery

  /** What the driver does with one statement text. */
  datatype DriverOutcome =
    | SqlError(message: Option<string>)
    | ResultSet(columns: seq<string>, values: seq<seq<Value>>)
    | UpdateCount(count: int)

  /** A result set holds one value per column in every row. */
  predicate WellShaped(o: DriverOutcome) {
    o.ResultSet? ==> forall i :: 0 <= i < |o.values| ==> |o.values[i]| == |o.columns|
  }

  function ShapeRows(columns: seq<string>, values: seq<seq<Value>>): (r: seq<Entries<Value>>)
    requires forall i :: 0 <= i < |values| ==> |values[i]| == |columns|
    ensures |r| == |values| && forall i :: 0 <= i < |values| ==> r[i] == RowEntries(columns, values[i])
  {
    seq(|values|, i requires 0 <= i < |values| => RowEntries(columns, values[i]))
  }

  /** `executeQuery`: an unknown instance is thrown; every SQL failure is
      turned into an error response. */
  function ExecuteQuery(repo: Repository, driver: string -> DriverOutcome, dbId: int, sql: string): (r: Result<SqlQueryResponse>)
    requires WellShaped(driver(sql))
    ensures r.Threw? <==> dbId !in repo
    ensures r.Threw? ==> r.thrown == FindInstance(repo, dbId).thrown
    ensures r.Ok? ==> match driver(sql)
                      case SqlError(m) => ReadPayload(r.value) == Some(ErrorPayload(m))
                      case UpdateCount(n) => ReadPayload(r.value) == Some(UpdatePayload(n))
                      case ResultSet(cols, vals) => ReadPayload(r.value) == Some(SelectPayload(cols, ShapeRows(cols, vals)))
  {
    match FindInstance(repo, dbId)
    case Threw(e) => Threw(e)
    case Ok(_) =>
      match driver(sql)
      case SqlError(m) => Ok(ForError(m))
      case UpdateCount(n) => Ok(ForUpdate(n))
      case ResultSet(cols, vals) => Ok(ForSelect(cols, ShapeRows(cols, vals)))
  }

  /** The response reports success exactly when the driver did not fail, and
      a result set's columns are the metadata names in index order. */
  lemma QueryOutcomeShapesResponse(repo: Repository, driver: string -> DriverOutcome, dbId: int, sql: string)
    requires dbId in repo && WellShaped(driver(sql))
    ensures ExecuteQuery(repo, driver, dbId, sql).Ok?
    ensures ExecuteQuery(repo, driver, dbId, sql).value.success <==> !driver(sql).SqlError?
    ensures driver(sql).ResultSet? ==> ExecuteQuery(repo, driver, dbId, sql).value.columns == Some(driver(sql).columns)
  {
  }
}
