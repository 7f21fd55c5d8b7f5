/** The dynamic CRUD service: it turns a table name and a JSON-shaped record
    into a prepared statement (text plus the parameters bound to its `?`
    marks, in order), hands it to the engine, and maps engine failures to the
    API's exceptions. Table, column and ORDER BY names are interpolated
    verbatim; only values travel as parameters. */
module Crud {
  import opened Outcomes
  import opened JavaText
  import opened Engine

  /** A value bound to or read from a statement: what a JSON body or a
      result column carries. */
  datatype Value = Null | Text(text: string) | Integer(integer: int) | Flag(flag: bool)

  /** A Java map, as the pairs its iteration visits, in that order. `keySet`
      and `values` of one map visit the pairs in the same order. */
  type Entries<V> = seq<(string, V)>

  function Keys<V>(m: Entries<V>): (r: seq<string>)
    ensures |r| == |m| && forall i :: 0 <= i < |m| ==> r[i] == m[i].0
  {
    seq(|m|, i requires 0 <= i < |m| => m[i].0)
  }

  function Values<V>(m: Entries<V>): (r: seq<V>)
    ensures |r| == |m| && forall i :: 0 <= i < |m| ==> r[i] == m[i].1
  {
    seq(|m|, i requires 0 <= i < |m| => m[i].1)
  }

  /** A map's entry list: no key occurs twice. */
  predicate DistinctKeys<V>(m: Entries<V>) {
    forall i, j :: 0 <= i < j < |m| ==> m[i].0 != m[j].0
  }

  /** A prepared statement: its text and the parameters bound to marks 1, 2, … */
  datatype Statement = Statement(sql: string, params: seq<Value>)

  // ---------------------------------------------------------------- parseId

  /** `parseId`: a text `Long.parseLong` accepts becomes that long; any other
      value, a non-numeric text included, is passed on as it is. */
  function ParseId(v: Value): (r: Value)
    ensures r != v ==> v.Text? && r.Integer? && ParseLong(v.text) == Some(r.integer)
    ensures v.Text? && ParseLong(v.text).Some? ==> r == Integer(ParseLong(v.text).value)
  {
    match v
    case Text(s) =>
      (match ParseLong(s)
       case Some(n) => Integer(n)
       case None => v)
    case _ => v
  }

  /** Parsing an identifier twice is parsing it once. */
  lemma ParseIdIdempotent(v: Value)
    ensures ParseId(ParseId(v)) == ParseId(v)
  {
  }

  /** A long written out in decimal comes back as that long. */
  lemma ParseIdOfFormattedLong(n: int)
    requires IsLong(n)
    ensures ParseId(Text(LongToString(n))) == Integer(n)
  {
    LongRoundTrip(n);
  }

  /** A text with a character that is neither a digit nor a leading sign,
      such as a UUID, is kept as text. */
  lemma NonNumericIdKept(s: string, i: nat)
    requires i < |s| && !IsDigit(s[i]) && !(i == 0 && (s[0] == '-' || s[0] == '+'))
    ensures ParseId(Text(s)) == Text(s)
  {
    if i > 0 {
      assert s[i] == s[1..][i - 1];
    }
  }

  // ---------------------------------------------------------------- placeholder counting

  /** `n` parameter marks. */
  function Marks(n: nat): (r: seq<string>)
    ensures |r| == n && forall i :: 0 <= i < n ==> r[i] == "?"
  {
    seq(n, i => "?")
  }

  /** `k = ?` for every key, in order. */
  function Assignments(keys: seq<string>): (r: seq<string>)
    ensures |r| == |keys| && forall i :: 0 <= i < |keys| ==> r[i] == keys[i] + " = ?"
  {
    seq(|keys|, i requires 0 <= i < |keys| => keys[i] + " = ?")
  }

  /** No identifier in a list contains a parameter mark. */
  predicate MarkFree(names: seq<string>) {
    forall i :: 0 <= i < |names| ==> '?' !in names[i]
  }

  /** The fixed pieces of statement text hold no marks besides the ones
      that stand for parameters. */
  lemma InsertLiterals()
    ensures '?' !in "INSERT INTO " && '?' !in " (" && '?' !in ") VALUES (" && '?' !in ")"
  {
  }

  lemma SelectLiterals()
    ensures '?' !in "SELECT * FROM " && '?' !in " WHERE " && '?' !in " AND "
    ensures '?' !in " ORDER BY " && '?' !in " " && '?' !in "ASC" && '?' !in "DESC"
  {
  }

  lemma LimitLiterals()
    ensures '?' !in " LIMIT " && '?' !in " OFFSET "
  {
  }

  lemma UpdateLiterals()
    ensures '?' !in "UPDATE " && '?' !in " SET " && '?' !in ", " && '?' !in " WHERE id = "
  {
  }

  lemma {:induction false} SumCountsNone(parts: seq<string>, c: char)
    requires forall i :: 0 <= i < |parts| ==> c !in parts[i]
    ensures SumCounts(parts, c) == 0
  {
    if |parts| > 0 {
      assert forall i :: 0 <= i < |parts[1..]| ==> parts[1..][i] == parts[i + 1];
      SumCountsNone(parts[1..], c);
    }
  }

  lemma {:induction false} SumCountsOnes(parts: seq<string>, c: char)
    requires forall i :: 0 <= i < |parts| ==> CountChar(parts[i], c) == 1
    ensures SumCounts(parts, c) == |parts|
  {
    if |parts| > 0 {
      assert forall i :: 0 <= i < |parts[1..]| ==> parts[1..][i] == parts[i + 1];
      SumCountsOnes(parts[1..], c);
    }
  }

  /** A list of marks joined by `", "` holds exactly one mark per entry. */
  lemma MarksCount(n: nat)
    ensures CountChar(Join(Marks(n), ", "), '?') == n
  {
    CountJoin(Marks(n), ", ", '?');
    SumCountsOnes(Marks(n), '?');
  }

  /** `k1 = ?` … joined by a mark-free separator holds one mark per key. */
  lemma AssignmentsCount(keys: seq<string>, sep: string)
    requires MarkFree(keys) && '?' !in sep
    ensures CountChar(Join(Assignments(keys), sep), '?') == |keys|
  {
    var parts := Assignments(keys);
    forall i | 0 <= i < |parts| ensures CountChar(parts[i], '?') == 1 {
      CountConcat(keys[i], " = ?", '?');
    }
    CountJoin(parts, sep, '?');
    SumCountsOnes(parts, '?');
  }

  lemma NamesCount(names: seq<string>, sep: string)
    requires MarkFree(names) && '?' !in sep
    ensures CountChar(Join(names, sep), '?') == 0
  {
    CountJoin(names, sep, '?');
    SumCountsNone(names, '?');
  }

  // ---------------------------------------------------------------- INSERT

  /** `INSERT INTO t (k1, …, kn) VALUES (?, …, ?)` with the values bound in
      the order of the keys. An empty record gives `INSERT INTO t () VALUES ()`. */
  function InsertStatement(table: string, record: Entries<Value>): (s: Statement)
    ensures |s.params| == |record| && forall i :: 0 <= i < |record| ==> s.params[i] == record[i].1
  {
    Statement("INSERT INTO " + table + " (" + Join(Keys(record), ", ") + ") VALUES ("
              + Join(Marks(|record|), ", ") + ")",
              Values(record))
  }

  /** The marks of an INSERT: one per bound parameter, plus any the table
      name and the column names hold themselves. */
  lemma InsertMarks(table: string, record: Entries<Value>)
    ensures CountChar(InsertStatement(table, record).sql, '?')
            == |InsertStatement(table, record).params| + CountChar(table, '?') + CountChar(Join(Keys(record), ", "), '?')
  {
    var cols := Join(Keys(record), ", ");
    var marks := Join(Marks(|record|), ", ");
    InsertLiterals();
    MarksCount(|record|);
    var a := "INSERT INTO " + table;
    CountConcat("INSERT INTO ", table, '?');
    var b := a + " (";
    CountConcat(a, " (", '?');
    var c := b + cols;
    CountConcat(b, cols, '?');
    var d := c + ") VALUES (";
    CountConcat(c, ") VALUES (", '?');
    var e := d + marks;
    CountConcat(d, marks, '?');
    CountConcat(e, ")", '?');
  }

  /** One mark per bound parameter, as long as no identifier holds a mark. */
  lemma InsertMarksMatchParams(table: string, record: Entries<Value>)
    requires '?' !in table && MarkFree(Keys(record))
    ensures CountChar(InsertStatement(table, record).sql, '?') == |InsertStatement(table, record).params|
  {
    InsertMarks(table, record);
    NamesCount(Keys(record), ", ");
  }

  /** Identifiers are interpolated unchecked: a column name holding a mark
      gives the statement more marks than bound parameters. */
  lemma MarkInColumnNameMiscounts(table: string, name: string, v: Value)
    requires '?' in name
    ensures CountChar(InsertStatement(table, [(name, v)]).sql, '?') > |InsertStatement(table, [(name, v)]).params|
  {
    InsertMarks(table, [(name, v)]);
    assert Keys([(name, v)]) == [name];
  }

  lemma InsertOfEmptyRecord(table: string)
    ensures InsertStatement(table, []) == Statement("INSERT INTO " + table + " () VALUES ()", [])
  {
  }

  // ---------------------------------------------------------------- SELECT

  /** The WHERE part: present exactly when there are filters, one `k = ?`
      per filter joined by `" AND "`. */
  function WhereClause(filters: Option<Entries<string>>): (r: string)
    ensures r == "" <==> filters.None? || |filters.value| == 0
    ensures r != "" ==> r == " WHERE " + Join(Assignments(Keys(filters.value)), " AND ")
  {
    if filters.Some? && |filters.value| > 0 then " WHERE " + Join(Assignments(Keys(filters.value)), " AND ")
    else ""
  }

  /** The parameters of the WHERE part: the filter values, in order. */
  function FilterParams(filters: Option<Entries<string>>): (r: seq<Value>)
    ensures filters.None? ==> r == []
    ensures filters.Some? ==> |r| == |filters.value|
                              && forall i :: 0 <= i < |r| ==> r[i] == Text(filters.value[i].1)
  {
    if filters.Some? && |filters.value| > 0 then
      seq(|filters.value|, i requires 0 <= i < |filters.value| => Text(filters.value[i].1))
    else []
  }

  /** The sort direction: the upper-cased input when it is ASC or DESC in
      any case, otherwise ASC. */
  function Direction(orderDirection: Option<string>): (r: string)
    ensures r == "ASC" || r == "DESC"
    ensures orderDirection.Some? && EqualsIgnoreCase(orderDirection.value, "DESC") ==> r == "DESC"
    ensures orderDirection.None? || !EqualsIgnoreCase(orderDirection.value, "DESC") ==> r == "ASC"
  {
    if orderDirection.Some? && (EqualsIgnoreCase(orderDirection.value, "ASC") || EqualsIgnoreCase(orderDirection.value, "DESC")) then
      if EqualsIgnoreCase(orderDirection.value, "ASC") then
        UpperOfCaseInsensitiveMatch(orderDirection.value, "ASC");
        ToUpper(orderDirection.value)
      else
        UpperOfCaseInsensitiveMatch(orderDirection.value, "DESC");
        ToUpper(orderDirection.value)
    else "ASC"
  }

  /** The ORDER BY part: present exactly when the column has text. */
  function OrderClause(orderBy: Option<string>, orderDirection: Option<string>): (r: string)
    ensures r == "" <==> !HasText(orderBy)
    ensures r != "" ==> r == " ORDER BY " + orderBy.value + " " + Direction(orderDirection)
  {
    if HasText(orderBy) then " ORDER BY " + orderBy.value + " " + Direction(orderDirection) else ""
  }

  const WordSize: int := 0x1_0000_0000

  /** Congruence modulo 2^32 survives multiplication. */
  lemma MulCongruent(a: int, b: int, c: int)
    requires (a - b) % WordSize == 0
    ensures (a * c - b * c) % WordSize == 0
  {
    var k := (a - b) / WordSize;
    assert a - b == k * WordSize;
    assert a * c - b * c == (k * c) * WordSize by {
      assert a * c - b * c == (a - b) * c;
    }
  }

  /** Two Java ints congruent modulo 2^32 are equal. */
  lemma CongruentInts(x: int, y: int)
    requires IsInt(x) && IsInt(y) && (x - y) % WordSize == 0
    ensures x == y
  {
    var k := (x - y) / WordSize;
    assert x - y == k * WordSize;
  }

  /** `(page - 1) * limit` in Java `int` arithmetic. */
  function Offset(page: int, limit: int): (r: int)
    requires IsInt(page) && IsInt(limit)
    ensures IsInt(r)
    ensures page == 1 ==> r == 0
  {
    WrapInt(WrapInt(page - 1) * limit)
  }

  /** The offset is the true product `(page - 1) * limit` modulo 2^32, and
      equal to it whenever the product fits in an `int`. */
  lemma OffsetIsWrappedProduct(page: int, limit: int)
    requires IsInt(page) && IsInt(limit)
    ensures (Offset(page, limit) - (page - 1) * limit) % WordSize == 0
    ensures IsInt((page - 1) * limit) ==> Offset(page, limit) == (page - 1) * limit
  {
    var p := WrapInt(page - 1);
    var y := p * limit;
    var r := WrapInt(y);
    MulCongruent(p, page - 1, limit);
    SharedCongruence(y, r, (page - 1) * limit);
    if IsInt((page - 1) * limit) {
      CongruentInts(r, (page - 1) * limit);
    }
  }

  /** Two numbers congruent to a third modulo 2^32 are congruent to each other. */
  lemma SharedCongruence(y: int, r: int, x: int)
    requires (y - r) % WordSize == 0 && (y - x) % WordSize == 0
    ensures (r - x) % WordSize == 0
  {
    var i := (y - r) / WordSize;
    var j := (y - x) / WordSize;
    assert r - x == (j - i) * WordSize;
  }

  function LimitClause(page: int, limit: int): string
    requires IsInt(page) && IsInt(limit)
  {
    " LIMIT " + LongToString(limit) + " OFFSET " + LongToString(Offset(page, limit))
  }

  /** The statement of `readRecords`. */
  function SelectStatement(table: string, page: int, limit: int, filters: Option<Entries<string>>,
                           orderBy: Option<string>, orderDirection: Option<string>): (s: Statement)
    requires IsInt(page) && IsInt(limit)
    ensures s.params == FilterParams(filters)
    ensures var tail := LimitClause(page, limit);
            |s.sql| >= |tail| && s.sql[|s.sql| - |tail|..] == tail
  {
    var sql := "SELECT * FROM " + table + WhereClause(filters) + OrderClause(orderBy, orderDirection);
    var tail := LimitClause(page, limit);
    assert (sql + tail)[|sql|..] == tail;
    Statement(sql + tail, FilterParams(filters))
  }

  /** The direction is dropped when there is no column to order by. */
  lemma DirectionIgnoredWithoutOrderColumn(table: string, page: int, limit: int, filters: Option<Entries<string>>,
                                           orderBy: Option<string>, d1: Option<string>, d2: Option<string>)
    requires IsInt(page) && IsInt(limit) && !HasText(orderBy)
    ensures SelectStatement(table, page, limit, filters, orderBy, d1) == SelectStatement(table, page, limit, filters, orderBy, d2)
  {
  }

  /** One mark per bound parameter, as long as no identifier holds a mark. */
  lemma SelectMarksMatchParams(table: string, page: int, limit: int, filters: Option<Entries<string>>,
                               orderBy: Option<string>, orderDirection: Option<string>)
    requires IsInt(page) && IsInt(limit)
    requires '?' !in table
    requires filters.Some? ==> MarkFree(Keys(filters.value))
    requires orderBy.Some? ==> '?' !in orderBy.value
    ensures var s := SelectStatement(table, page, limit, filters, orderBy, orderDirection);
            CountChar(s.sql, '?') == |s.params|
  {
    var w := WhereClause(filters);
    var o := OrderClause(orderBy, orderDirection);
    var l := LimitClause(page, limit);
    WhereMarks(filters);
    OrderMarks(orderBy, orderDirection);
    LimitMarks(page, limit);
    SelectLiterals();
    CountConcat("SELECT * FROM ", table, '?');
    CountConcat("SELECT * FROM " + table, w, '?');
    CountConcat("SELECT * FROM " + table + w, o, '?');
    CountConcat("SELECT * FROM " + table + w + o, l, '?');
  }

  lemma WhereMarks(filters: Option<Entries<string>>)
    requires filters.Some? ==> MarkFree(Keys(filters.value))
    ensures CountChar(WhereClause(filters), '?') == |FilterParams(filters)|
  {
    if filters.Some? && |filters.value| > 0 {
      var keys := Keys(filters.value);
      SelectLiterals();
      AssignmentsCount(keys, " AND ");
      CountConcat(" WHERE ", Join(Assignments(keys), " AND "), '?');
    }
  }

  lemma OrderMarks(orderBy: Option<string>, orderDirection: Option<string>)
    requires orderBy.Some? ==> '?' !in orderBy.value
    ensures CountChar(OrderClause(orderBy, orderDirection), '?') == 0
  {
    if HasText(orderBy) {
      var d := Direction(orderDirection);
      SelectLiterals();
      CountConcat(" ORDER BY ", orderBy.value, '?');
      CountConcat(" ORDER BY " + orderBy.value, " ", '?');
      CountConcat(" ORDER BY " + orderBy.value + " ", d, '?');
    }
  }

  lemma LimitMarks(page: int, limit: int)
    requires IsInt(page) && IsInt(limit)
    ensures CountChar(LimitClause(page, limit), '?') == 0
  {
    var lim := LongToString(limit);
    var off := LongToString(Offset(page, limit));
    assert '?' !in lim && '?' !in off by {
      assert forall i :: 0 <= i < |lim| ==> lim[i] == '-' || IsDigit(lim[i]);
      assert forall i :: 0 <= i < |off| ==> off[i] == '-' || IsDigit(off[i]);
    }
    LimitLiterals();
    CountConcat(" LIMIT ", lim, '?');
    CountConcat(" LIMIT " + lim, " OFFSET ", '?');
    CountConcat(" LIMIT " + lim + " OFFSET ", off, '?');
  }

  // ---------------------------------------------------------------- UPDATE and DELETE

  /** `UPDATE t SET k1 = ?, …, kn = ? WHERE id = ?`: the update values in
      key order, then the parsed identifier. */
  function UpdateStatement(table: string, recordId: Value, updates: Entries<Value>): (s: Statement)
    ensures |s.params| == |updates| + 1
    ensures forall i :: 0 <= i < |updates| ==> s.params[i] == updates[i].1
    ensures s.params[|updates|] == ParseId(recordId)
  {
    Statement("UPDATE " + table + " SET " + Join(Assignments(Keys(updates)), ", ") + " WHERE id = ?",
              Values(updates) + [ParseId(recordId)])
  }

  lemma UpdateMarksMatchParams(table: string, recordId: Value, updates: Entries<Value>)
    requires '?' !in table && MarkFree(Keys(updates))
    ensures var s := UpdateStatement(table, recordId, updates);
            CountChar(s.sql, '?') == |s.params|
  {
    var assignments := Join(Assignments(Keys(updates)), ", ");
    var lead := "UPDATE " + table + " SET " + assignments;
    var where_ := " WHERE id = ";
    UpdateLiterals();
    AssignmentsCount(Keys(updates), ", ");
    assert UpdateStatement(table, recordId, updates).sql == lead + where_ + "?";
    CountConcat("UPDATE ", table, '?');
    CountConcat("UPDATE " + table, " SET ", '?');
    CountConcat("UPDATE " + table + " SET ", assignments, '?');
    CountConcat(lead, where_, '?');
    CountConcat(lead + where_, "?", '?');
  }

  /** `DELETE FROM t WHERE id = ?` with the parsed identifier as its one parameter. */
  function DeleteStatement(table: string, recordId: Value): (s: Statement)
    ensures s.params == [ParseId(recordId)]
  {
    Statement("DELETE FROM " + table + " WHERE id = ?", [ParseId(recordId)])
  }

  lemma DeleteMarksMatchParams(table: string, recordId: Value)
    requires '?' !in table
    ensures CountChar(DeleteStatement(table, recordId).sql, '?') == 1
  {
    var lead := "DELETE FROM ";
    var where_ := " WHERE id = ";
    assert '?' !in lead && '?' !in where_;
    assert DeleteStatement(table, recordId).sql == lead + table + where_ + "?";
    CountConcat(lead, table, '?');
    CountConcat(lead + table, where_, '?');
    CountConcat(lead + table + where_, "?", '?');
  }

  // ---------------------------------------------------------------- reading rows

  /** A row read into a `HashMap`: one `put` per column, in column order. */
  function RowRecord(columns: seq<string>, values: seq<Value>): map<string, Value>
    requires |columns| == |values|
    decreases |columns|
  {
    if |columns| == 0 then map[]
    else
      var n := |columns| - 1;
      RowRecord(columns[..n], values[..n])[columns[n] := values[n]]
  }

  /** The record has exactly the row's column names as keys, and each name
      maps to the value of its last occurrence, since a later `put`
      overwrites an earlier one. */
  lemma {:induction false} RowRecordLastWins(columns: seq<string>, values: seq<Value>)
    requires |columns| == |values|
    ensures forall k :: k in RowRecord(columns, values) <==> k in columns
    ensures forall i :: 0 <= i < |columns| && (forall j :: i < j < |columns| ==> columns[j] != columns[i]) ==>
              RowRecord(columns, values)[columns[i]] == values[i]
    decreases |columns|
  {
    if |columns| > 0 {
      var n := |columns| - 1;
      RowRecordLastWins(columns[..n], values[..n]);
      assert columns == columns[..n] + [columns[n]];
      assert forall i :: 0 <= i < n ==> columns[..n][i] == columns[i] && values[..n][i] == values[i];
    }
  }

  /** What the engine does with one write statement: the SQLException
      message, or the update count. */
  datatype WriteOutcome = WriteFailed(message: string) | Updated(count: int)

  /** What the engine does with one query: the SQLException message, or the
      column labels and the rows, each row holding one value per column. */
  datatype ReadOutcome = ReadFailed(message: string) | ResultRows(columns: seq<string>, rows: seq<seq<Value>>)

  predicate Rectangular(o: ReadOutcome) {
    o.ResultRows? ==> forall i :: 0 <= i < |o.rows| ==> |o.rows[i]| == |o.columns|
  }

  // ---------------------------------------------------------------- the service calls

  function CreateRecord(repo: Repository, engine: Statement -> WriteOutcome, dbId: int, table: string, record: Entries<Value>): (r: Result<Unit>)
    ensures r.Ok? <==> dbId in repo && engine(InsertStatement(table, record)).Updated?
    ensures dbId in repo && engine(InsertStatement(table, record)).WriteFailed? ==>
              r == Threw(InvalidInput("Failed to create record in table '" + table + "': " + engine(InsertStatement(table, record)).message))
  {
    match FindInstance(repo, dbId)
    case Threw(e) => Threw(e)
    case Ok(_) =>
      match engine(InsertStatement(table, record))
      case WriteFailed(m) => Threw(InvalidInput("Failed to create record in table '" + table + "': " + m))
      case Updated(_) => Ok(Unit)
  }

  /** The records of a result: one `HashMap` per row, in row order. */
  function Records(columns: seq<string>, rows: seq<seq<Value>>): (r: seq<map<string, Value>>)
    requires forall i :: 0 <= i < |rows| ==> |rows[i]| == |columns|
    ensures |r| == |rows| && forall i :: 0 <= i < |rows| ==> r[i] == RowRecord(columns, rows[i])
  {
    seq(|rows|, i requires 0 <= i < |rows| => RowRecord(columns, rows[i]))
  }

  function ReadRecords(repo: Repository, engine: Statement -> ReadOutcome, dbId: int, table: string, page: int, limit: int,
                       filters: Option<Entries<string>>, orderBy: Option<string>, orderDirection: Option<string>): (r: Result<seq<map<string, Value>>>)
    requires IsInt(page) && IsInt(limit)
    requires Rectangular(engine(SelectStatement(table, page, limit, filters, orderBy, orderDirection)))
    ensures var o := engine(SelectStatement(table, page, limit, filters, orderBy, orderDirection));
            && (r.Ok? <==> dbId in repo && o.ResultRows?)
            && (r.Ok? ==> r.value == Records(o.columns, o.rows))
            && (dbId in repo && o.ReadFailed? ==> r == Threw(RuntimeFailure("Failed to read records from table '" + table + "': " + o.message)))
  {
    match FindInstance(repo, dbId)
    case Threw(e) => Threw(e)
    case Ok(_) =>
      match engine(SelectStatement(table, page, limit, filters, orderBy, orderDirection))
      case ReadFailed(m) => Threw(RuntimeFailure("Failed to read records from table '" + table + "': " + m))
      case ResultRows(cols, rows) => Ok(Records(cols, rows))
  }

  function UpdateRecord(repo: Repository, engine: Statement -> WriteOutcome, dbId: int, table: string, recordId: Value, updates: Entries<Value>): (r: Result<int>)
    ensures var o := engine(UpdateStatement(table, recordId, updates));
            && (r.Ok? <==> dbId in repo && o.Updated?)
            && (r.Ok? ==> r.value == o.count)
            && (dbId in repo && o.WriteFailed? ==> r == Threw(InvalidInput("Failed to update record in table '" + table + "': " + o.message)))
  {
    match FindInstance(repo, dbId)
    case Threw(e) => Threw(e)
    case Ok(_) =>
      match engine(UpdateStatement(table, recordId, updates))
      case WriteFailed(m) => Threw(InvalidInput("Failed to update record in table '" + table + "': " + m))
      case Updated(n) => Ok(n)
  }

  function DeleteRecord(repo: Repository, engine: Statement -> WriteOutcome, dbId: int, table: string, recordId: Value): (r: Result<int>)
    ensures var o := engine(DeleteStatement(table, recordId));
            && (r.Ok? <==> dbId in repo && o.Updated?)
            && (r.Ok? ==> r.value == o.count)
            && (dbId in repo && o.WriteFailed? ==> r == Threw(InvalidInput("Failed to delete record from table '" + table + "': " + o.message)))
  {
    match FindInstance(repo, dbId)
    case Threw(e) => Threw(e)
    case Ok(_) =>
      match engine(DeleteStatement(table, recordId))
      case WriteFailed(m) => Threw(InvalidInput("Failed to delete record from table '" + table + "': " + m))
      case Updated(n) => Ok(n)
  }

  /** An unknown instance fails with not-found before any statement reaches
      the engine: the outcome is the same whatever the engine would do. */
  lemma MissingInstanceFailsFirst(repo: Repository, w: Statement -> WriteOutcome, w2: Statement -> WriteOutcome,
                                  dbId: int, table: string, id: Value, record: Entries<Value>)
    requires dbId !in repo
    ensures CreateRecord(repo, w, dbId, table, record) == CreateRecord(repo, w2, dbId, table, record) == Threw(FindInstance(repo, dbId).thrown)
    ensures UpdateRecord(repo, w, dbId, table, id, record) == UpdateRecord(repo, w2, dbId, table, id, record) == Threw(FindInstance(repo, dbId).thrown)
    ensures DeleteRecord(repo, w, dbId, table, id) == DeleteRecord(repo, w2, dbId, table, id) == Threw(FindInstance(repo, dbId).thrown)
  {
  }

  /** With the instance present, a write fails only with invalid input. */
  lemma WriteFailureKinds(repo: Repository, w: Statement -> WriteOutcome, dbId: int, table: string,
                          id: Value, record: Entries<Value>)
    requires dbId in repo
    ensures CreateRecord(repo, w, dbId, table, record).Threw? ==> CreateRecord(repo, w, dbId, table, record).thrown.InvalidInput?
    ensures UpdateRecord(repo, w, dbId, table, id, record).Threw? ==> UpdateRecord(repo, w, dbId, table, id, record).thrown.InvalidInput?
    ensures DeleteRecord(repo, w, dbId, table, id).Threw? ==> DeleteRecord(repo, w, dbId, table, id).thrown.InvalidInput?
  {
  }

  /** With the instance present, a read fails only with a runtime error. */
  lemma ReadFailureKind(repo: Repository, q: Statement -> ReadOutcome, dbId: int, table: string,
                        page: int, limit: int, filters: Option<Entries<string>>, orderBy: Option<string>, dir: Option<string>)
    requires dbId in repo && IsInt(page) && IsInt(limit)
    requires Rectangular(q(SelectStatement(table, page, limit, filters, orderBy, dir)))
    ensures ReadRecords(repo, q, dbId, table, page, limit, filters, orderBy, dir).Threw? ==>
              ReadRecords(repo, q, dbId, table, page, limit, filters, orderBy, dir).thrown.RuntimeFailure?
  {
  }
}
