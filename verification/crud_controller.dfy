/** The HTTP face of the CRUD service for `/db/{dbId}/tables/{tableName}`:
    empty bodies are refused before the service is called, the paging and
    ordering parameters are split off the query string, and affected-row
    counts decide between found and not found. Exceptions the service throws
    propagate unchanged to the global handler. */
module CrudController {
  import opened Outcomes
  import opened JavaText
  import opened Engine
  import opened Crud

  datatype Body = Message(text: string) | RecordList(records: seq<map<string, Value>>) | NoBody

  datatype Response = Response(status: int, body: Body)

  const DefaultPage: int := 1
  const DefaultLimit: int := 20

  /** The query parameters that steer paging and ordering rather than filter. */
  const Reserved: set<string> := {"page", "limit", "orderBy", "orderDirection"}

  /** A request body that is missing or holds no entries. */
  predicate EmptyBody(body: Option<Entries<Value>>) {
    body.None? || |body.value| == 0
  }

  /** `POST`: 201 once the service has inserted the record. */
  function CreateRecordEndpoint(repo: Repository, engine: Statement -> WriteOutcome, dbId: int, table: string,
                                record: Option<Entries<Value>>): (r: Result<Response>)
    ensures EmptyBody(record) ==> r == Ok(Response(400, Message("Record data cannot be empty.")))
    ensures (r.Ok? && r.value.status == 201) <==>
              !EmptyBody(record) && dbId in repo && engine(InsertStatement(table, record.value)).Updated?
    ensures r.Ok? ==> r.value.status == 201 || r.value.status == 400
    ensures !EmptyBody(record) && dbId !in repo ==> r == Threw(FindInstance(repo, dbId).thrown)
    ensures !EmptyBody(record) && dbId in repo && engine(InsertStatement(table, record.value)).WriteFailed? ==>
              r == Threw(InvalidInput("Failed to create record in table '" + table + "': "
                                      + engine(InsertStatement(table, record.value)).message))
  {
    if EmptyBody(record) then Ok(Response(400, Message("Record data cannot be empty.")))
    else
      match CreateRecord(repo, engine, dbId, table, record.value)
      case Threw(e) => Threw(e)
      case Ok(_) => Ok(Response(201, Message("Record created successfully.")))
  }

  // ---------------------------------------------------------------- query-string binding

  /** The names a query string carries. */
  function NamesOf(m: Entries<string>): set<string>
  {
    if |m| == 0 then {} else {m[0].0} + NamesOf(m[1..])
  }

  /** The entries whose name is not in `names`, in query order. */
  function Without(m: Entries<string>, names: set<string>): (r: Entries<string>)
    ensures |r| <= |m|
  {
    if |m| == 0 then []
    else (if m[0].0 in names then [] else [m[0]]) + Without(m[1..], names)
  }

  /** The value of a query parameter: its first value, if the query string
      has it. */
  function Lookup(params: Entries<string>, name: string): (r: Option<string>)
    ensures r.Some? <==> exists i :: 0 <= i < |params| && params[i].0 == name
    ensures r.Some? ==> exists i :: 0 <= i < |params| && params[i] == (name, r.value)
                                    && forall j :: 0 <= j < i ==> params[j].0 != name
  {
    if |params| == 0 then None
    else if params[0].0 == name then Some(params[0].1)
    else
      var rest := Lookup(params[1..], name);
      assert forall i :: 1 <= i < |params| ==> params[i] == params[1..][i - 1];
      if rest.Some? then
        var k :| 0 <= k < |params[1..]| && params[1..][k] == (name, rest.value)
                 && forall j :: 0 <= j < k ==> params[1..][j].0 != name;
        assert forall j :: 0 <= j < k + 1 ==> params[j].0 != name by {
          forall j | 0 <= j < k + 1 ensures params[j].0 != name {
            if j > 0 { assert params[j] == params[1..][j - 1]; }
          }
        }
        rest
      else rest
  }

  /** The `Map<String, String>` Spring binds from the whole query string:
      each name once, at its first position, with its first value. */
  function FirstValues(params: Entries<string>): (r: Entries<string>)
    ensures |r| <= |params|
    decreases |params|
  {
    if |params| == 0 then []
    else [params[0]] + FirstValues(Without(params[1..], {params[0].0}))
  }

  /** The filters: the bound map without the four reserved names, in the
      order the query string first gives each name. */
  function QueryFilters(params: Entries<string>): (r: Entries<string>)
    ensures |r| <= |params|
  {
    Without(FirstValues(params), Reserved)
  }

  /** Every value the query string gives `name`, in order. */
  function ValuesOf(params: Entries<string>, name: string): (r: seq<string>)
    ensures |r| <= |params|
  {
    if |params| == 0 then []
    else (if params[0].0 == name then [params[0].1] else []) + ValuesOf(params[1..], name)
  }

  /** A `String` request parameter: absent when the query string lacks the
      name, otherwise all of its values joined by `","`. */
  function RequestParamText(params: Entries<string>, name: string): Option<string>
  {
    var vs := ValuesOf(params, name);
    if |vs| == 0 then None else Some(Join(vs, ","))
  }

  // ---------------------------------------------------------------- binding lemmas

  lemma {:induction false} NamesOfAppend(a: Entries<string>, b: Entries<string>)
    ensures NamesOf(a + b) == NamesOf(a) + NamesOf(b)
  {
    if |a| == 0 {
      assert a + b == b;
    } else {
      assert (a + b)[1..] == a[1..] + b;
      NamesOfAppend(a[1..], b);
    }
  }

  /** A name is carried exactly when some entry has it. */
  lemma {:induction false} NamesOfIndex(m: Entries<string>)
    ensures forall k :: k in NamesOf(m) <==> exists i :: 0 <= i < |m| && m[i].0 == k
  {
    if |m| > 0 {
      NamesOfIndex(m[1..]);
      assert forall i :: 1 <= i < |m| ==> m[i] == m[1..][i - 1];
      forall k | k in NamesOf(m) ensures exists i :: 0 <= i < |m| && m[i].0 == k {
        if k != m[0].0 {
          assert k in NamesOf(m[1..]);
          var i :| 0 <= i < |m[1..]| && m[1..][i].0 == k;
          assert m[i + 1].0 == k;
        }
      }
    }
  }

  /** A map's entry list starting with `e` has distinct names exactly when
      the rest does and does not carry `e`'s name. */
  lemma DistinctCons(e: (string, string), m: Entries<string>)
    ensures DistinctKeys([e] + m) <==> e.0 !in NamesOf(m) && DistinctKeys(m)
  {
    NamesOfIndex(m);
    var em := [e] + m;
    assert forall i :: 0 <= i < |m| ==> em[i + 1] == m[i];
    if DistinctKeys(em) {
      forall i, j | 0 <= i < j < |m| ensures m[i].0 != m[j].0 {
        assert em[i + 1].0 != em[j + 1].0;
      }
      forall i | 0 <= i < |m| ensures m[i].0 != e.0 {
        assert em[0].0 != em[i + 1].0;
      }
    }
  }

  /** Removing names distributes over concatenation. */
  lemma {:induction false} WithoutAppend(a: Entries<string>, b: Entries<string>, names: set<string>)
    ensures Without(a + b, names) == Without(a, names) + Without(b, names)
  {
    if |a| == 0 {
      assert a + b == b;
    } else {
      assert (a + b)[1..] == a[1..] + b;
      WithoutAppend(a[1..], b, names);
    }
  }

  /** Removing two sets of names one after the other removes their union. */
  lemma {:induction false} WithoutWithout(m: Entries<string>, s: set<string>, t: set<string>)
    ensures Without(Without(m, s), t) == Without(m, s + t)
  {
    if |m| > 0 {
      var head := if m[0].0 in s then [] else [m[0]];
      WithoutWithout(m[1..], s, t);
      WithoutAppend(head, Without(m[1..], s), t);
      if head != [] {
        assert Without(head, t) == (if m[0].0 in t then [] else [m[0]]) + Without(head[1..], t);
      }
    }
  }

  /** The entries that stay are those of the input whose name is not removed. */
  lemma {:induction false} WithoutMembers(m: Entries<string>, names: set<string>)
    ensures forall e :: e in Without(m, names) <==> e in m && e.0 !in names
    ensures NamesOf(Without(m, names)) == NamesOf(m) - names
  {
    if |m| > 0 {
      var head := if m[0].0 in names then [] else [m[0]];
      WithoutMembers(m[1..], names);
      NamesOfAppend(head, Without(m[1..], names));
      assert forall e :: e in m <==> e == m[0] || e in m[1..];
      if head != [] {
        assert head[1..] == [];
      }
    }
  }

  /** Removing names no entry carries changes nothing. */
  lemma {:induction false} WithoutAbsent(m: Entries<string>, names: set<string>)
    requires NamesOf(m) !! names
    ensures Without(m, names) == m
  {
    if |m| > 0 {
      WithoutAbsent(m[1..], names);
    }
  }

  /** Removing names keeps the names distinct. */
  lemma {:induction false} WithoutDistinct(m: Entries<string>, names: set<string>)
    requires DistinctKeys(m)
    ensures DistinctKeys(Without(m, names))
  {
    if |m| > 0 {
      assert m == [m[0]] + m[1..];
      DistinctCons(m[0], m[1..]);
      WithoutDistinct(m[1..], names);
      WithoutMembers(m[1..], names);
      if m[0].0 !in names {
        DistinctCons(m[0], Without(m[1..], names));
      } else {
        assert Without(m, names) == Without(m[1..], names);
      }
    }
  }

  /** The first value of a name that is not removed is the same before and
      after the removal. */
  lemma {:induction false} LookupWithout(m: Entries<string>, names: set<string>)
    ensures forall k :: Lookup(Without(m, names), k) == if k in names then None else Lookup(m, k)
  {
    if |m| > 0 {
      var head := if m[0].0 in names then [] else [m[0]];
      var w := head + Without(m[1..], names);
      assert Without(m, names) == w;
      LookupWithout(m[1..], names);
      if head != [] {
        assert w[0] == m[0] && w[1..] == Without(m[1..], names);
      } else {
        assert w == Without(m[1..], names);
      }
      forall k ensures Lookup(w, k) == if k in names then None else Lookup(m, k) {
        if head != [] && k == m[0].0 {
          assert Lookup(w, k) == Some(m[0].1);
        }
      }
    }
  }

  /** The bound map holds a name with a value exactly when that value is the
      name's first one in the query string. */
  lemma {:induction false} FirstValuesLookup(params: Entries<string>)
    ensures forall k, v :: (k, v) in FirstValues(params) <==> Lookup(params, k) == Some(v)
    decreases |params|
  {
    if |params| > 0 {
      var w := Without(params[1..], {params[0].0});
      FirstValuesLookup(w);
      LookupWithout(params[1..], {params[0].0});
      assert forall e :: e in FirstValues(params) <==> e == params[0] || e in FirstValues(w);
    }
  }

  /** Binding keeps every name and gives each one once. */
  lemma {:induction false} FirstValuesNames(params: Entries<string>)
    ensures NamesOf(FirstValues(params)) == NamesOf(params)
    ensures DistinctKeys(FirstValues(params))
    decreases |params|
  {
    if |params| > 0 {
      var w := Without(params[1..], {params[0].0});
      FirstValuesNames(w);
      WithoutMembers(params[1..], {params[0].0});
      var r := FirstValues(params);
      assert r == [params[0]] + FirstValues(w);
      assert r[1..] == FirstValues(w);
      DistinctCons(params[0], FirstValues(w));
    }
  }

  /** Binding a query string with distinct names keeps it as it is. */
  lemma {:induction false} FirstValuesOfDistinct(params: Entries<string>)
    requires DistinctKeys(params)
    ensures FirstValues(params) == params
  {
    if |params| > 0 {
      assert params == [params[0]] + params[1..];
      DistinctCons(params[0], params[1..]);
      WithoutAbsent(params[1..], {params[0].0});
      FirstValuesOfDistinct(params[1..]);
    }
  }

  /** A later part of the query string adds only the names the earlier part
      has not already bound. */
  lemma {:induction false} FirstValuesAppend(a: Entries<string>, b: Entries<string>)
    ensures FirstValues(a + b) == FirstValues(a) + FirstValues(Without(b, NamesOf(a)))
    decreases |a|
  {
    if |a| == 0 {
      assert a + b == b;
      WithoutAbsent(b, {});
    } else {
      var x := a[0].0;
      var a1 := Without(a[1..], {x});
      var b1 := Without(b, {x});
      assert (a + b)[0] == a[0] && (a + b)[1..] == a[1..] + b;
      assert Without(a[1..] + b, {x}) == a1 + b1 by {
        WithoutAppend(a[1..], b, {x});
      }
      assert Without(b1, NamesOf(a1)) == Without(b, NamesOf(a)) by {
        WithoutWithout(b, {x}, NamesOf(a1));
        NamesAfterFirst(a);
      }
      calc {
        FirstValues(a + b);
        [a[0]] + FirstValues(a1 + b1);
        { FirstValuesAppend(a1, b1); }
        [a[0]] + (FirstValues(a1) + FirstValues(Without(b, NamesOf(a))));
        ([a[0]] + FirstValues(a1)) + FirstValues(Without(b, NamesOf(a)));
      }
    }
  }

  lemma NamesAfterFirst(a: Entries<string>)
    requires |a| > 0
    ensures {a[0].0} + NamesOf(Without(a[1..], {a[0].0})) == NamesOf(a)
  {
    WithoutMembers(a[1..], {a[0].0});
  }

  /** A query parameter is a filter exactly when its name is not reserved,
      and then with its first value; no name is filtered twice. */
  lemma QueryFiltersMembers(params: Entries<string>)
    ensures forall k, v :: (k, v) in QueryFilters(params) <==> k !in Reserved && Lookup(params, k) == Some(v)
    ensures DistinctKeys(QueryFilters(params))
  {
    FirstValuesLookup(params);
    FirstValuesNames(params);
    WithoutMembers(FirstValues(params), Reserved);
    WithoutDistinct(FirstValues(params), Reserved);
  }

  /** The filter derivation keeps query order: the filters of a concatenation
      are those of the first part followed by those of the names the first
      part does not carry. */
  lemma QueryFiltersAppend(a: Entries<string>, b: Entries<string>)
    ensures QueryFilters(a + b) == QueryFilters(a) + QueryFilters(Without(b, NamesOf(a)))
  {
    FirstValuesAppend(a, b);
    WithoutAppend(FirstValues(a), FirstValues(Without(b, NamesOf(a))), Reserved);
  }

  /** A query string with no reserved parameter is filtered by its bound map
      unchanged, and, when no name repeats, by itself. */
  lemma QueryFiltersKeepsPlainQueries(params: Entries<string>)
    requires NamesOf(params) !! Reserved
    ensures QueryFilters(params) == FirstValues(params)
    ensures DistinctKeys(params) ==> QueryFilters(params) == params
  {
    FirstValuesNames(params);
    WithoutAbsent(FirstValues(params), Reserved);
    if DistinctKeys(params) {
      FirstValuesOfDistinct(params);
    }
  }

  /** The values of a name start with its first value. */
  lemma {:induction false} ValuesOfStartWithLookup(params: Entries<string>, name: string)
    ensures |ValuesOf(params, name)| > 0 <==> Lookup(params, name).Some?
    ensures Lookup(params, name).Some? ==> ValuesOf(params, name)[0] == Lookup(params, name).value
  {
    if |params| > 0 {
      ValuesOfStartWithLookup(params[1..], name);
    }
  }

  /** A `String` parameter is present exactly when the name is, and a name
      given once binds its one value. */
  lemma RequestParamTextOfSingleValue(params: Entries<string>, name: string)
    ensures RequestParamText(params, name).Some? <==> Lookup(params, name).Some?
    ensures |ValuesOf(params, name)| == 1 ==> RequestParamText(params, name) == Lookup(params, name)
  {
    ValuesOfStartWithLookup(params, name);
  }

  /** A name given twice or more binds text with a comma in it. */
  lemma RepeatedValuesJoined(params: Entries<string>, name: string)
    requires |ValuesOf(params, name)| >= 2
    ensures ',' in RequestParamText(params, name).value
  {
    var vs := ValuesOf(params, name);
    assert Join(vs, ",") == vs[0] + "," + Join(vs[1..], ",");
    assert Join(vs, ",")[|vs[0]|] == ',';
  }

  /** A repeated `orderDirection` never reads as DESC: the joined text holds
      a comma, which no letter of "DESC" matches ignoring case. */
  lemma RepeatedDirectionSortsAscending(params: Entries<string>)
    requires |ValuesOf(params, "orderDirection")| >= 2
    ensures Direction(RequestParamText(params, "orderDirection")) == "ASC"
  {
    var s := RequestParamText(params, "orderDirection").value;
    RepeatedValuesJoined(params, "orderDirection");
    if EqualsIgnoreCase(s, "DESC") {
      assert false;
    }
  }

  /** `GET`: the records of one page. `page` and `limit` are the integers the
      binder converted from the query string, absent when the query string
      does not carry them; the filters are the bound map without the
      reserved names, and `orderBy` and `orderDirection` are bound as text. */
  function ReadRecordsEndpoint(repo: Repository, engine: Statement -> ReadOutcome, dbId: int, table: string,
                               page: Option<int>, limit: Option<int>, params: Entries<string>): (r: Result<Response>)
    requires page.Some? ==> IsInt(page.value)
    requires limit.Some? ==> IsInt(limit.value)
    requires Rectangular(engine(ReadStatement(table, page, limit, params)))
    ensures var o := engine(ReadStatement(table, page, limit, params));
            && (r.Ok? <==> dbId in repo && o.ResultRows?)
            && (r.Ok? ==> r.value == Response(200, RecordList(Records(o.columns, o.rows))))
    ensures dbId !in repo ==> r == Threw(FindInstance(repo, dbId).thrown)
    ensures dbId in repo && engine(ReadStatement(table, page, limit, params)).ReadFailed? ==>
              r == Threw(RuntimeFailure("Failed to read records from table '" + table + "': "
                                        + engine(ReadStatement(table, page, limit, params)).message))
  {
    match ReadRecords(repo, engine, dbId, table, PageOf(page), LimitOf(limit), Some(QueryFilters(params)),
                      RequestParamText(params, "orderBy"), RequestParamText(params, "orderDirection"))
    case Threw(e) => Threw(e)
    case Ok(records) => Ok(Response(200, RecordList(records)))
  }

  /** The SELECT one `GET` sends. */
  function ReadStatement(table: string, page: Option<int>, limit: Option<int>, params: Entries<string>): Statement
    requires page.Some? ==> IsInt(page.value)
    requires limit.Some? ==> IsInt(limit.value)
  {
    SelectStatement(table, PageOf(page), LimitOf(limit), Some(QueryFilters(params)),
                    RequestParamText(params, "orderBy"), RequestParamText(params, "orderDirection"))
  }

  function PageOf(page: Option<int>): (r: int)
    ensures page.None? ==> r == DefaultPage
    ensures page.Some? ==> r == page.value
  {
    if page.Some? then page.value else DefaultPage
  }

  function LimitOf(limit: Option<int>): (r: int)
    ensures limit.None? ==> r == DefaultLimit
    ensures limit.Some? ==> r == limit.value
  {
    if limit.Some? then limit.value else DefaultLimit
  }

  /** Without paging parameters the statement ends in `LIMIT 20 OFFSET 0`:
      the first twenty rows. */
  lemma DefaultPaging()
    ensures LimitClause(PageOf(None), LimitOf(None)) == " LIMIT 20 OFFSET 0"
  {
    assert Offset(1, 20) == 0;
    assert NatToDigits(20) == "20" by {
      assert NatToDigits(2) == "2";
      assert DigitChar(0) == '0';
    }
    assert NatToDigits(0) == "0";
  }

  /** `PUT /{id}`: 200 with the count when a row changed, 404 when none did. */
  function UpdateRecordEndpoint(repo: Repository, engine: Statement -> WriteOutcome, dbId: int, table: string,
                                id: string, updates: Option<Entries<Value>>): (r: Result<Response>)
    ensures EmptyBody(updates) ==> r == Ok(Response(400, Message("Update data cannot be empty.")))
    ensures !EmptyBody(updates) ==>
              match UpdateRecord(repo, engine, dbId, table, Text(id), updates.value)
              case Threw(e) => r == Threw(e)
              case Ok(n) =>
                && (n > 0 ==> r == Ok(Response(200, Message("Record updated successfully. Affected rows: " + LongToString(n)))))
                && (n <= 0 ==> r == Ok(Response(404, Message("Record with ID " + id + " not found in table " + table))))
  {
    if EmptyBody(updates) then Ok(Response(400, Message("Update data cannot be empty.")))
    else
      match UpdateRecord(repo, engine, dbId, table, Text(id), updates.value)
      case Threw(e) => Threw(e)
      case Ok(n) =>
        if n > 0 then Ok(Response(200, Message("Record updated successfully. Affected rows: " + LongToString(n))))
        else Ok(Response(404, Message("Record with ID " + id + " not found in table " + table)))
  }

  /** `DELETE /{id}`: 204 without a body when a row went, 404 otherwise. */
  function DeleteRecordEndpoint(repo: Repository, engine: Statement -> WriteOutcome, dbId: int, table: string,
                                id: string): (r: Result<Response>)
    ensures match DeleteRecord(repo, engine, dbId, table, Text(id))
            case Threw(e) => r == Threw(e)
            case Ok(n) =>
              && (n > 0 ==> r == Ok(Response(204, NoBody)))
              && (n <= 0 ==> r == Ok(Response(404, Message("Record with ID " + id + " not found in table " + table))))
  {
    match DeleteRecord(repo, engine, dbId, table, Text(id))
    case Threw(e) => Threw(e)
    case Ok(n) =>
      if n > 0 then Ok(Response(204, NoBody))
      else Ok(Response(404, Message("Record with ID " + id + " not found in table " + table)))
  }

  /** An empty body is answered without consulting the repository or the
      engine: the response is the same whatever they hold. */
  lemma EmptyBodyNeverReachesService(repo: Repository, repo2: Repository, w: Statement -> WriteOutcome, w2: Statement -> WriteOutcome,
                                     dbId: int, table: string, id: string, body: Option<Entries<Value>>)
    requires EmptyBody(body)
    ensures CreateRecordEndpoint(repo, w, dbId, table, body) == CreateRecordEndpoint(repo2, w2, dbId, table, body)
    ensures UpdateRecordEndpoint(repo, w, dbId, table, id, body) == UpdateRecordEndpoint(repo2, w2, dbId, table, id, body)
    ensures CreateRecordEndpoint(repo, w, dbId, table, body).value.status == 400
    ensures UpdateRecordEndpoint(repo, w, dbId, table, id, body).value.status == 400
  {
  }

  /** The status of a write reflects the affected-row count: success exactly
      when the statement reached the engine and changed at least one row. */
  lemma WriteStatusFollowsAffectedRows(repo: Repository, w: Statement -> WriteOutcome, dbId: int, table: string,
                                       id: string, updates: Entries<Value>)
    requires |updates| > 0
    ensures var u := UpdateRecordEndpoint(repo, w, dbId, table, id, Some(updates));
            var o := w(UpdateStatement(table, Text(id), updates));
            (u.Ok? && u.value.status == 200) <==> dbId in repo && o.Updated? && o.count > 0
    ensures var d := DeleteRecordEndpoint(repo, w, dbId, table, id);
            var o := w(DeleteStatement(table, Text(id)));
            (d.Ok? && d.value.status == 204) <==> dbId in repo && o.Updated? && o.count > 0
    ensures var d := DeleteRecordEndpoint(repo, w, dbId, table, id);
            var o := w(DeleteStatement(table, Text(id)));
            (d.Ok? && d.value.status == 404) <==> dbId in repo && o.Updated? && o.count <= 0
  {
  }
}
