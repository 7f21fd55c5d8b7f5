/** Database users of a provisioned instance: the CREATE USER, DROP USER,
    GRANT and REVOKE texts, the single-quote doubling that guards the two
    string literals the service writes, and the shaping of the two catalog
    listings. User, table and privilege names are interpolated verbatim. */
module DbUsers {
  import opened Outcomes
  import opened JavaText
  import opened Dto
  import opened Engine

  // ---------------------------------------------------------------- quote doubling

  /** `s.replace("'", "''")`. */
  function Escape(s: string): (r: string)
    ensures |r| == |s| + CountChar(s, '\'')
  {
    if |s| == 0 then ""
    else (if s[0] == '\'' then "''" else [s[0]]) + Escape(s[1..])
  }

  /** Reads `''` back as one quote; every other character stands for itself. */
  function Collapse(s: string): string
  {
    if |s| == 0 then ""
    else if |s| >= 2 && s[0] == '\'' && s[1] == '\'' then "'" + Collapse(s[2..])
    else [s[0]] + Collapse(s[1..])
  }

  /** Collapsing the doubled quotes gives back the original text. */
  lemma {:induction false} CollapseEscape(s: string)
    ensures Collapse(Escape(s)) == s
  {
    if |s| > 0 {
      var head := if s[0] == '\'' then "''" else [s[0]];
      assert Escape(s) == head + Escape(s[1..]);
      CollapseEscape(s[1..]);
      if s[0] == '\'' {
        assert (head + Escape(s[1..]))[2..] == Escape(s[1..]);
      } else {
        assert (head + Escape(s[1..]))[1..] == Escape(s[1..]);
      }
    }
  }

  /** Every quote of the text belongs to a doubled pair. */
  predicate QuotesPaired(s: string)
    decreases |s|
  {
    if |s| == 0 then true
    else if s[0] != '\'' then QuotesPaired(s[1..])
    else |s| >= 2 && s[1] == '\'' && QuotesPaired(s[2..])
  }

  lemma {:induction false} EscapePairsQuotes(s: string)
    ensures QuotesPaired(Escape(s))
  {
    if |s| > 0 {
      var head := if s[0] == '\'' then "''" else [s[0]];
      var e := head + Escape(s[1..]);
      EscapePairsQuotes(s[1..]);
      if s[0] == '\'' {
        assert e[2..] == Escape(s[1..]);
      } else {
        assert e[1..] == Escape(s[1..]);
      }
    }
  }

  /** How PostgreSQL reads the body of a string literal after its opening
      quote: `''` is a quote inside the literal, a lone quote ends it. The
      result is the literal's content and the text after the closing quote. */
  function ScanLiteral(s: string): Option<(string, string)>
    decreases |s|
  {
    if |s| == 0 then None
    else if s[0] == '\'' then
      if |s| >= 2 && s[1] == '\'' then
        match ScanLiteral(s[2..])
        case None => None
        case Some((content, rest)) => Some(("'" + content, rest))
      else Some(("", s[1..]))
    else
      match ScanLiteral(s[1..])
      case None => None
      case Some((content, rest)) => Some(([s[0]] + content, rest))
  }

  /** An escaped text closed by a quote is read back as exactly that text, and
      the literal ends at that quote: nothing in the text can end it early. */
  lemma {:induction false} EscapedLiteralIsClosedByItsQuote(s: string, rest: string)
    requires |rest| == 0 || rest[0] != '\''
    ensures ScanLiteral(Escape(s) + "'" + rest) == Some((s, rest))
  {
    var u := Escape(s) + "'" + rest;
    if |s| == 0 {
      assert u == "'" + rest;
      assert u[1..] == rest;
    } else {
      var e1 := Escape(s[1..]);
      var tail := e1 + "'" + rest;
      var head := if s[0] == '\'' then "''" else [s[0]];
      assert Escape(s) == head + e1;
      assert u == head + tail;
      EscapedLiteralIsClosedByItsQuote(s[1..], rest);
      if s[0] == '\'' {
        ScanPastDoubledQuote(tail, s[1..], rest);
        assert "'" + s[1..] == s;
      } else {
        ScanPastPlainChar(s[0], tail, s[1..], rest);
        assert [s[0]] + s[1..] == s;
      }
    }
  }

  lemma ScanPastDoubledQuote(tail: string, content: string, rest: string)
    requires ScanLiteral(tail) == Some((content, rest))
    ensures ScanLiteral("''" + tail) == Some(("'" + content, rest))
  {
    var u := "''" + tail;
    assert u[0] == '\'' && u[1] == '\'' && u[2..] == tail;
  }

  lemma ScanPastPlainChar(c: char, tail: string, content: string, rest: string)
    requires c != '\'' && ScanLiteral(tail) == Some((content, rest))
    ensures ScanLiteral([c] + tail) == Some(([c] + content, rest))
  {
    var u := [c] + tail;
    assert u[0] == c && u[1..] == tail;
  }

  // ---------------------------------------------------------------- statement texts

  const PasswordLead: string := " WITH PASSWORD '"

  /** `CREATE USER u WITH PASSWORD '<p with quotes doubled>';` */
  function CreateUserSql(username: string, password: string): string
  {
    "CREATE USER " + username + PasswordLead + Escape(password) + "';"
  }

  /** Whatever the password holds, the literal in the statement is the
      password and it is followed by the closing `;` alone. */
  lemma CreateUserPasswordLiteral(username: string, password: string)
    ensures var lead := "CREATE USER " + username + PasswordLead;
            var sql := CreateUserSql(username, password);
            |sql| >= |lead| && sql[..|lead|] == lead
            && ScanLiteral(sql[|lead|..]) == Some((password, ";"))
  {
    var lead := "CREATE USER " + username + PasswordLead;
    var sql := CreateUserSql(username, password);
    assert sql == lead + (Escape(password) + "'" + ";");
    assert sql[|lead|..] == Escape(password) + "'" + ";";
    EscapedLiteralIsClosedByItsQuote(password, ";");
  }

  /** `DROP USER IF EXISTS u;`: the name sits verbatim between the fixed
      lead and the closing `;`. */
  function DropUserSql(username: string): (r: string)
    ensures var lead := "DROP USER IF EXISTS ";
            && |r| == |lead| + |username| + 1
            && r[..|lead|] == lead && r[|lead|..|r| - 1] == username && r[|r| - 1] == ';'
  {
    "DROP USER IF EXISTS " + username + ";"
  }

  /** The part GRANT and REVOKE share: the privileges in list order, joined
      by `", "`, and the table. */
  function PrivilegeTarget(req: ManagePermissionsRequest): string
  {
    Join(req.privileges, ", ") + " ON TABLE " + req.tableName
  }

  function GrantSql(username: string, req: ManagePermissionsRequest): string
  {
    "GRANT " + Join(req.privileges, ", ") + " ON TABLE " + req.tableName + " TO " + username + ";"
  }

  function RevokeSql(username: string, req: ManagePermissionsRequest): string
  {
    "REVOKE " + Join(req.privileges, ", ") + " ON TABLE " + req.tableName + " FROM " + username + ";"
  }

  /** GRANT and REVOKE of one request differ only in the leading keyword and
      in TO against FROM. */
  lemma GrantRevokeDual(username: string, req: ManagePermissionsRequest)
    ensures GrantSql(username, req) == "GRANT " + PrivilegeTarget(req) + " TO " + username + ";"
    ensures RevokeSql(username, req) == "REVOKE " + PrivilegeTarget(req) + " FROM " + username + ";"
  {
  }

  /** No `", "` occurs in the text. */
  predicate NoListSeparator(s: string) {
    forall i :: 0 <= i < |s| - 1 ==> s[i] != ',' || s[i + 1] != ' '
  }

  /** Reads a `", "`-joined list back: cuts at every `", "`, left to right. */
  function SplitList(s: string): (r: seq<string>)
    ensures |r| > 0
  {
    if |s| == 0 then [""]
    else if |s| >= 2 && s[0] == ',' && s[1] == ' ' then [""] + SplitList(s[2..])
    else
      var rest := SplitList(s[1..]);
      [[s[0]] + rest[0]] + rest[1..]
  }

  /** A text without `", "` is read as one entry. */
  lemma {:induction false} SplitListPlain(s: string)
    requires NoListSeparator(s)
    ensures SplitList(s) == [s]
  {
    if |s| > 0 {
      assert NoListSeparator(s[1..]) by {
        forall i | 0 <= i < |s[1..]| - 1 ensures s[1..][i] != ',' || s[1..][i + 1] != ' ' {
          assert s[1..][i] == s[i + 1] && s[1..][i + 1] == s[i + 2];
        }
      }
      SplitListPlain(s[1..]);
      assert [s[0]] + s[1..] == s;
    }
  }

  /** The first entry ends at the first `", "`. */
  lemma {:induction false} SplitListGlue(a: string, b: string)
    requires NoListSeparator(a)
    ensures SplitList(a + ", " + b) == [a] + SplitList(b)
  {
    var s := a + ", " + b;
    if |a| == 0 {
      assert s == ", " + b && s[2..] == b;
    } else {
      assert s[1..] == a[1..] + ", " + b;
      assert |a| == 1 ==> s[1] == ',';
      assert |a| >= 2 ==> s[1] == a[1];
      assert NoListSeparator(a[1..]) by {
        forall i | 0 <= i < |a[1..]| - 1 ensures a[1..][i] != ',' || a[1..][i + 1] != ' ' {
          assert a[1..][i] == a[i + 1] && a[1..][i + 1] == a[i + 2];
        }
      }
      SplitListGlue(a[1..], b);
      assert [a[0]] + a[1..] == a;
    }
  }

  /** Joining a non-empty list with `", "` loses nothing when no entry holds
      `", "` itself: splitting the text gives the list back. */
  lemma {:induction false} SplitJoinedList(parts: seq<string>)
    requires |parts| > 0
    requires forall i :: 0 <= i < |parts| ==> NoListSeparator(parts[i])
    ensures SplitList(Join(parts, ", ")) == parts
  {
    if |parts| == 1 {
      SplitListPlain(parts[0]);
    } else {
      assert Join(parts, ", ") == parts[0] + ", " + Join(parts[1..], ", ");
      SplitListGlue(parts[0], Join(parts[1..], ", "));
      assert forall i :: 0 <= i < |parts[1..]| ==> parts[1..][i] == parts[i + 1];
      SplitJoinedList(parts[1..]);
    }
  }

  /** GRANT and REVOKE write the privileges as one list between the keyword
      and ` ON TABLE `; splitting that list at `", "` recovers the requested
      privileges in request order, unless a privilege holds `", "` itself. */
  lemma GrantListsPrivilegesInOrder(username: string, req: ManagePermissionsRequest)
    requires |req.privileges| > 0
    requires forall i :: 0 <= i < |req.privileges| ==> NoListSeparator(req.privileges[i])
    ensures exists list :: SplitList(list) == req.privileges
                           && GrantSql(username, req) == "GRANT " + list + " ON TABLE " + req.tableName + " TO " + username + ";"
                           && RevokeSql(username, req) == "REVOKE " + list + " ON TABLE " + req.tableName + " FROM " + username + ";"
  {
    var list := Join(req.privileges, ", ");
    SplitJoinedList(req.privileges);
    assert SplitList(list) == req.privileges;
  }

  /** A privilege holding `", "` is read back as two. */
  lemma SeparatorInPrivilegeSplits(a: string, b: string)
    requires NoListSeparator(a) && NoListSeparator(b)
    ensures SplitList(Join([a + ", " + b], ", ")) == [a, b]
  {
    SplitListGlue(a, b);
    SplitListPlain(b);
  }

  const ListUsersSql: string := "SELECT usename, usesuper, usecreatedb FROM pg_catalog.pg_user ORDER BY usename;"

  const GrantsQueryLead: string := "SELECT table_name, privilege_type FROM information_schema.role_table_grants WHERE grantee = '"
  const GrantsQueryTail: string := " AND table_schema = 'public';"

  /** The privilege query for one grantee, restricted to the public schema. */
  function PermissionsSql(username: string): string
  {
    GrantsQueryLead + Escape(username) + "'" + GrantsQueryTail
  }

  /** The grantee literal of the query reads back as the user name, and what
      follows it is the public-schema restriction, whatever the name holds. */
  lemma PermissionsQueryQuotesGrantee(username: string)
    ensures var sql := PermissionsSql(username);
            |sql| >= |GrantsQueryLead| && sql[..|GrantsQueryLead|] == GrantsQueryLead
            && ScanLiteral(sql[|GrantsQueryLead|..]) == Some((username, GrantsQueryTail))
  {
    var sql := PermissionsSql(username);
    assert sql == GrantsQueryLead + (Escape(username) + "'" + GrantsQueryTail);
    assert sql[|GrantsQueryLead|..] == Escape(username) + "'" + GrantsQueryTail;
    EscapedLiteralIsClosedByItsQuote(username, GrantsQueryTail);
  }

  // ---------------------------------------------------------------- grouping grants

  /** One row of the grants query: table name and privilege type. */
  type GrantRow = (string, string)

  /** The privileges of one table, in result order. */
  function PrivilegesOf(rows: seq<GrantRow>, table: string): seq<string>
  {
    if |rows| == 0 then []
    else PrivilegesOf(rows[..|rows| - 1], table)
         + (if rows[|rows| - 1].0 == table then [rows[|rows| - 1].1] else [])
  }

  /** The `computeIfAbsent(table).add(privilege)` loop over the rows. */
  function GroupRows(rows: seq<GrantRow>): map<string, seq<string>>
  {
    if |rows| == 0 then map[]
    else
      var g := GroupRows(rows[..|rows| - 1]);
      var (t, p) := rows[|rows| - 1];
      g[t := (if t in g then g[t] else []) + [p]]
  }

  /** The grouping has one entry per table that occurs in the rows, holding
      exactly that table's privileges in result order. */
  lemma {:induction false} GroupRowsCollectsEachTable(rows: seq<GrantRow>)
    ensures forall t :: t in GroupRows(rows) <==> exists i :: 0 <= i < |rows| && rows[i].0 == t
    ensures forall t :: t in GroupRows(rows) ==> GroupRows(rows)[t] == PrivilegesOf(rows, t)
  {
    if |rows| > 0 {
      var n := |rows| - 1;
      GroupRowsCollectsEachTable(rows[..n]);
      assert forall i :: 0 <= i < n ==> rows[..n][i] == rows[i];
      forall t | t !in GroupRows(rows[..n])
        ensures PrivilegesOf(rows[..n], t) == []
      {
        NoRowsNoPrivileges(rows[..n], t);
      }
    }
  }

  lemma {:induction false} NoRowsNoPrivileges(rows: seq<GrantRow>, t: string)
    requires forall i :: 0 <= i < |rows| ==> rows[i].0 != t
    ensures PrivilegesOf(rows, t) == []
  {
    if |rows| > 0 {
      var n := |rows| - 1;
      assert forall i :: 0 <= i < n ==> rows[..n][i] == rows[i];
      NoRowsNoPrivileges(rows[..n], t);
    }
  }

  predicate Distinct(order: seq<string>) {
    forall i, j :: 0 <= i < j < |order| ==> order[i] != order[j]
  }

  /** The privileges of the listed tables, counted together. */
  function CountListed(rows: seq<GrantRow>, order: seq<string>): nat
  {
    if |order| == 0 then 0 else |PrivilegesOf(rows, order[0])| + CountListed(rows, order[1..])
  }

  /** One more row adds one to the count exactly when its table is listed. */
  lemma {:induction false} CountListedSnoc(rows: seq<GrantRow>, row: GrantRow, order: seq<string>)
    requires Distinct(order)
    ensures CountListed(rows + [row], order) == CountListed(rows, order) + (if row.0 in order then 1 else 0)
  {
    if |order| > 0 {
      var more := rows + [row];
      assert more[..|more| - 1] == rows;
      assert forall j :: 0 <= j < |order[1..]| ==> order[1..][j] == order[j + 1];
      assert Distinct(order[1..]);
      CountListedSnoc(rows, row, order[1..]);
      if order[0] == row.0 {
        assert row.0 !in order[1..];
      }
    }
  }

  /** Listing every table once accounts for every row exactly once. */
  lemma {:induction false} CountListedIsRowCount(rows: seq<GrantRow>, order: seq<string>)
    requires Distinct(order)
    requires forall i :: 0 <= i < |rows| ==> rows[i].0 in order
    ensures CountListed(rows, order) == |rows|
  {
    if |rows| == 0 {
      NothingListed(order);
    } else {
      var n := |rows| - 1;
      assert forall i :: 0 <= i < n ==> rows[..n][i] == rows[i];
      CountListedIsRowCount(rows[..n], order);
      assert rows == rows[..n] + [rows[n]];
      CountListedSnoc(rows[..n], rows[n], order);
    }
  }

  lemma {:induction false} NothingListed(order: seq<string>)
    ensures CountListed([], order) == 0
  {
    if |order| > 0 {
      NothingListed(order[1..]);
    }
  }

  /** `order` is one way a `HashMap` may enumerate the tables of the rows:
      each of them once. */
  predicate EnumeratesTables(order: seq<string>, rows: seq<GrantRow>) {
    && Distinct(order)
    && (forall i :: 0 <= i < |rows| ==> rows[i].0 in order)
    && (forall j :: 0 <= j < |order| ==> exists i :: 0 <= i < |rows| && rows[i].0 == order[j])
  }

  /** The permission list: one entry per table, in the map's enumeration order. */
  function GroupPermissions(rows: seq<GrantRow>, order: seq<string>): (r: seq<UserPermissionInfo>)
    requires EnumeratesTables(order, rows)
    ensures |r| == |order|
    ensures forall j :: 0 <= j < |r| ==> r[j] == UserPermissionInfo(order[j], PrivilegesOf(rows, order[j]))
  {
    GroupRowsCollectsEachTable(rows);
    seq(|order|, j requires 0 <= j < |order| => UserPermissionInfo(order[j], GroupRows(rows)[order[j]]))
  }

  function TotalPrivileges(infos: seq<UserPermissionInfo>): nat
  {
    if |infos| == 0 then 0 else |infos[0].privileges| + TotalPrivileges(infos[1..])
  }

  /** The grouping neither loses nor duplicates a row: each table heads
      exactly one entry, and the entries' privileges add up to the row count. */
  lemma GroupPermissionsPartitionsRows(rows: seq<GrantRow>, order: seq<string>)
    requires EnumeratesTables(order, rows)
    ensures var infos := GroupPermissions(rows, order);
            && (forall i :: 0 <= i < |rows| ==> exists j :: 0 <= j < |infos| && infos[j].tableName == rows[i].0)
            && (forall j, k :: 0 <= j < k < |infos| ==> infos[j].tableName != infos[k].tableName)
            && TotalPrivileges(infos) == |rows|
  {
    var infos := GroupPermissions(rows, order);
    forall i | 0 <= i < |rows| ensures exists j :: 0 <= j < |infos| && infos[j].tableName == rows[i].0 {
      var j :| 0 <= j < |order| && order[j] == rows[i].0;
      assert infos[j].tableName == rows[i].0;
    }
    TotalIsCountListed(rows, order, infos);
    CountListedIsRowCount(rows, order);
  }

  lemma {:induction false} TotalIsCountListed(rows: seq<GrantRow>, order: seq<string>, infos: seq<UserPermissionInfo>)
    requires |infos| == |order|
    requires forall j :: 0 <= j < |infos| ==> infos[j].privileges == PrivilegesOf(rows, order[j])
    ensures TotalPrivileges(infos) == CountListed(rows, order)
  {
    if |infos| > 0 {
      TotalIsCountListed(rows, order[1..], infos[1..]);
    }
  }

  // ---------------------------------------------------------------- user listing

  /** One row of `pg_catalog.pg_user`, as `getString`/`getBoolean` read it. */
  datatype UserRow = UserRow(usename: Option<string>, usesuper: bool, usecreatedb: bool)

  /** The user list, in result order. The superuser flag is what lands in
      `canCreateRole`. */
  function UserInfos(rows: seq<UserRow>): (r: seq<DbUserInfo>)
    ensures |r| == |rows|
    ensures forall i :: 0 <= i < |rows| ==>
              && r[i].username == rows[i].usename
              && r[i].canCreateDb == rows[i].usecreatedb
              && r[i].canCreateRole == rows[i].usesuper
  {
    seq(|rows|, i requires 0 <= i < |rows| => DbUserInfo(rows[i].usename, rows[i].usecreatedb, rows[i].usesuper))
  }

  // ---------------------------------------------------------------- the service calls

  /** Runs one statement; an SQLException becomes invalid input with the
      call's message prefix. */
  function RunOne(link: Link, sql: string, prefix: string): (r: Result<Unit>)
    ensures r.Ok? <==> link.openError.None? && link.run(sql).None?
    ensures link.openError.Some? ==> r == Threw(InvalidInput(prefix + link.openError.value))
    ensures link.openError.None? && link.run(sql).Some? ==> r == Threw(InvalidInput(prefix + link.run(sql).value))
  {
    match RunScript(link, [sql])
    case None => Ok(Unit)
    case Some(m) => Threw(InvalidInput(prefix + m))
  }

  function CreateDbUser(repo: Repository, link: Link, dbId: int, username: string, password: string): (r: Result<Unit>)
    ensures r.Ok? <==> dbId in repo && link.openError.None? && link.run(CreateUserSql(username, password)).None?
    ensures dbId !in repo ==> r == Threw(FindInstance(repo, dbId).thrown)
    ensures dbId in repo && r.Threw? ==> FailsWithPrefix(r, "Failed to create database user '" + username + "': ")
  {
    match FindInstance(repo, dbId)
    case Threw(e) => Threw(e)
    case Ok(_) => RunOne(link, CreateUserSql(username, password), "Failed to create database user '" + username + "': ")
  }

  function DeleteDbUser(repo: Repository, link: Link, dbId: int, username: string): (r: Result<Unit>)
    ensures r.Ok? <==> dbId in repo && link.openError.None? && link.run(DropUserSql(username)).None?
    ensures dbId !in repo ==> r == Threw(FindInstance(repo, dbId).thrown)
    ensures dbId in repo && r.Threw? ==> FailsWithPrefix(r, "Failed to delete database user '" + username + "': ")
  {
    match FindInstance(repo, dbId)
    case Threw(e) => Threw(e)
    case Ok(_) => RunOne(link, DropUserSql(username), "Failed to delete database user '" + username + "': ")
  }

  function GrantPermissions(repo: Repository, link: Link, dbId: int, username: string, req: ManagePermissionsRequest): (r: Result<Unit>)
    ensures r.Ok? <==> dbId in repo && link.openError.None? && link.run(GrantSql(username, req)).None?
    ensures dbId !in repo ==> r == Threw(FindInstance(repo, dbId).thrown)
    ensures dbId in repo && r.Threw? ==>
              FailsWithPrefix(r, "Failed to grant permissions to user '" + username + "' on table '" + req.tableName + "': ")
  {
    match FindInstance(repo, dbId)
    case Threw(e) => Threw(e)
    case Ok(_) =>
      RunOne(link, GrantSql(username, req),
             "Failed to grant permissions to user '" + username + "' on table '" + req.tableName + "': ")
  }

  function RevokePermissions(repo: Repository, link: Link, dbId: int, username: string, req: ManagePermissionsRequest): (r: Result<Unit>)
    ensures r.Ok? <==> dbId in repo && link.openError.None? && link.run(RevokeSql(username, req)).None?
    ensures dbId !in repo ==> r == Threw(FindInstance(repo, dbId).thrown)
    ensures dbId in repo && r.Threw? ==>
              FailsWithPrefix(r, "Failed to revoke permissions from user '" + username + "' on table '" + req.tableName + "': ")
  {
    match FindInstance(repo, dbId)
    case Threw(e) => Threw(e)
    case Ok(_) =>
      RunOne(link, RevokeSql(username, req),
             "Failed to revoke permissions from user '" + username + "' on table '" + req.tableName + "': ")
  }

  function ListDbUsers(repo: Repository, users: Rows<UserRow>, dbId: int): (r: Result<seq<DbUserInfo>>)
    ensures r.Ok? <==> dbId in repo && users.RowsRead?
    ensures r.Ok? ==> r.value == UserInfos(users.rows)
    ensures dbId in repo && users.RowsFailed? ==> r == Threw(RuntimeFailure("Failed to list database users: " + users.message))
  {
    match FindInstance(repo, dbId)
    case Threw(e) => Threw(e)
    case Ok(_) =>
      match users
      case RowsFailed(m) => Threw(RuntimeFailure("Failed to list database users: " + m))
      case RowsRead(rows) => Ok(UserInfos(rows))
  }

  /** `listUserPermissions`. `grants` answers the privilege query for the
      text it is given; `order` is the map's enumeration of the tables. */
  function ListUserPermissions(repo: Repository, grants: string -> Rows<GrantRow>, order: seq<string>,
                               dbId: int, username: string): (r: Result<seq<UserPermissionInfo>>)
    requires grants(PermissionsSql(username)).RowsRead? ==> EnumeratesTables(order, grants(PermissionsSql(username)).rows)
    ensures var o := grants(PermissionsSql(username));
            && (r.Ok? <==> dbId in repo && o.RowsRead?)
            && (r.Ok? ==> r.value == GroupPermissions(o.rows, order))
            && (dbId in repo && o.RowsFailed? ==>
                  r == Threw(RuntimeFailure("Failed to list permissions for user '" + username + "': " + o.message)))
  {
    match FindInstance(repo, dbId)
    case Threw(e) => Threw(e)
    case Ok(_) =>
      match grants(PermissionsSql(username))
      case RowsFailed(m) => Threw(RuntimeFailure("Failed to list permissions for user '" + username + "': " + m))
      case RowsRead(rows) => Ok(GroupPermissions(rows, order))
  }

  /** The exception kinds: an unknown instance is not-found before any
      statement is built or run; every statement failure of the four writes
      is invalid input. */
  lemma UserCallFailureKinds(repo: Repository, link: Link, link2: Link, dbId: int, username: string, password: string,
                             req: ManagePermissionsRequest)
    ensures dbId !in repo ==>
              && CreateDbUser(repo, link, dbId, username, password) == CreateDbUser(repo, link2, dbId, username, password)
                   == Threw(FindInstance(repo, dbId).thrown)
              && DeleteDbUser(repo, link, dbId, username) == DeleteDbUser(repo, link2, dbId, username)
                   == Threw(FindInstance(repo, dbId).thrown)
              && GrantPermissions(repo, link, dbId, username, req) == GrantPermissions(repo, link2, dbId, username, req)
                   == Threw(FindInstance(repo, dbId).thrown)
              && RevokePermissions(repo, link, dbId, username, req) == RevokePermissions(repo, link2, dbId, username, req)
                   == Threw(FindInstance(repo, dbId).thrown)
    ensures dbId in repo ==>
              && (CreateDbUser(repo, link, dbId, username, password).Threw? ==> CreateDbUser(repo, link, dbId, username, password).thrown.InvalidInput?)
              && (DeleteDbUser(repo, link, dbId, username).Threw? ==> DeleteDbUser(repo, link, dbId, username).thrown.InvalidInput?)
              && (GrantPermissions(repo, link, dbId, username, req).Threw? ==> GrantPermissions(repo, link, dbId, username, req).thrown.InvalidInput?)
              && (RevokePermissions(repo, link, dbId, username, req).Threw? ==> RevokePermissions(repo, link, dbId, username, req).thrown.InvalidInput?)
    ensures dbId in repo ==>
              (CreateDbUser(repo, link, dbId, username, password).Ok? <==> RunScript(link, [CreateUserSql(username, password)]).None?)
  {
  }
}
