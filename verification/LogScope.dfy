/** The server-owned row scope: an ordinary user's log query can only select that user's rows. */
module LogScope {
  import opened Results
  import opened Strings
  import opened Conjunctions
  import opened LogQuery
  import opened QueryParts
  import opened LogMeaning

  predicate NamesUser(lib: Library, f: Filter) {
    EqualFold(lib, TrimSpace(f.field), "user")
  }

  function Scoped(lib: Library, filters: seq<Filter>, isAdmin: bool, username: string): Result<seq<Filter>, Problem> {
    if isAdmin then Ok(filters)
    else if Blank(username) then Err(IdentityMissing)
    else if exists i | 0 <= i < |filters| :: NamesUser(lib, filters[i]) then Err(UserFilterDenied)
    else Ok(filters + [Filter("user", "eq", username)])
  }

  method ScopeLogFilters(
      lib: Library, filters: seq<Filter>, isAdmin: bool, username: string) returns (r: Result<seq<Filter>, Problem>)
    ensures r == Scoped(lib, filters, isAdmin, username)
  {
    if isAdmin { return Ok(filters); }
    if Blank(username) { return Err(IdentityMissing); }
    var scoped: seq<Filter> := [];
    for i := 0 to |filters|
      invariant scoped == filters[..i]
      invariant forall j | 0 <= j < i :: !NamesUser(lib, filters[j])
    {
      if NamesUser(lib, filters[i]) { return Err(UserFilterDenied); }
      scoped := scoped + [filters[i]];
    }
    assert scoped == filters;
    return Ok(scoped + [Filter("user", "eq", username)]);
  }

  lemma TrimPlain(s: string)
    requires s != "" && s[0] !in SPACES && s[|s| - 1] !in SPACES
    ensures TrimSpace(s) == s
  {
  }

  lemma LowerEq(lib: Library)
    ensures ToLower(lib, "eq") == "eq"
  {
    var f := lib.toLower;
    assert "eq" == ['e'] + "q" && "q" == ['q'] + "";
    assert MapChars(f, "q") == ['q'] + MapChars(f, "");
    assert MapChars(f, "eq") == ['e'] + MapChars(f, "q");
  }

  lemma OperatorEq(lib: Library)
    ensures OperatorNamed(ToLower(lib, TrimSpace("eq"))) == Eq
  {
    TrimPlain("eq");
    LowerEq(lib);
  }

  /** The physical column of the user field. */
  function UserColumn(mapping: Mapping, columns: Columns): Option<Column> {
    if Field(mapping, "user") in columns then Some(columns[Field(mapping, "user")]) else None
  }

  /**
  What the own filter compares the user column with: the user name, or the time it spells if that column is of a date
  type.
  */
  function OwnValue(lib: Library, column: Column, username: string): Option<Value> {
    ParseValue(lib, StringKind, Unwrap(TrimSpace(column.typ)), username)
  }

  lemma OwnValueIsName(lib: Library, column: Column, username: string)
    ensures OwnValue(lib, column, username) == Some(Text(username)) <==> !IsDateType(Unwrap(TrimSpace(column.typ)))
  {
  }

  /**
  Whatever filters an ordinary user sends: if there is a query at all, every row it selects has the own value of that
  user in its user column. Unless that column is of a date type this is the user name, so that the row belongs to the
  user.
  */
  lemma OwnRowsOnly<R(!new)>(
      atom: (Bound<Value>, R) -> bool, means: Meaning<R>, lib: Library,
      req: Request, sent: seq<Filter>, username: string, mapping: Mapping, columns: Columns, event: Column, row: R)
    requires Standard(atom, means)
    requires Scoped(lib, sent, false, username) == Ok(req.filters)
    requires QueryClauses(lib, req, mapping, columns, event).Ok?
    ensures UserColumn(mapping, columns).Some?
    ensures var column := UserColumn(mapping, columns).value;
      var p := PartsOf(lib, req, mapping, event, QueryClauses(lib, req, mapping, columns, event).value);
      OwnValue(lib, column, username).Some? &&
      (OwnValue(lib, column, username) == Some(Text(username)) <==> !IsDateType(Unwrap(TrimSpace(column.typ)))) &&
      (Selected(atom, p.prewhere, p.filter, p.prewhereArgs + p.filterArgs, row) ==>
       means(row, column.name, Equal, OwnValue(lib, column, username).value))
  {
    var make := Maker(lib, req.typ, mapping, columns);
    var own := Filter("user", "eq", username);
    assert req.filters[|sent|] == own;
    ClauseOfEach(make, req.filters, |sent|);
    UserField(req.typ);
    OwnValueIsName(lib, UserColumn(mapping, columns).value, username);
    RequestMeans(atom, means, lib, req, mapping, columns, event, row);
    assert AllFilters(means, lib, req, mapping, columns, row) ==>
      FilterHolds(means, lib, req.typ, mapping, columns, own, row);
    OwnFilterMeans(means, lib, req.typ, mapping, columns, username, row);
  }

  lemma OwnFilterMeans<R>(
      means: Meaning<R>, lib: Library, typ: LogType, mapping: Mapping, columns: Columns, username: string, row: R)
    requires UserColumn(mapping, columns).Some? &&
      ClauseOf(lib, typ, mapping, columns, Filter("user", "eq", username)).Ok?
    ensures var column := UserColumn(mapping, columns).value;
      OwnValue(lib, column, username).Some? &&
      (FilterHolds(means, lib, typ, mapping, columns, Filter("user", "eq", username), row) <==>
       means(row, column.name, Equal, OwnValue(lib, column, username).value))
  {
    UserField(typ);
    OperatorEq(lib);
  }
}
