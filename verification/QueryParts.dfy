/**
Splitting the condition of a log query: the event range and the equalities on the projection keys go to PREWHERE,
the other filters to WHERE, and the arguments follow their placeholders.
*/
module QueryParts {
  import opened Results
  import opened Strings
  import opened Conjunctions
  import opened LogQuery

  datatype Parts = Parts(
    prewhere: string, prewhereArgs: seq<Value>, filter: string, filterArgs: seq<Value>, projection: string)

  /** The clause is an equality on a column that a projection is ordered by. */
  predicate OnKey(mapping: Mapping, key: string, c: Clause) {
    c.operator.Eq? && c.spec.key == key && c.column.name == key && Field(mapping, key) == key
  }

  predicate Promoted(mapping: Mapping, event: Column, c: Clause) {
    event.name == "event_time" && (OnKey(mapping, "user", c) || OnKey(mapping, "switchAddr", c))
  }

  predicate AnyOnKey(mapping: Mapping, key: string, clauses: seq<Clause>) {
    exists i | 0 <= i < |clauses| :: OnKey(mapping, key, clauses[i])
  }

  function Projection(mapping: Mapping, event: Column, clauses: seq<Clause>): string {
    var hasUser := event.name == "event_time" && AnyOnKey(mapping, "user", clauses);
    var hasSwitch := event.name == "event_time" && AnyOnKey(mapping, "switchAddr", clauses);
    if hasUser && hasSwitch then "p_by_switch_user_time"
    else if hasUser then "p_by_user_time"
    else if hasSwitch then "p_by_switch_time"
    else ""
  }

  method ProjectionFilterIndexes(
      mapping: Mapping, event: Column, clauses: seq<Clause>) returns (projection: string, optimized: set<nat>)
    ensures projection == Projection(mapping, event, clauses)
    ensures forall i | 0 <= i < |clauses| :: i in optimized <==> Promoted(mapping, event, clauses[i])
  {
    if event.name != "event_time" { return "", {}; }
    var hasUser, hasSwitch := false, false;
    for i := 0 to |clauses|
      invariant hasUser <==> exists j | 0 <= j < i :: OnKey(mapping, "user", clauses[j])
      invariant hasSwitch <==> exists j | 0 <= j < i :: OnKey(mapping, "switchAddr", clauses[j])
    {
      var c := clauses[i];
      if !c.operator.Eq? { continue; }
      if c.spec.key == "user" {
        if c.column.name == "user" && Field(mapping, c.spec.key) == "user" { hasUser := true; }
      } else if c.spec.key == "switchAddr" {
        if c.column.name == "switchAddr" && Field(mapping, c.spec.key) == "switchAddr" { hasSwitch := true; }
      }
    }
    projection := if hasUser && hasSwitch then "p_by_switch_user_time" else if hasUser then "p_by_user_time"
      else if hasSwitch then "p_by_switch_time" else "";
    if !hasUser && !hasSwitch { return "", {}; }
    optimized := {};
    for i := 0 to |clauses|
      invariant forall j | 0 <= j < |clauses| :: j in optimized <==> j < i && Promoted(mapping, event, clauses[j])
    {
      var c := clauses[i];
      if !c.operator.Eq? { continue; }
      if c.spec.key == "user" && hasUser && c.column.name == "user" { optimized := optimized + {i}; }
      if c.spec.key == "switchAddr" && hasSwitch && c.column.name == "switchAddr" { optimized := optimized + {i}; }
    }
  }

  // ---------------------------------------------------------------- assembling

  function Texts(cs: seq<Clause>): (r: seq<string>)
    ensures |r| == |cs| && forall i | 0 <= i < |r| :: r[i] == cs[i].sql
  {
    if cs == [] then [] else Texts(cs[..|cs| - 1]) + [cs[|cs| - 1].sql]
  }

  /** A clause without an argument adds none. */
  function Args(cs: seq<Clause>): seq<Value> {
    if cs == [] then []
    else Args(cs[..|cs| - 1]) + match cs[|cs| - 1].arg { case None => [] case Some(v) => [v] }
  }

  lemma {:induction false} ArgsOfSound(cs: seq<Clause>)
    requires AllSound(cs)
    ensures |Args(cs)| == |cs| && forall i | 0 <= i < |cs| :: Args(cs)[i] == cs[i].arg.value
  {
    if cs != [] { ArgsOfSound(cs[..|cs| - 1]); }
  }

  function Keep(cs: seq<Clause>, p: Clause -> bool): seq<Clause> {
    if cs == [] then [] else Keep(cs[..|cs| - 1], p) + if p(cs[|cs| - 1]) then [cs[|cs| - 1]] else []
  }

  lemma {:induction false} KeepExact(cs: seq<Clause>, p: Clause -> bool, c: Clause)
    ensures c in Keep(cs, p) <==> c in cs && p(c)
  {
    if cs != [] { KeepExact(cs[..|cs| - 1], p, c); }
  }

  method ClauseSql(clauses: seq<Clause>) returns (parts: seq<string>)
    ensures parts == Texts(clauses)
  {
    parts := [];
    for i := 0 to |clauses|
      invariant parts == Texts(clauses[..i])
    {
      assert clauses[..i + 1][..i] == clauses[..i];
      parts := parts + [clauses[i].sql];
    }
    assert clauses[..|clauses|] == clauses;
  }

  method ClauseArgs(clauses: seq<Clause>) returns (args: seq<Value>)
    ensures args == Args(clauses)
  {
    args := [];
    for i := 0 to |clauses|
      invariant args == Args(clauses[..i])
    {
      assert clauses[..i + 1][..i] == clauses[..i];
      if clauses[i].arg.Some? { args := args + [clauses[i].arg.value]; }
    }
    assert clauses[..|clauses|] == clauses;
  }

  function EventValue(lib: Library, typ: string, t: int): Value {
    var base := Unwrap(TrimSpace(typ));
    if IsDateType(base) then Time(t)
    else if HasPrefix(base, "Int") || HasPrefix(base, "UInt") then Number(t)
    else Text(lib.localTime(t))
  }

  /** The two bounds of the event range. */
  function EventTexts(event: Column): seq<string> {
    [Sql(false, Gte, event.name), Sql(false, Lt, event.name)]
  }

  function EventArgs(lib: Library, req: Request, event: Column): seq<Value> {
    [EventValue(lib, event.typ, req.from), EventValue(lib, event.typ, req.to)]
  }

  /** The clauses of a request, or the reason why there is no query. */
  function QueryClauses(
      lib: Library, req: Request, mapping: Mapping, columns: Columns, event: Column): Result<seq<Clause>, Problem>
  {
    if Blank(event.name) then Err(EventColumnRequired)
    else ClausesOf(Maker(lib, req.typ, mapping, columns), req.filters)
  }

  /** The single condition without PREWHERE. */
  method BuildWhere(lib: Library, req: Request, mapping: Mapping, columns: Columns, event: Column)
    returns (r: Result<(string, seq<Value>), Problem>)
    ensures match QueryClauses(lib, req, mapping, columns, event)
      case Err(e) => r == Err(e)
      case Ok(cs) => r == Ok((JoinAnd(EventTexts(event) + Texts(cs)), EventArgs(lib, req, event) + Args(cs)))
  {
    if Blank(event.name) { return Err(EventColumnRequired); }
    var cs := BuildFilterClauses(lib, req, mapping, columns);
    if cs.Err? { return Err(cs.error); }
    var texts := ClauseSql(cs.value);
    var args := ClauseArgs(cs.value);
    var where := JoinAnd(EventTexts(event));
    var filterWhere := JoinAnd(texts);
    if filterWhere != "" { where := where + " AND " + filterWhere; }
    assert where == JoinAnd(EventTexts(event) + texts) by {
      RequestClausesSound(lib, req, mapping, columns);
      JoinWhere(EventTexts(event), cs.value);
    }
    return Ok((where, EventArgs(lib, req, event) + args));
  }

  lemma RequestClausesSound(lib: Library, req: Request, mapping: Mapping, columns: Columns)
    requires ClausesOf(Maker(lib, req.typ, mapping, columns), req.filters).Ok?
    ensures AllSound(ClausesOf(Maker(lib, req.typ, mapping, columns), req.filters).value)
  {
    var make := Maker(lib, req.typ, mapping, columns);
    forall f: Filter | make(f).Ok? ensures Sound(make(f).value) {
      MadeSound(lib, req.typ, mapping, columns, f);
    }
    ClausesSound(make, req.filters);
  }

  lemma JoinWhere(front: seq<string>, cs: seq<Clause>)
    requires front != [] && AllSound(cs)
    ensures var rest := JoinAnd(Texts(cs));
      JoinAnd(front + Texts(cs)) == if rest == "" then JoinAnd(front) else JoinAnd(front) + " AND " + rest
    ensures JoinAnd(Texts(cs)) == "" <==> cs == []
  {
    var t := Texts(cs);
    if cs == [] {
      assert front + t == front;
    } else {
      assert Marks(cs[0].sql) == 1 && Marks("") == 0;
      JoinedNonempty(t);
      JoinAndAssociates(front, t);
    }
  }

  method OptimizedClauses(clauses: seq<Clause>, optimized: set<nat>, p: Clause -> bool) returns (r: seq<Clause>)
    requires forall i | 0 <= i < |clauses| :: i in optimized <==> p(clauses[i])
    ensures r == Keep(clauses, p)
  {
    r := [];
    for i := 0 to |clauses|
      invariant r == Keep(clauses[..i], p)
    {
      assert clauses[..i + 1][..i] == clauses[..i];
      if i in optimized { r := r + [clauses[i]]; }
    }
    assert clauses[..|clauses|] == clauses;
  }

  method RemainingParts(
      clauses: seq<Clause>, optimized: set<nat>, p: Clause -> bool) returns (parts: seq<string>, args: seq<Value>)
    requires forall i | 0 <= i < |clauses| :: i !in optimized <==> p(clauses[i])
    ensures parts == Texts(Keep(clauses, p)) && args == Args(Keep(clauses, p))
  {
    parts, args := [], [];
    ghost var kept: seq<Clause> := [];
    for i := 0 to |clauses|
      invariant kept == Keep(clauses[..i], p)
      invariant parts == Texts(kept) && args == Args(kept)
    {
      assert clauses[..i + 1][..i] == clauses[..i];
      if i in optimized { continue; }
      assert (kept + [clauses[i]])[..|kept|] == kept;
      parts := parts + [clauses[i].sql];
      if clauses[i].arg.Some? { args := args + [clauses[i].arg.value]; }
      kept := kept + [clauses[i]];
    }
    assert clauses[..|clauses|] == clauses;
  }

  method BuildQueryParts(
      lib: Library, req: Request, mapping: Mapping, columns: Columns,
      event: Column) returns (r: Result<Parts, Problem>)
    ensures match QueryClauses(lib, req, mapping, columns, event)
      case Err(e) => r == Err(e)
      case Ok(cs) => r == Ok(PartsOf(lib, req, mapping, event, cs))
  {
    if Blank(event.name) { return Err(EventColumnRequired); }
    var built := BuildFilterClauses(lib, req, mapping, columns);
    if built.Err? { return Err(built.error); }
    var clauses := built.value;
    var projection, optimized := ProjectionFilterIndexes(mapping, event, clauses);
    var promoted: Clause -> bool := c => Promoted(mapping, event, c);
    var rest: Clause -> bool := c => !Promoted(mapping, event, c);

    var optimizedClauses := OptimizedClauses(clauses, optimized, promoted);
    var preTexts := ClauseSql(optimizedClauses);
    var preArgs := ClauseArgs(optimizedClauses);
    var filterParts, filterArgs := RemainingParts(clauses, optimized, rest);
    JoinFront(EventTexts(event), preTexts);
    return Ok(Parts(
      JoinAnd([JoinAnd(EventTexts(event))] + preTexts), EventArgs(lib, req, event) + preArgs,
      JoinAnd(filterParts), filterArgs, projection));
  }

  lemma JoinFront(front: seq<string>, rest: seq<string>)
    requires front != []
    ensures JoinAnd([JoinAnd(front)] + rest) == JoinAnd(front + rest)
  {
    if rest == [] {
      assert front + rest == front;
    } else {
      JoinAndAssociates(front, rest);
      assert ([JoinAnd(front)] + rest)[1..] == rest;
    }
  }

  function PartsOf(lib: Library, req: Request, mapping: Mapping, event: Column, cs: seq<Clause>): Parts {
    var pre := Keep(cs, c => Promoted(mapping, event, c));
    var rest := Keep(cs, c => !Promoted(mapping, event, c));
    Parts(JoinAnd(EventTexts(event) + Texts(pre)), EventArgs(lib, req, event) + Args(pre),
          JoinAnd(Texts(rest)), Args(rest), Projection(mapping, event, cs))
  }

  // ---------------------------------------------------------------- meaning

  ghost predicate InRange<R>(atom: (Bound<Value>, R) -> bool, lib: Library, req: Request, event: Column, row: R) {
    AllBound(atom, EventTexts(event), EventArgs(lib, req, event), row)
  }

  ghost predicate HoldsOf<R>(atom: (Bound<Value>, R) -> bool, c: Clause, row: R)
    requires c.arg.Some?
  {
    atom(Bound(c.sql, [c.arg.value]), row)
  }

  ghost predicate AllClauses<R>(atom: (Bound<Value>, R) -> bool, cs: seq<Clause>, row: R)
    requires AllSound(cs)
  {
    forall i | 0 <= i < |cs| :: HoldsOf(atom, cs[i], row)
  }

  /** Texts that are one conjunct with one placeholder each. */
  ghost predicate Units(texts: seq<string>) {
    AllTame(texts) && forall i | 0 <= i < |texts| :: Marks(texts[i]) == 1
  }

  lemma TwoUnits(a: string, b: string)
    requires Tame(a) && Tame(b) && Marks(a) == 1 && Marks(b) == 1
    ensures Units([a, b])
  {
  }

  lemma EventUnits(event: Column)
    ensures Units(EventTexts(event))
  {
    SqlTame(false, Gte, event.name);
    SqlTame(false, Lt, event.name);
    TwoUnits(Sql(false, Gte, event.name), Sql(false, Lt, event.name));
  }

  lemma ClausesBound<R>(atom: (Bound<Value>, R) -> bool, cs: seq<Clause>, row: R)
    requires AllSound(cs)
    ensures Units(Texts(cs)) && |Args(cs)| == |cs|
    ensures AllBound(atom, Texts(cs), Args(cs), row) <==> AllClauses(atom, cs, row)
  {
    ArgsOfSound(cs);
    if AllBound(atom, Texts(cs), Args(cs), row) {
      forall i | 0 <= i < |cs| ensures HoldsOf(atom, cs[i], row) {
        assert atom(Bound(Texts(cs)[i], [Args(cs)[i]]), row);
      }
    }
    if AllClauses(atom, cs, row) {
      forall i | 0 <= i < |cs| ensures atom(Bound(Texts(cs)[i], [Args(cs)[i]]), row) {
        assert HoldsOf(atom, cs[i], row);
      }
    }
  }

  /** A condition whose two halves are made of the range and of clauses, with their arguments in that order. */
  lemma AssembledExact<R>(
      atom: (Bound<Value>, R) -> bool, event: seq<string>, eventArgs: seq<Value>, pre: seq<Clause>, rest: seq<Clause>,
      row: R)
    requires event != [] && |event| == |eventArgs| && Units(event) && AllSound(pre) && AllSound(rest)
    ensures Selected(atom, JoinAnd(event + Texts(pre)), JoinAnd(Texts(rest)), (eventArgs + Args(pre)) + Args(rest), row)
       <==> AllBound(atom, event, eventArgs, row) && AllClauses(atom, pre, row) && AllClauses(atom, rest, row)
  {
    ClausesBound(atom, pre, row);
    ClausesBound(atom, rest, row);
    AllBoundConcat(atom, event, eventArgs, Texts(pre), Args(pre), row);
    AllBoundConcat(atom, event + Texts(pre), eventArgs + Args(pre), Texts(rest), Args(rest), row);
    SelectedExact(atom, event + Texts(pre), Texts(rest), (eventArgs + Args(pre)) + Args(rest), row);
  }

  lemma KeepSound(cs: seq<Clause>, p: Clause -> bool)
    requires AllSound(cs)
    ensures AllSound(Keep(cs, p))
  {
    var kept := Keep(cs, p);
    forall i | 0 <= i < |kept| ensures Sound(kept[i]) {
      KeepExact(cs, p, kept[i]);
      assert kept[i] in cs;
      var j :| 0 <= j < |cs| && cs[j] == kept[i];
    }
  }

  /** Splitting clauses in two by any test and taking both halves loses none and adds none. */
  lemma HalvesHold<R>(atom: (Bound<Value>, R) -> bool, cs: seq<Clause>, p: Clause -> bool, q: Clause -> bool, row: R)
    requires AllSound(cs) && forall c :: p(c) <==> !q(c)
    ensures AllSound(Keep(cs, p)) && AllSound(Keep(cs, q))
    ensures AllClauses(atom, Keep(cs, p), row) && AllClauses(atom, Keep(cs, q), row) <==> AllClauses(atom, cs, row)
  {
    var a, b := Keep(cs, p), Keep(cs, q);
    KeepSound(cs, p);
    KeepSound(cs, q);
    if AllClauses(atom, cs, row) {
      forall i | 0 <= i < |a| ensures HoldsOf(atom, a[i], row) {
        KeepExact(cs, p, a[i]);
        var j :| 0 <= j < |cs| && cs[j] == a[i];
        assert HoldsOf(atom, cs[j], row);
      }
      forall i | 0 <= i < |b| ensures HoldsOf(atom, b[i], row) {
        KeepExact(cs, q, b[i]);
        var j :| 0 <= j < |cs| && cs[j] == b[i];
        assert HoldsOf(atom, cs[j], row);
      }
    }
    if AllClauses(atom, a, row) && AllClauses(atom, b, row) {
      forall i | 0 <= i < |cs| ensures HoldsOf(atom, cs[i], row) {
        KeepExact(cs, p, cs[i]);
        KeepExact(cs, q, cs[i]);
        if p(cs[i]) {
          var j :| 0 <= j < |a| && a[j] == cs[i];
          assert HoldsOf(atom, a[j], row);
        } else {
          var j :| 0 <= j < |b| && b[j] == cs[i];
          assert HoldsOf(atom, b[j], row);
        }
      }
    }
  }

  lemma HalvesExact<R>(
      atom: (Bound<Value>, R) -> bool, event: seq<string>, eventArgs: seq<Value>, cs: seq<Clause>, p: Clause -> bool,
      q: Clause -> bool, row: R)
    requires event != [] && |event| == |eventArgs| && Units(event) && AllSound(cs) && forall c :: p(c) <==> !q(c)
    ensures Selected(
              atom, JoinAnd(event + Texts(Keep(cs, p))), JoinAnd(Texts(Keep(cs, q))),
              (eventArgs + Args(Keep(cs, p))) + Args(Keep(cs, q)), row)
       <==> AllBound(atom, event, eventArgs, row) && AllClauses(atom, cs, row)
  {
    HalvesHold(atom, cs, p, q, row);
    AssembledExact(atom, event, eventArgs, Keep(cs, p), Keep(cs, q), row);
  }

  /**
  For every request and row, PREWHERE and WHERE with the arguments of both in a row select exactly what the event
  range and all the filters select.
  */
  lemma SplitMeansAll<R>(
      atom: (Bound<Value>, R) -> bool, lib: Library, req: Request, mapping: Mapping, event: Column, cs: seq<Clause>,
      row: R)
    requires AllSound(cs)
    ensures var p := PartsOf(lib, req, mapping, event, cs);
      Selected(atom, p.prewhere, p.filter, p.prewhereArgs + p.filterArgs, row) <==>
      InRange(atom, lib, req, event, row) && AllClauses(atom, cs, row)
  {
    EventUnits(event);
    HalvesExact(
      atom, EventTexts(event), EventArgs(lib, req, event), cs,
      c => Promoted(mapping, event, c), c => !Promoted(mapping, event, c), row);
  }

  /** The single condition selects the same rows. */
  lemma WhereMeansAll<R>(
      atom: (Bound<Value>, R) -> bool, lib: Library, req: Request, event: Column, cs: seq<Clause>, row: R)
    requires AllSound(cs)
    ensures Selected(atom, JoinAnd(EventTexts(event) + Texts(cs)), "", EventArgs(lib, req, event) + Args(cs), row) <==>
      InRange(atom, lib, req, event, row) && AllClauses(atom, cs, row)
  {
    EventUnits(event);
    AssembledExact(atom, EventTexts(event), EventArgs(lib, req, event), cs, [], row);
    var args := EventArgs(lib, req, event) + Args(cs);
    assert args + Args([]) == args;
  }
}
