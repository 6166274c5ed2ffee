/**
What the text of a log query means, given what the database makes of each elementary condition: exactly the event range
and the filters that were asked for.
*/
module LogMeaning {
  import opened Results
  import opened Strings
  import opened Conjunctions
  import opened LogQuery
  import opened QueryParts

  datatype Relation =
    | Equal | Differs | Above | AtLeast | Below | AtMost
    | HoldsText | LacksText | Starts | Ends
    | HasItem | LacksItem

  /**
  Whether the column of a row stands in that relation to a value; null values make a relation and its opposite fail.
  */
  type Meaning<!R> = (R, string, Relation, Value) -> bool

  /** The database reads elementary conditions on a quoted column as these relations. */
  predicate Reads<R>(atom: (Bound<Value>, R) -> bool, means: Meaning<R>, row: R, name: string, v: Value) {
    var q := QuoteIdentifier(name);
    atom(Bound(q + " = ?", [v]), row) == means(row, name, Equal, v) &&
    atom(Bound(q + " != ?", [v]), row) == means(row, name, Differs, v) &&
    atom(Bound(q + " > ?", [v]), row) == means(row, name, Above, v) &&
    atom(Bound(q + " >= ?", [v]), row) == means(row, name, AtLeast, v) &&
    atom(Bound(q + " < ?", [v]), row) == means(row, name, Below, v) &&
    atom(Bound(q + " <= ?", [v]), row) == means(row, name, AtMost, v) &&
    atom(Bound("positionCaseInsensitive(toString(" + q + "), ?) > 0", [v]), row) == means(row, name, HoldsText, v) &&
    atom(Bound("positionCaseInsensitive(toString(" + q + "), ?) = 0", [v]), row) == means(row, name, LacksText, v) &&
    atom(Bound("startsWith(toString(" + q + "), ?)", [v]), row) == means(row, name, Starts, v) &&
    atom(Bound("endsWith(toString(" + q + "), ?)", [v]), row) == means(row, name, Ends, v) &&
    atom(Bound("has(" + q + ", ?)", [v]), row) == means(row, name, HasItem, v) &&
    atom(Bound("NOT has(" + q + ", ?)", [v]), row) == means(row, name, LacksItem, v)
  }

  ghost predicate Standard<R(!new)>(atom: (Bound<Value>, R) -> bool, means: Meaning<R>) {
    forall row: R, name: string, v: Value :: Reads(atom, means, row, name, v)
  }

  /** What a filter asks for, by its operator and whether its field is a list. */
  function Asked(isArray: bool, op: Operator): Option<Relation> {
    match op
    case Eq => if isArray then None else Some(Equal)
    case Neq => if isArray then None else Some(Differs)
    case Gt => if isArray then None else Some(Above)
    case Gte => if isArray then None else Some(AtLeast)
    case Lt => if isArray then None else Some(Below)
    case Lte => if isArray then None else Some(AtMost)
    case Contains => Some(if isArray then HasItem else HoldsText)
    case NotContains => Some(if isArray then LacksItem else LacksText)
    case StartsWith => if isArray then None else Some(Starts)
    case EndsWith => if isArray then None else Some(Ends)
    case Unknown => None
  }

  lemma ComparisonMeans<R>(
      atom: (Bound<Value>, R) -> bool, means: Meaning<R>, row: R, op: Operator, name: string, v: Value)
    requires Reads(atom, means, row, name, v) && (op.Eq? || op.Neq? || op.Gt? || op.Gte? || op.Lt? || op.Lte?)
    ensures atom(Bound(Sql(false, op, name), [v]), row) == means(row, name, Asked(false, op).value, v)
  {
    assert "" + QuoteIdentifier(name) == QuoteIdentifier(name);
  }

  lemma TextTestMeans<R>(
      atom: (Bound<Value>, R) -> bool, means: Meaning<R>, row: R, op: Operator, name: string, v: Value)
    requires Reads(atom, means, row, name, v) && (op.Contains? || op.NotContains? || op.StartsWith? || op.EndsWith?)
    ensures atom(Bound(Sql(false, op, name), [v]), row) == means(row, name, Asked(false, op).value, v)
  {
  }

  lemma ItemTestMeans<R>(
      atom: (Bound<Value>, R) -> bool, means: Meaning<R>, row: R, op: Operator, name: string, v: Value)
    requires Reads(atom, means, row, name, v) && (op.Contains? || op.NotContains?)
    ensures atom(Bound(Sql(true, op, name), [v]), row) == means(row, name, Asked(true, op).value, v)
  {
  }

  /** The text of a condition reads as the relation asked for. */
  lemma SqlMeans<R(!new)>(
      atom: (Bound<Value>, R) -> bool, means: Meaning<R>, row: R, isArray: bool, op: Operator, name: string, v: Value)
    requires Standard(atom, means) && Asked(isArray, op).Some?
    ensures atom(Bound(Sql(isArray, op, name), [v]), row) == means(row, name, Asked(isArray, op).value, v)
  {
    assert Reads(atom, means, row, name, v);
    if isArray {
      ItemTestMeans(atom, means, row, op, name, v);
    } else if op.Contains? || op.NotContains? || op.StartsWith? || op.EndsWith? {
      TextTestMeans(atom, means, row, op, name, v);
    } else {
      ComparisonMeans(atom, means, row, op, name, v);
    }
  }

  /** The value as the column is compared with it: text operators and lists take it as it stands. */
  function ValueAsked(lib: Library, spec: FieldSpec, column: Column, op: Operator, raw: string): Option<Value> {
    if spec.kind.StringArrayKind? || op.Contains? || op.NotContains? || op.StartsWith? || op.EndsWith?
    then Some(Text(raw))
    else ParseValue(lib, spec.kind, Unwrap(TrimSpace(column.typ)), raw)
  }

  /** The relation that the filter asks for holds between the column of its field and its value. */
  predicate FilterHolds<R>(
      means: Meaning<R>, lib: Library, typ: LogType, mapping: Mapping, columns: Columns, f: Filter, row: R)
  {
    match FindSpec(Specs(typ), f.field)
    case None => false
    case Some(spec) =>
      var physical := Field(mapping, spec.key);
      var op := OperatorNamed(ToLower(lib, TrimSpace(f.operator)));
      physical in columns && RelationHolds(means, lib, spec, columns[physical], op, f.value, row)
  }

  predicate RelationHolds<R>(
      means: Meaning<R>, lib: Library, spec: FieldSpec, column: Column, op: Operator, raw: string, row: R)
  {
    var relation, value := Asked(spec.kind.StringArrayKind?, op), ValueAsked(lib, spec, column, op, raw);
    relation.Some? && value.Some? && means(row, column.name, relation.value, value.value)
  }

  lemma ArgIsAsked(lib: Library, spec: FieldSpec, column: Column, op: Operator, raw: string)
    requires FilterSql(lib, spec, column, op, raw).Ok?
    ensures FilterSql(lib, spec, column, op, raw).value.1 == ValueAsked(lib, spec, column, op, raw)
    ensures Asked(spec.kind.StringArrayKind?, op).Some?
  {
  }

  lemma FilterSqlMeans<R(!new)>(
      atom: (Bound<Value>, R) -> bool, means: Meaning<R>, lib: Library, spec: FieldSpec, column: Column, op: Operator,
      raw: string, row: R)
    requires Standard(atom, means) && FilterSql(lib, spec, column, op, raw).Ok?
    ensures var (sql, arg) := FilterSql(lib, spec, column, op, raw).value;
      arg.Some? && atom(Bound(sql, [arg.value]), row) == RelationHolds(means, lib, spec, column, op, raw, row)
  {
    FilterSqlShape(lib, spec, column, op, raw);
    ArgIsAsked(lib, spec, column, op, raw);
    var v := ValueAsked(lib, spec, column, op, raw).value;
    SqlMeans(atom, means, row, spec.kind.StringArrayKind?, op, column.name, v);
  }

  /** A clause says of a row what its filter asks. */
  lemma ClauseMeans<R(!new)>(
      atom: (Bound<Value>, R) -> bool, means: Meaning<R>, lib: Library, typ: LogType, mapping: Mapping,
      columns: Columns, f: Filter, row: R)
    requires Standard(atom, means) && ClauseOf(lib, typ, mapping, columns, f).Ok?
    ensures var c := ClauseOf(lib, typ, mapping, columns, f).value;
      c.arg.Some? && HoldsOf(atom, c, row) == FilterHolds(means, lib, typ, mapping, columns, f, row)
  {
    var c := ClauseOf(lib, typ, mapping, columns, f).value;
    FilterSqlMeans(atom, means, lib, c.spec, c.column, c.operator, f.value, row);
  }

  ghost predicate AllFilters<R>(
      means: Meaning<R>, lib: Library, req: Request, mapping: Mapping, columns: Columns, row: R)
  {
    forall i | 0 <= i < |req.filters| && !Blank(req.filters[i].value) ::
      FilterHolds(means, lib, req.typ, mapping, columns, req.filters[i], row)
  }

  lemma AllClausesMean<R(!new)>(
      atom: (Bound<Value>, R) -> bool, means: Meaning<R>, lib: Library, req: Request, mapping: Mapping,
      columns: Columns, row: R)
    requires Standard(atom, means) && ClausesOf(Maker(lib, req.typ, mapping, columns), req.filters).Ok?
    ensures AllSound(ClausesOf(Maker(lib, req.typ, mapping, columns), req.filters).value)
    ensures AllClauses(atom, ClausesOf(Maker(lib, req.typ, mapping, columns), req.filters).value, row) <==>
      AllFilters(means, lib, req, mapping, columns, row)
  {
    var make := Maker(lib, req.typ, mapping, columns);
    var cs := ClausesOf(make, req.filters).value;
    RequestClausesSound(lib, req, mapping, columns);
    if AllClauses(atom, cs, row) {
      forall i | 0 <= i < |req.filters| && !Blank(req.filters[i].value)
        ensures FilterHolds(means, lib, req.typ, mapping, columns, req.filters[i], row)
      {
        var f := req.filters[i];
        ClauseOfEach(make, req.filters, i);
        ClauseMeans(atom, means, lib, req.typ, mapping, columns, f, row);
        var j :| 0 <= j < |cs| && cs[j] == make(f).value;
        assert HoldsOf(atom, cs[j], row);
      }
    }
    if AllFilters(means, lib, req, mapping, columns, row) {
      forall j | 0 <= j < |cs| ensures HoldsOf(atom, cs[j], row) {
        var i := FilterOfEach(make, req.filters, cs[j]);
        ClauseMeans(atom, means, lib, req.typ, mapping, columns, req.filters[i], row);
      }
    }
  }

  lemma RangeMeans<R(!new)>(
      atom: (Bound<Value>, R) -> bool, means: Meaning<R>, lib: Library, req: Request, event: Column, row: R)
    requires Standard(atom, means)
    ensures InRange(atom, lib, req, event, row) <==>
      means(row, event.name, AtLeast, EventValue(lib, event.typ, req.from)) &&
      means(row, event.name, Below, EventValue(lib, event.typ, req.to))
  {
    SqlMeans(atom, means, row, false, Gte, event.name, EventValue(lib, event.typ, req.from));
    SqlMeans(atom, means, row, false, Lt, event.name, EventValue(lib, event.typ, req.to));
    AllOfTwo(
      atom, Sql(false, Gte, event.name), Sql(false, Lt, event.name),
      EventValue(lib, event.typ, req.from), EventValue(lib, event.typ, req.to), row);
  }

  lemma AllOfTwo<R>(atom: (Bound<Value>, R) -> bool, a: string, b: string, v: Value, w: Value, row: R)
    ensures AllBound(atom, [a, b], [v, w], row) <==> atom(Bound(a, [v]), row) && atom(Bound(b, [w]), row)
  {
    var texts, args := [a, b], [v, w];
    if AllBound(atom, texts, args, row) {
      assert atom(Bound(texts[0], [args[0]]), row) && atom(Bound(texts[1], [args[1]]), row);
    }
  }

  /**
  From the request to the rows: PREWHERE and WHERE with all arguments in a row select exactly the rows whose event time
  is from the start up to but not at the end, and of which every filter that is not blank holds.
  */
  lemma RequestMeans<R(!new)>(
      atom: (Bound<Value>, R) -> bool, means: Meaning<R>, lib: Library, req: Request, mapping: Mapping,
      columns: Columns, event: Column, row: R)
    requires Standard(atom, means) && QueryClauses(lib, req, mapping, columns, event).Ok?
    ensures var p := PartsOf(lib, req, mapping, event, QueryClauses(lib, req, mapping, columns, event).value);
      Selected(atom, p.prewhere, p.filter, p.prewhereArgs + p.filterArgs, row) <==>
        means(row, event.name, AtLeast, EventValue(lib, event.typ, req.from)) &&
        means(row, event.name, Below, EventValue(lib, event.typ, req.to)) &&
        AllFilters(means, lib, req, mapping, columns, row)
  {
    AllClausesMean(atom, means, lib, req, mapping, columns, row);
    RangeMeans(atom, means, lib, req, event, row);
    SplitMeansAll(atom, lib, req, mapping, event, QueryClauses(lib, req, mapping, columns, event).value, row);
  }
}
