/** From a log request to the two halves of its condition, and whose rows an ordinary user can be shown. */
module LogQuery {
  import opened Results
  import opened Strings
  import opened Conjunctions

  // ---------------------------------------------------------------- log types and their fields

  datatype LogType = Authen | Author | Account

  datatype Kind = StringKind | IntKind | BoolKind | StringArrayKind

  datatype FieldSpec = FieldSpec(key: string, kind: Kind)

  function Specs(t: LogType): seq<FieldSpec> {
    var front := [FieldSpec("time", StringKind), FieldSpec("timeStamp", IntKind), FieldSpec("timeRange", IntKind),
                  FieldSpec("user", StringKind), FieldSpec("switchAddr", StringKind),
                  FieldSpec("serverAddr", StringKind)];
    var back := [FieldSpec("isSingleConnect", BoolKind), FieldSpec("tacacsClient", StringKind)];
    match t
    case Authen => front + [FieldSpec("authenStatus", StringKind), FieldSpec("details", StringKind)] + back
    case Author =>
      front +
      [FieldSpec("authorStatus", StringKind), FieldSpec("details", StringKind), FieldSpec("cmd", StringKind)] + back
    case Account =>
      front + [FieldSpec("cmd", StringKind), FieldSpec("port", StringKind), FieldSpec("flags", IntKind),
               FieldSpec("authenMethod", IntKind), FieldSpec("privLvl", IntKind),
               FieldSpec("authenType", IntKind), FieldSpec("authenService", IntKind),
               FieldSpec("arg", StringArrayKind)] + back
  }

  function FindSpec(specs: seq<FieldSpec>, key: string): Option<FieldSpec> {
    if specs == [] then None else if specs[0].key == key then Some(specs[0]) else FindSpec(specs[1..], key)
  }

  lemma {:induction false} FindAt(specs: seq<FieldSpec>, n: nat)
    requires n < |specs| && forall i | 0 <= i < n :: specs[i].key != specs[n].key
    ensures FindSpec(specs, specs[n].key) == Some(specs[n])
  {
    if n > 0 { FindAt(specs[1..], n - 1); }
  }

  /** Every log type has a user field, and it is a string. */
  lemma UserField(t: LogType)
    ensures FindSpec(Specs(t), "user") == Some(FieldSpec("user", StringKind))
  {
    var specs := Specs(t);
    assert specs[3] == FieldSpec("user", StringKind);
    assert specs[0].key == "time" && specs[1].key == "timeStamp" && specs[2].key == "timeRange";
    FindAt(specs, 3);
  }

  // ---------------------------------------------------------------- requests

  /** Column types are as the database reports them. */
  datatype Column = Column(name: string, typ: string)

  datatype Filter = Filter(field: string, operator: string, value: string)

  /** Instants are nanoseconds; the mapping gives the physical column of each field key. */
  datatype Request = Request(typ: LogType, from: int, to: int, filters: seq<Filter>)

  type Mapping = map<string, string>

  datatype Value = Text(s: string) | Number(n: int) | Flag(b: bool) | Time(nanos: int)

  /** What the Go library answers. Letters outside ASCII are folded by functions that the model leaves open. */
  datatype Library = Library(
    toLower: char -> char, fold: char -> char,
    parseTime: string -> Option<int>, parseInt: string -> Option<int>, parseBool: string -> Option<bool>,
    localTime: int -> string)

  datatype Problem = EventColumnRequired | UnknownField(field: string) | ColumnGone(physical: string)
    | ArrayOperator | NotAnArray | BadValue | NotSupported | UnknownOperator | UserFilterDenied | IdentityMissing

  // ---------------------------------------------------------------- text helpers

  function MapChars(f: char -> char, s: string): (r: string)
    ensures |r| == |s|
  {
    if s == "" then "" else
      var c := if 'A' <= s[0] <= 'Z' then (s[0] as int + 32) as char else if s[0] < '\U{80}' then s[0] else f(s[0]);
      [c] + MapChars(f, s[1..])
  }

  function ToLower(lib: Library, s: string): string {
    MapChars(lib.toLower, s)
  }

  predicate EqualFold(lib: Library, a: string, b: string) {
    MapChars(lib.fold, a) == MapChars(lib.fold, b)
  }

  predicate HasPrefix(s: string, p: string) {
    p <= s
  }

  predicate HasSuffix(s: string, p: string) {
    |p| <= |s| && s[|s| - |p|..] == p
  }

  predicate Wrapped(t: string, w: string) {
    HasPrefix(t, w) && HasSuffix(t, ")")
  }

  lemma WrappedLength(t: string, w: string)
    requires Wrapped(t, w) && w != "" && w[|w| - 1] == '('
    ensures |t| > |w|
  {
    assert t[|t| - 1..][0] == ')';
    assert t[..|w|][|w| - 1] == '(';
  }

  /** The type inside any number of Nullable and LowCardinality wrappers. */
  function Unwrap(t: string): string
    decreases |t|
  {
    if Wrapped(t, "Nullable(") then
      WrappedLength(t, "Nullable(");
      Unwrap(t[9..|t| - 1])
    else if Wrapped(t, "LowCardinality(") then
      WrappedLength(t, "LowCardinality(");
      Unwrap(t[15..|t| - 1])
    else t
  }

  lemma {:induction false} Unwrapped(t: string)
    ensures !Wrapped(Unwrap(t), "Nullable(") && !Wrapped(Unwrap(t), "LowCardinality(")
    decreases |t|
  {
    if Wrapped(t, "Nullable(") {
      WrappedLength(t, "Nullable(");
      Unwrapped(t[9..|t| - 1]);
    } else if Wrapped(t, "LowCardinality(") {
      WrappedLength(t, "LowCardinality(");
      Unwrapped(t[15..|t| - 1]);
    }
  }

  method NormalizeType(raw: string) returns (t: string)
    ensures t == Unwrap(TrimSpace(raw))
  {
    t := TrimSpace(raw);
    while Wrapped(t, "Nullable(") || Wrapped(t, "LowCardinality(")
      invariant Unwrap(t) == Unwrap(TrimSpace(raw))
      decreases |t|
    {
      if Wrapped(t, "Nullable(") {
        WrappedLength(t, "Nullable(");
        t := t[9..|t| - 1];
      } else {
        WrappedLength(t, "LowCardinality(");
        t := t[15..|t| - 1];
      }
    }
  }

  predicate IsDateType(base: string) {
    HasPrefix(base, "Date")
  }

  predicate IsLetter(c: char) {
    'A' <= c <= 'Z' || 'a' <= c <= 'z' || c == '_'
  }

  predicate IsIdentifier(s: string) {
    s != "" && IsLetter(s[0]) && forall i | 0 <= i < |s| :: IsLetter(s[i]) || '0' <= s[i] <= '9'
  }

  function QuoteIdentifier(name: string): string {
    if IsIdentifier(name) then "`" + name + "`" else "``"
  }

  // ---------------------------------------------------------------- one filter

  datatype Operator = Eq | Neq | Gt | Gte | Lt | Lte | Contains | NotContains | StartsWith | EndsWith | Unknown

  /** The operator of that name, in lower case. */
  function OperatorNamed(s: string): Operator {
    if s == "eq" then Eq else if s == "neq" then Neq
    else if s == "gt" then Gt else if s == "gte" then Gte else if s == "lt" then Lt else if s == "lte" then Lte
    else if s == "contains" then Contains else if s == "not_contains" then NotContains
    else if s == "starts_with" then StartsWith else if s == "ends_with" then EndsWith
    else Unknown
  }

  /** What stands before the column name in the text of a condition, and what after it. */
  function Before(isArray: bool, op: Operator): string {
    if isArray then (if op.Contains? then "has(" else "NOT has(")
    else match op
      case Contains => "positionCaseInsensitive(toString("
      case NotContains => "positionCaseInsensitive(toString("
      case StartsWith => "startsWith(toString("
      case EndsWith => "endsWith(toString("
      case _ => ""
  }

  function After(isArray: bool, op: Operator): string {
    if isArray then ", ?)"
    else match op
      case Neq => " != ?"
      case Gt => " > ?"
      case Gte => " >= ?"
      case Lt => " < ?"
      case Lte => " <= ?"
      case Contains => "), ?) > 0"
      case NotContains => "), ?) = 0"
      case StartsWith => "), ?)"
      case EndsWith => "), ?)"
      case _ => " = ?"
  }

  function Sql(isArray: bool, op: Operator, name: string): string {
    Before(isArray, op) + QuoteIdentifier(name) + After(isArray, op)
  }

  function ParseValue(lib: Library, kind: Kind, base: string, raw: string): Option<Value> {
    if IsDateType(base) then
      match lib.parseTime(raw) { case None => None case Some(t) => Some(Time(t)) }
    else match kind
      case IntKind => (match lib.parseInt(TrimSpace(raw)) case None => None case Some(n) => Some(Number(n)))
      case BoolKind => (match lib.parseBool(TrimSpace(raw)) case None => None case Some(b) => Some(Flag(b)))
      case _ => Some(Text(raw))
  }

  /** The text of the condition and its argument. */
  function FilterSql(
      lib: Library, spec: FieldSpec, column: Column, op: Operator,
      raw: string): Result<(string, Option<Value>), Problem>
  {
    var base := Unwrap(TrimSpace(column.typ));
    if spec.kind.StringArrayKind? then
      if !op.Contains? && !op.NotContains? then Err(ArrayOperator)
      else if !HasPrefix(base, "Array(") then Err(NotAnArray)
      else Ok((Sql(true, op, column.name), Some(Text(raw))))
    else
      match ParseValue(lib, spec.kind, base, raw)
      case None => Err(BadValue)
      case Some(value) =>
        match op
        case Eq => Ok((Sql(false, op, column.name), Some(value)))
        case Neq => Ok((Sql(false, op, column.name), Some(value)))
        case Unknown => Err(UnknownOperator)
        case Gt => if spec.kind.IntKind? then Ok((Sql(false, op, column.name), Some(value))) else Err(NotSupported)
        case Gte => if spec.kind.IntKind? then Ok((Sql(false, op, column.name), Some(value))) else Err(NotSupported)
        case Lt => if spec.kind.IntKind? then Ok((Sql(false, op, column.name), Some(value))) else Err(NotSupported)
        case Lte => if spec.kind.IntKind? then Ok((Sql(false, op, column.name), Some(value))) else Err(NotSupported)
        case _ =>
          if spec.kind.StringKind? then Ok((Sql(false, op, column.name), Some(Text(raw)))) else Err(NotSupported)
  }

  lemma BeforeUnspaced(isArray: bool, op: Operator)
    requires !isArray || op.Contains?
    ensures ' ' !in Before(isArray, op)
  {
  }

  lemma BeforeTame(isArray: bool, op: Operator)
    ensures Tame(Before(isArray, op))
  {
    var b := Before(isArray, op);
    if isArray && !op.Contains? {
      assert b == "NOT has(";
    } else {
      BeforeUnspaced(isArray, op);
      NoSpacesTame(b);
    }
  }

  lemma BeforeUnmarked(isArray: bool, op: Operator)
    ensures '?' !in Before(isArray, op)
  {
  }

  lemma AfterTame(isArray: bool, op: Operator)
    ensures Tame(After(isArray, op))
  {
  }

  lemma ComparisonMarked(op: Operator)
    requires !op.Contains? && !op.NotContains? && !op.StartsWith? && !op.EndsWith?
    ensures Marks(After(false, op)) == 1
  {
  }

  lemma CallMarked(op: Operator)
    requires op.Contains? || op.NotContains? || op.StartsWith? || op.EndsWith?
    ensures Marks(After(false, op)) == 1
  {
  }

  lemma AfterMarked(isArray: bool, op: Operator)
    ensures Marks(After(isArray, op)) == 1
  {
    if !isArray {
      if op.Contains? || op.NotContains? || op.StartsWith? || op.EndsWith? {
        CallMarked(op);
      } else {
        ComparisonMarked(op);
      }
    }
  }

  lemma QuotedTame(name: string)
    ensures Tame(QuoteIdentifier(name)) && '?' !in QuoteIdentifier(name)
  {
  }

  /** Every condition is one conjunct with one placeholder. */
  lemma SqlTame(isArray: bool, op: Operator, name: string)
    ensures Tame(Sql(isArray, op, name)) && Marks(Sql(isArray, op, name)) == 1
  {
    var b, q, a := Before(isArray, op), QuoteIdentifier(name), After(isArray, op);
    BeforeTame(isArray, op);
    BeforeUnmarked(isArray, op);
    NoMarks(b);
    QuotedTame(name);
    NoMarks(q);
    AfterTame(isArray, op);
    AfterMarked(isArray, op);
    TameConcat(b, q);
    TameConcat(b + q, a);
    MarksConcat(b, q);
    MarksConcat(b + q, a);
  }

  /** Which filters are turned into a condition: by kind, operator, column type and value. */
  lemma FilterAccepted(lib: Library, spec: FieldSpec, column: Column, op: Operator, raw: string)
    ensures FilterSql(lib, spec, column, op, raw).Ok? <==>
      var base := Unwrap(TrimSpace(column.typ));
      if spec.kind.StringArrayKind? then
        (op.Contains? || op.NotContains?) && HasPrefix(base, "Array(")
      else
        ParseValue(lib, spec.kind, base, raw).Some? && !op.Unknown? &&
        (op.Gt? || op.Gte? || op.Lt? || op.Lte? ==> spec.kind.IntKind?) &&
        (op.Contains? || op.NotContains? || op.StartsWith? || op.EndsWith? ==> spec.kind.StringKind?)
  {
  }

  lemma FilterSqlShape(lib: Library, spec: FieldSpec, column: Column, op: Operator, raw: string)
    requires FilterSql(lib, spec, column, op, raw).Ok?
    ensures var (sql, arg) := FilterSql(lib, spec, column, op, raw).value;
      sql == Sql(spec.kind.StringArrayKind?, op, column.name) && arg.Some?
  {
  }

  // ---------------------------------------------------------------- all filters of a request

  datatype Clause = Clause(spec: FieldSpec, column: Column, operator: Operator, sql: string, arg: Option<Value>)

  type Columns = map<string, Column>

  function Field(mapping: Mapping, key: string): string {
    if key in mapping then mapping[key] else ""
  }

  function ClauseOf(
      lib: Library, typ: LogType, mapping: Mapping, columns: Columns, f: Filter): Result<Clause, Problem>
  {
    match FindSpec(Specs(typ), f.field)
    case None => Err(UnknownField(f.field))
    case Some(spec) =>
      var physical := Field(mapping, spec.key);
      if physical !in columns then Err(ColumnGone(physical))
      else
        var op := OperatorNamed(ToLower(lib, TrimSpace(f.operator)));
        match FilterSql(lib, spec, columns[physical], op, f.value)
        case Err(e) => Err(e)
        case Ok((sql, arg)) => Ok(Clause(spec, columns[physical], op, sql, arg))
  }

  /**
  One clause for each filter whose value is not blank; the first filter that cannot be turned into one decides the
  error.
  */
  function ClausesOf(make: Filter -> Result<Clause, Problem>, filters: seq<Filter>): Result<seq<Clause>, Problem> {
    if filters == [] then Ok([])
    else
      var last := filters[|filters| - 1];
      match ClausesOf(make, filters[..|filters| - 1])
      case Err(e) => Err(e)
      case Ok(cs) =>
        if Blank(last.value) then Ok(cs)
        else match make(last)
          case Err(e) => Err(e)
          case Ok(c) => Ok(cs + [c])
  }

  function Maker(lib: Library, typ: LogType, mapping: Mapping, columns: Columns): Filter -> Result<Clause, Problem> {
    f => ClauseOf(lib, typ, mapping, columns, f)
  }

  lemma {:induction false} ErrorStays(make: Filter -> Result<Clause, Problem>, filters: seq<Filter>, n: nat)
    requires n <= |filters| && ClausesOf(make, filters[..n]).Err?
    ensures ClausesOf(make, filters) == ClausesOf(make, filters[..n])
    decreases |filters| - n
  {
    if n == |filters| {
      assert filters[..n] == filters;
    } else {
      assert filters[..n + 1][..n] == filters[..n];
      ErrorStays(make, filters, n + 1);
    }
  }

  method BuildFilterClauses(
      lib: Library, req: Request, mapping: Mapping, columns: Columns) returns (r: Result<seq<Clause>, Problem>)
    ensures r == ClausesOf(Maker(lib, req.typ, mapping, columns), req.filters)
  {
    var make := Maker(lib, req.typ, mapping, columns);
    var clauses: seq<Clause> := [];
    for i := 0 to |req.filters|
      invariant ClausesOf(make, req.filters[..i]) == Ok(clauses)
    {
      assert req.filters[..i + 1][..i] == req.filters[..i];
      if Blank(req.filters[i].value) { continue; }
      var c := make(req.filters[i]);
      if c.Err? {
        ErrorStays(make, req.filters, i + 1);
        return Err(c.error);
      }
      clauses := clauses + [c.value];
    }
    assert req.filters[..|req.filters|] == req.filters;
    return Ok(clauses);
  }

  /** What the assembly of the query relies on. */
  ghost predicate Sound(c: Clause) {
    Tame(c.sql) && Marks(c.sql) == 1 && c.arg.Some?
  }

  ghost predicate AllSound(cs: seq<Clause>) {
    forall i | 0 <= i < |cs| :: Sound(cs[i])
  }

  lemma MadeSound(lib: Library, typ: LogType, mapping: Mapping, columns: Columns, f: Filter)
    requires ClauseOf(lib, typ, mapping, columns, f).Ok?
    ensures Sound(ClauseOf(lib, typ, mapping, columns, f).value)
  {
    var c := ClauseOf(lib, typ, mapping, columns, f).value;
    FilterSqlShape(lib, c.spec, c.column, c.operator, f.value);
    SqlTame(c.spec.kind.StringArrayKind?, c.operator, c.column.name);
  }

  lemma {:induction false} ClausesSound(make: Filter -> Result<Clause, Problem>, filters: seq<Filter>)
    requires forall f: Filter :: make(f).Ok? ==> Sound(make(f).value)
    requires ClausesOf(make, filters).Ok?
    ensures AllSound(ClausesOf(make, filters).value)
  {
    if filters != [] { ClausesSound(make, filters[..|filters| - 1]); }
  }

  /** Every filter that is not blank has its clause among them. */
  lemma {:induction false} ClauseOfEach(make: Filter -> Result<Clause, Problem>, filters: seq<Filter>, i: nat)
    requires ClausesOf(make, filters).Ok? && i < |filters| && !Blank(filters[i].value)
    ensures make(filters[i]).Ok? && make(filters[i]).value in ClausesOf(make, filters).value
    decreases |filters|
  {
    var n := |filters| - 1;
    if i < n { ClauseOfEach(make, filters[..n], i); }
  }

  /** And every clause is that of some such filter. */
  lemma {:induction false} FilterOfEach(
      make: Filter -> Result<Clause, Problem>, filters: seq<Filter>, c: Clause) returns (i: nat)
    requires ClausesOf(make, filters).Ok? && c in ClausesOf(make, filters).value
    ensures i < |filters| && !Blank(filters[i].value) && make(filters[i]) == Ok(c)
  {
    var n := |filters| - 1;
    var before := ClausesOf(make, filters[..n]).value;
    if c in before {
      i := FilterOfEach(make, filters[..n], c);
    } else {
      i := n;
    }
  }
}
