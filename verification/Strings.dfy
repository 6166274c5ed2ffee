/** `strings.Join`, `strings.Split` and `strconv.FormatUint`, and how far they can be undone. */
module Strings {

  function Join(parts: seq<string>, sep: char): string {
    if parts == [] then ""
    else if |parts| == 1 then parts[0]
    else parts[0] + [sep] + Join(parts[1..], sep)
  }

  /** Go splits the empty string into one empty piece. */
  function Split(s: string, sep: char): (r: seq<string>)
    ensures r != []
  {
    if s == "" then [""]
    else if s[0] == sep then [""] + Split(s[1..], sep)
    else
      var rest := Split(s[1..], sep);
      [[s[0]] + rest[0]] + rest[1..]
  }

  ghost predicate Without(parts: seq<string>, sep: char) {
    forall i | 0 <= i < |parts| :: sep !in parts[i]
  }

  lemma {:induction false} SplitOfPiece(p: string, sep: char)
    requires sep !in p
    ensures Split(p, sep) == [p]
  {
    if p != "" {
      SplitOfPiece(p[1..], sep);
      assert [p[0]] + p[1..] == p;
    }
  }

  lemma {:induction false} SplitAfterPiece(p: string, rest: string, sep: char)
    requires sep !in p
    ensures Split(p + [sep] + rest, sep) == [p] + Split(rest, sep)
  {
    var s := p + [sep] + rest;
    if p == "" {
      assert s == [sep] + rest && s[1..] == rest;
    } else {
      SplitAfterPiece(p[1..], rest, sep);
      assert s[1..] == p[1..] + [sep] + rest;
      assert [p[0]] + p[1..] == p;
    }
  }

  /** Pieces free of the separator are read back, if there is at least one. */
  lemma {:induction false} SplitJoin(parts: seq<string>, sep: char)
    requires parts != [] && Without(parts, sep)
    ensures Split(Join(parts, sep), sep) == parts
  {
    if |parts| == 1 {
      SplitOfPiece(parts[0], sep);
    } else {
      SplitJoin(parts[1..], sep);
      SplitAfterPiece(parts[0], Join(parts[1..], sep), sep);
    }
  }

  lemma JoinPrepend(x: string, rest: seq<string>, sep: char)
    requires rest != []
    ensures Join([x] + rest, sep) == x + [sep] + Join(rest, sep)
  {
    var r := [x] + rest;
    assert r[1..] == rest;
  }

  lemma JoinLengthen(c: char, rest: seq<string>, sep: char)
    requires rest != []
    ensures Join([[c] + rest[0]] + rest[1..], sep) == [c] + Join(rest, sep)
  {
    var r := [[c] + rest[0]] + rest[1..];
    assert r[1..] == rest[1..];
    if |rest| > 1 {
      var tail := Join(rest[1..], sep);
      assert ([c] + rest[0]) + [sep] + tail == [c] + (rest[0] + [sep] + tail);
    }
  }

  lemma {:induction false} SplitPieces(s: string, sep: char)
    ensures Without(Split(s, sep), sep)
  {
    if s != "" { SplitPieces(s[1..], sep); }
  }

  /** Joining what was split gives the string again. */
  lemma {:induction false} JoinSplit(s: string, sep: char)
    ensures Join(Split(s, sep), sep) == s
  {
    if s != "" {
      JoinSplit(s[1..], sep);
      var rest := Split(s[1..], sep);
      if s[0] == sep {
        JoinPrepend("", rest, sep);
      } else {
        JoinLengthen(s[0], rest, sep);
      }
    }
  }

  lemma JoinInjective(a: seq<string>, b: seq<string>, sep: char)
    requires a != [] && b != [] && Without(a, sep) && Without(b, sep)
    requires Join(a, sep) == Join(b, sep)
    ensures a == b
  {
    SplitJoin(a, sep);
    SplitJoin(b, sep);
  }

  lemma SplitCons(c: char, t: string, sep: char)
    ensures var rest := Split(t, sep);
      Split([c] + t, sep) == if c == sep then [""] + rest else [[c] + rest[0]] + rest[1..]
  {
    assert ([c] + t)[1..] == t;
  }

  lemma LengthenFirst(c: char, a: seq<string>, b: seq<string>)
    requires a != []
    ensures [[c] + (a + b)[0]] + (a + b)[1..] == ([[c] + a[0]] + a[1..]) + b
  {
    assert (a + b)[1..] == a[1..] + b;
  }

  lemma SplitExtends(c: char, q: string, t: string, b: seq<string>, sep: char)
    requires Split(t, sep) == Split(q, sep) + b
    ensures Split([c] + t, sep) == Split([c] + q, sep) + b
  {
    var a := Split(q, sep);
    SplitCons(c, t, sep);
    SplitCons(c, q, sep);
    if c == sep { assert [""] + (a + b) == ([""] + a) + b; } else { LengthenFirst(c, a, b); }
  }

  lemma {:induction false} SplitAfterAny(p: string, rest: string, sep: char)
    ensures Split(p + ([sep] + rest), sep) == Split(p, sep) + Split(rest, sep)
  {
    if p == "" {
      assert p + ([sep] + rest) == [sep] + rest;
      SplitCons(sep, rest, sep);
    } else {
      var c, q := p[0], p[1..];
      SplitAfterAny(q, rest, sep);
      SplitExtends(c, q, q + ([sep] + rest), Split(rest, sep), sep);
      assert p == [c] + q && p + ([sep] + rest) == [c] + (q + ([sep] + rest));
    }
  }

  function Pieces(parts: seq<string>, sep: char): seq<string> {
    if parts == [] then [] else Split(parts[0], sep) + Pieces(parts[1..], sep)
  }

  /** Whatever the pieces hold, splitting their join splits each of them. */
  lemma {:induction false} SplitOfJoin(parts: seq<string>, sep: char)
    requires parts != []
    ensures Split(Join(parts, sep), sep) == Pieces(parts, sep)
  {
    if |parts| == 1 {
      assert Pieces(parts[1..], sep) == [];
    } else {
      SplitOfJoin(parts[1..], sep);
      var first, rest := parts[0], Join(parts[1..], sep);
      SplitAfterAny(first, rest, sep);
      assert first + [sep] + rest == first + ([sep] + rest);
    }
  }

  lemma {:induction false} InPieces(parts: seq<string>, sep: char, x: string)
    ensures x in Pieces(parts, sep) <==> exists i | 0 <= i < |parts| :: x in Split(parts[i], sep)
  {
    if parts != [] {
      InPieces(parts[1..], sep, x);
      if exists i | 0 <= i < |parts| :: x in Split(parts[i], sep) {
        var i :| 0 <= i < |parts| && x in Split(parts[i], sep);
        if i > 0 { assert parts[1..][i - 1] == parts[i]; }
      }
      if x in Pieces(parts[1..], sep) {
        var i :| 0 <= i < |parts| - 1 && x in Split(parts[1..][i], sep);
        assert parts[i + 1] == parts[1..][i];
      }
    }
  }

  /** White space as Go's `unicode.IsSpace` has it. */
  const SPACES: set<char> := {
    '\t', '\n', '\U{0B}', '\U{0C}', '\r', ' ', '\U{85}', '\U{A0}', '\U{1680}', '\U{2000}', '\U{2001}', '\U{2002}',
    '\U{2003}', '\U{2004}', '\U{2005}', '\U{2006}', '\U{2007}', '\U{2008}', '\U{2009}', '\U{200A}', '\U{2028}',
    '\U{2029}', '\U{202F}', '\U{205F}', '\U{3000}'
  }

  /** `strings.TrimSpace(s) == ""` */
  predicate Blank(s: string) {
    forall c | c in s :: c in SPACES
  }

  function TrimLeft(s: string): string {
    if s != "" && s[0] in SPACES then TrimLeft(s[1..]) else s
  }

  function TrimRight(s: string): string {
    if s != "" && s[|s| - 1] in SPACES then TrimRight(s[..|s| - 1]) else s
  }

  function TrimSpace(s: string): string {
    TrimRight(TrimLeft(s))
  }

  lemma {:induction false} TrimLeftEmpty(s: string)
    ensures TrimLeft(s) == "" <==> Blank(s)
  {
    if s != "" {
      TrimLeftEmpty(s[1..]);
      assert forall c :: c in s <==> c == s[0] || c in s[1..];
    }
  }

  lemma {:induction false} TrimRightEmpty(s: string)
    ensures TrimRight(s) == "" <==> Blank(s)
  {
    if s != "" {
      var n := |s| - 1;
      TrimRightEmpty(s[..n]);
      assert forall c :: c in s <==> c == s[n] || c in s[..n];
    }
  }

  lemma {:induction false} TrimLeftBlank(s: string)
    ensures Blank(TrimLeft(s)) <==> Blank(s)
  {
    if s != "" {
      TrimLeftBlank(s[1..]);
      assert forall c :: c in s <==> c == s[0] || c in s[1..];
    }
  }

  /** Trimming leaves nothing exactly of blank texts. */
  lemma TrimSpaceEmpty(s: string)
    ensures TrimSpace(s) == "" <==> Blank(s)
  {
    TrimRightEmpty(TrimLeft(s));
    TrimLeftBlank(s);
  }

  // ---------------------------------------------------------------- decimal numbers

  function Digit(d: nat): char
    requires d < 10
  {
    "0123456789"[d]
  }

  function Decimal(n: nat): (s: string)
    ensures s != ""
  {
    if n < 10 then [Digit(n)] else Decimal(n / 10) + [Digit(n % 10)]
  }

  function DigitValue(c: char): nat {
    if '0' <= c <= '9' then c as nat - '0' as nat else 0
  }

  function Value(s: string): nat {
    if s == "" then 0 else 10 * Value(s[..|s| - 1]) + DigitValue(s[|s| - 1])
  }

  lemma ValueAppend(s: string, d: nat)
    requires d < 10
    ensures Value(s + [Digit(d)]) == 10 * Value(s) + d
  {
    assert (s + [Digit(d)])[..|s|] == s;
  }

  lemma {:induction false} ValueOfDecimal(n: nat)
    ensures Value(Decimal(n)) == n
  {
    if n >= 10 {
      ValueOfDecimal(n / 10);
      ValueAppend(Decimal(n / 10), n % 10);
    } else {
      ValueAppend("", n);
    }
  }

  lemma {:induction false} DecimalDigits(n: nat)
    ensures forall c | c in Decimal(n) :: '0' <= c <= '9'
  {
    if n >= 10 { DecimalDigits(n / 10); }
  }
}
