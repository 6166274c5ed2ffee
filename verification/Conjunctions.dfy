/**
Condition texts with positional placeholders: conjuncts joined by " AND ", each '?' bound to the next argument.
*/
module Conjunctions {
  function JoinAnd(parts: seq<string>): string {
    if parts == [] then ""
    else if |parts| == 1 then parts[0]
    else parts[0] + " AND " + JoinAnd(parts[1..])
  }

  /** The conjuncts of a text. */
  function SplitAnd(s: string): (r: seq<string>)
    ensures r != []
    decreases |s|
  {
    if s == "" then [""]
    else if |s| >= 5 && s[..5] == " AND " then [""] + SplitAnd(s[5..])
    else
      var rest := SplitAnd(s[1..]);
      [[s[0]] + rest[0]] + rest[1..]
  }

  /** No space in the text is its last character or is followed by an A, so that no " AND " begins inside it. */
  predicate Tame(p: string) {
    forall i | 0 <= i < |p| && p[i] == ' ' :: i + 1 < |p| && p[i + 1] != 'A'
  }

  lemma TameConcat(a: string, b: string)
    requires Tame(a) && Tame(b)
    ensures Tame(a + b)
  {
  }

  lemma NoSpacesTame(p: string)
    requires ' ' !in p
    ensures Tame(p)
  {
  }

  lemma {:induction false} SplitAfterTame(p: string, rest: string)
    requires Tame(p)
    ensures SplitAnd(p + " AND " + rest) == [p] + SplitAnd(rest)
    decreases |p|
  {
    var s := p + " AND " + rest;
    if p == "" {
      assert s[..5] == " AND " && s[5..] == rest;
    } else {
      assert Tame(p[1..]);
      SplitAfterTame(p[1..], rest);
      assert s[1..] == p[1..] + " AND " + rest;
      assert s[0] == p[0] && (|p| > 1 ==> s[1] == p[1]);
      assert [p[0]] + p[1..] == p;
      assert s[..5][0] == s[0] && s[..5][1] == s[1];
    }
  }

  lemma {:induction false} SplitTame(p: string)
    requires Tame(p)
    ensures SplitAnd(p) == [p]
    decreases |p|
  {
    if p != "" {
      assert Tame(p[1..]);
      SplitTame(p[1..]);
      assert [p[0]] + p[1..] == p;
      assert |p| >= 5 ==> p[..5][0] == p[0] && p[..5][1] == p[1];
    }
  }

  ghost predicate AllTame(parts: seq<string>) {
    forall i | 0 <= i < |parts| :: Tame(parts[i])
  }

  /** Tame conjuncts are found again in their conjunction. */
  lemma {:induction false} SplitJoinAnd(parts: seq<string>)
    requires parts != [] && AllTame(parts)
    ensures SplitAnd(JoinAnd(parts)) == parts
  {
    if |parts| == 1 {
      SplitTame(parts[0]);
    } else {
      SplitJoinAnd(parts[1..]);
      SplitAfterTame(parts[0], JoinAnd(parts[1..]));
    }
  }

  lemma {:induction false} JoinAndAssociates(a: seq<string>, b: seq<string>)
    requires a != [] && b != []
    ensures JoinAnd(a) + " AND " + JoinAnd(b) == JoinAnd(a + b)
  {
    var all := a + b;
    if |a| == 1 {
      assert all[1..] == b;
    } else {
      JoinAndAssociates(a[1..], b);
      assert all[1..] == a[1..] + b;
      var x, y, z := a[0], JoinAnd(a[1..]), JoinAnd(b);
      assert (x + " AND " + y) + " AND " + z == x + " AND " + (y + " AND " + z);
    }
  }

  // ---------------------------------------------------------------- placeholders

  function Marks(s: string): nat {
    multiset(s)['?']
  }

  lemma MarksConcat(a: string, b: string)
    ensures Marks(a + b) == Marks(a) + Marks(b)
  {
  }

  lemma NoMarks(p: string)
    requires '?' !in p
    ensures Marks(p) == 0
  {
  }

  datatype Bound<V> = Bound(text: string, args: seq<V>)

  function Placeholders(texts: seq<string>): nat {
    if texts == [] then 0 else Marks(texts[0]) + Placeholders(texts[1..])
  }

  /** The conjuncts with the arguments that their placeholders take, left to right. */
  function Bind<V>(texts: seq<string>, args: seq<V>): (r: seq<Bound<V>>)
    requires |args| == Placeholders(texts)
    ensures |r| == |texts|
  {
    if texts == [] then []
    else
      var k := Marks(texts[0]);
      [Bound(texts[0], args[..k])] + Bind(texts[1..], args[k..])
  }

  lemma {:induction false} OneEach(texts: seq<string>)
    requires forall i | 0 <= i < |texts| :: Marks(texts[i]) == 1
    ensures Placeholders(texts) == |texts|
  {
    if texts != [] { OneEach(texts[1..]); }
  }

  /** Conjuncts with one placeholder each take the arguments one by one. */
  lemma {:induction false} BindOneEach<V>(texts: seq<string>, args: seq<V>, i: nat)
    requires forall j | 0 <= j < |texts| :: Marks(texts[j]) == 1
    requires |args| == Placeholders(texts) == |texts| && i < |texts|
    ensures Bind(texts, args)[i] == Bound(texts[i], [args[i]])
    decreases i
  {
    OneEach(texts[1..]);
    if i > 0 { BindOneEach(texts[1..], args[1..], i - 1); }
  }

  // ---------------------------------------------------------------- meaning

  predicate AllHold<V, R>(atom: (Bound<V>, R) -> bool, bs: seq<Bound<V>>, row: R) {
    forall i | 0 <= i < |bs| :: atom(bs[i], row)
  }

  function Conjuncts(prewhere: string, filter: string): seq<string> {
    SplitAnd(prewhere) + if filter == "" then [] else SplitAnd(filter)
  }

  /** The rows that PREWHERE and WHERE let through together; a statement whose arguments do not fit selects none. */
  predicate Selected<V, R>(atom: (Bound<V>, R) -> bool, prewhere: string, filter: string, args: seq<V>, row: R) {
    var texts := Conjuncts(prewhere, filter);
    |args| == Placeholders(texts) && AllHold(atom, Bind(texts, args), row)
  }

  lemma {:induction false} JoinedNonempty(parts: seq<string>)
    requires parts != [] && parts[0] != ""
    ensures JoinAnd(parts) != ""
  {
  }

  /** Each text holds with the argument of the same place. */
  predicate AllBound<V, R>(atom: (Bound<V>, R) -> bool, texts: seq<string>, args: seq<V>, row: R)
    requires |texts| == |args|
  {
    forall i | 0 <= i < |texts| :: atom(Bound(texts[i], [args[i]]), row)
  }

  lemma AllBoundConcat<V, R>(atom: (Bound<V>, R) -> bool, t: seq<string>, a: seq<V>, u: seq<string>, b: seq<V>, row: R)
    requires |t| == |a| && |u| == |b|
    ensures AllBound(atom, t + u, a + b, row) <==> AllBound(atom, t, a, row) && AllBound(atom, u, b, row)
  {
    var texts, args := t + u, a + b;
    if AllBound(atom, texts, args, row) {
      forall i | 0 <= i < |t| ensures atom(Bound(t[i], [a[i]]), row) {
        assert texts[i] == t[i] && args[i] == a[i];
      }
      forall i | 0 <= i < |u| ensures atom(Bound(u[i], [b[i]]), row) {
        assert texts[|t| + i] == u[i] && args[|t| + i] == b[i];
      }
    }
  }

  /** Conjunctions of tame conjuncts with one placeholder each mean what their parts mean, argument by argument. */
  lemma SelectedExact<V, R>(atom: (Bound<V>, R) -> bool, pre: seq<string>, rest: seq<string>, args: seq<V>, row: R)
    requires pre != [] && AllTame(pre) && AllTame(rest)
    requires (forall i | 0 <= i < |pre| :: Marks(pre[i]) == 1) && forall i | 0 <= i < |rest| :: Marks(rest[i]) == 1
    requires |args| == |pre| + |rest|
    ensures Selected(atom, JoinAnd(pre), JoinAnd(rest), args, row) <==> AllBound(atom, pre + rest, args, row)
  {
    var texts := pre + rest;
    SplitJoinAnd(pre);
    if rest != [] {
      SplitJoinAnd(rest);
      assert Marks("") == 0;
      JoinedNonempty(rest);
    }
    assert Conjuncts(JoinAnd(pre), JoinAnd(rest)) == texts;
    OneEach(texts);
    forall i | 0 <= i < |args| ensures Bind(texts, args)[i] == Bound(texts[i], [args[i]]) {
      BindOneEach(texts, args, i);
    }
  }
}
