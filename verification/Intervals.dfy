/** Merging the approved time ranges of one user and one level, and what the merged list says about an instant. */
module Intervals {

  /**
  Times are instants on the real line, so that touching ranges touch. A range may come with its end before its start.
  */
  datatype Range = Range(start: real, end: real) {
    /** As a closed range. */
    predicate Holds(t: real) { start <= t <= end }
    /** As the role check has it: both ends are out. */
    predicate Active(t: real) { start < t < end }
  }

  ghost predicate Covered(rs: seq<Range>, t: real) {
    exists i | 0 <= i < |rs| :: rs[i].Holds(t)
  }

  ghost predicate SameUnion(a: seq<Range>, b: seq<Range>) {
    forall t: real :: Covered(a, t) <==> Covered(b, t)
  }

  predicate StartSorted(rs: seq<Range>) {
    forall i, j | 0 <= i < j < |rs| :: rs[i].start <= rs[j].start
  }

  /** Each range ends strictly before any later one starts. */
  predicate Apart(rs: seq<Range>) {
    forall i, j | 0 <= i < j < |rs| :: rs[i].end < rs[j].start
  }

  /** What merging promises of its result. */
  ghost predicate Merged(m: seq<Range>, rs: seq<Range>) {
    StartSorted(m) && Apart(m) && SameUnion(m, rs)
  }

  predicate Proper(rs: seq<Range>) {
    forall i | 0 <= i < |rs| :: rs[i].start <= rs[i].end
  }

  // ---------------------------------------------------------------- merging

  lemma CoveredAppend(rs: seq<Range>, r: Range, t: real)
    ensures Covered(rs + [r], t) <==> Covered(rs, t) || r.Holds(t)
  {
    var all := rs + [r];
    if Covered(rs, t) {
      var i :| 0 <= i < |rs| && rs[i].Holds(t);
      assert all[i].Holds(t);
    }
    if r.Holds(t) { assert all[|rs|].Holds(t); }
    if Covered(all, t) {
      var i :| 0 <= i < |all| && all[i].Holds(t);
      assert i < |rs| ==> rs[i].Holds(t);
    }
  }

  /** One turn of the loop: `done` lists the merged ranges before `current`, `seen` the ranges taken in so far. */
  ghost predicate LoopInv(done: seq<Range>, current: Range, seen: seq<Range>) {
    StartSorted(done + [current]) && Apart(done + [current]) && SameUnion(done + [current], seen)
  }

  lemma PushKeepsInv(done: seq<Range>, current: Range, seen: seq<Range>, r: Range)
    requires LoopInv(done, current, seen) && current.start <= r.start && r.start > current.end
    ensures LoopInv(done + [current], r, seen + [r])
  {
    var m := done + [current];
    var all := m + [r];
    forall i | 0 <= i < |m| ensures m[i].start <= r.start && m[i].end < r.start {
      assert m[|done|] == current;
    }
    forall t: real ensures Covered(all, t) <==> Covered(seen + [r], t) {
      CoveredAppend(m, r, t);
      CoveredAppend(seen, r, t);
    }
  }

  lemma ExtendKeepsInv(done: seq<Range>, current: Range, seen: seq<Range>, r: Range)
    requires LoopInv(done, current, seen) && current.start <= r.start <= current.end
    ensures LoopInv(done, if r.end > current.end then current.(end := r.end) else current, seen + [r])
  {
    var wider := if r.end > current.end then current.(end := r.end) else current;
    var m, m' := done + [current], done + [wider];
    assert m[|done|] == current && m'[|done|] == wider;
    forall i, j | 0 <= i < j < |m'| ensures m'[i].start <= m'[j].start && m'[i].end < m'[j].start {
      assert m'[i] == m[i] && m'[j].start == m[j].start;
    }
    forall t: real ensures Covered(m', t) <==> Covered(seen + [r], t) {
      CoveredAppend(done, current, t);
      CoveredAppend(done, wider, t);
      CoveredAppend(seen, r, t);
    }
  }

  function InsertByStart(r: Range, rs: seq<Range>): (s: seq<Range>)
    ensures multiset(s) == multiset(rs) + multiset{r}
  {
    if rs == [] then [r]
    else if r.start <= rs[0].start then [r] + rs
    else
      var rest := InsertByStart(r, rs[1..]);
      assert rs == [rs[0]] + rs[1..];
      [rs[0]] + rest
  }

  function SortByStart(rs: seq<Range>): (s: seq<Range>)
    ensures multiset(s) == multiset(rs)
  {
    if rs == [] then []
    else
      assert rs == [rs[0]] + rs[1..];
      InsertByStart(rs[0], SortByStart(rs[1..]))
  }

  lemma StartSortedPrepend(r: Range, rs: seq<Range>)
    requires StartSorted(rs) && forall x | x in rs :: r.start <= x.start
    ensures StartSorted([r] + rs)
  {
    var s := [r] + rs;
    forall i, j | 0 <= i < j < |s| ensures s[i].start <= s[j].start {
      assert s[j] == rs[j - 1] && s[j] in rs;
      if i > 0 { assert s[i] == rs[i - 1]; }
    }
  }

  lemma {:induction false} InsertSorted(r: Range, rs: seq<Range>)
    requires StartSorted(rs)
    ensures StartSorted(InsertByStart(r, rs))
  {
    if rs == [] {
    } else if r.start <= rs[0].start {
      assert forall x | x in rs :: exists i | 0 <= i < |rs| :: rs[i] == x;
      StartSortedPrepend(r, rs);
    } else {
      InsertSorted(r, rs[1..]);
      var rest := InsertByStart(r, rs[1..]);
      forall x | x in rest ensures rs[0].start <= x.start {
        assert x in multiset(rest);
        assert x == r || x in rs[1..];
      }
      StartSortedPrepend(rs[0], rest);
    }
  }

  lemma {:induction false} SortSorted(rs: seq<Range>)
    ensures StartSorted(SortByStart(rs))
  {
    if rs != [] {
      SortSorted(rs[1..]);
      InsertSorted(rs[0], SortByStart(rs[1..]));
    }
  }

  lemma SameUnionOfPermutation(a: seq<Range>, b: seq<Range>)
    requires multiset(a) == multiset(b)
    ensures SameUnion(a, b)
  {
    forall t: real ensures Covered(a, t) <==> Covered(b, t) {
      if Covered(a, t) {
        var i :| 0 <= i < |a| && a[i].Holds(t);
        assert a[i] in multiset(b);
      }
      if Covered(b, t) {
        var i :| 0 <= i < |b| && b[i].Holds(t);
        assert b[i] in multiset(a);
      }
    }
  }

  lemma ProperPermutation(a: seq<Range>, b: seq<Range>)
    requires multiset(a) == multiset(b) && Proper(a)
    ensures Proper(b)
  {
    forall i | 0 <= i < |b| ensures b[i].start <= b[i].end {
      assert b[i] in multiset(a);
    }
  }

  /** Sorting is by start alone and need not be stable: any order of equal starts may come out of it. */
  method SortTimes(times: array<Range>)
    modifies times
    ensures multiset(times[..]) == multiset(old(times[..])) && StartSorted(times[..])
  {
    SortSorted(times[..]);
    assert StartSorted(SortByStart(times[..]));
    var s: seq<Range> :| multiset(s) == multiset(times[..]) && StartSorted(s);
    assert |multiset(s)| == |multiset(times[..])|;
    assert |multiset(s)| == |s| && |multiset(times[..])| == times.Length;
    for i := 0 to times.Length
      invariant times[..i] == s[..i]
    {
      times[i] := s[i];
    }
    assert times[..] == s;
  }

  method MergeRangeTimes(times: array<Range>) returns (result: seq<Range>)
    modifies times
    ensures multiset(times[..]) == multiset(old(times[..])) && StartSorted(times[..])
    ensures Merged(result, old(times[..]))
    ensures Proper(old(times[..])) ==> Proper(result)
    ensures result == [] <==> times.Length == 0
  {
    if times.Length == 0 { return []; }
    SortTimes(times);
    ghost var sorted := times[..];
    result := [];
    var current := times[0];
    for i := 1 to times.Length
      invariant times[..] == sorted && current.start <= sorted[i - 1].start
      invariant LoopInv(result, current, sorted[..i])
      invariant Proper(sorted) ==> Proper(result) && current.start <= current.end
    {
      assert sorted[..i + 1] == sorted[..i] + [times[i]];
      assert sorted[i - 1].start <= sorted[i].start;
      if times[i].start > current.end {
        PushKeepsInv(result, current, sorted[..i], times[i]);
        result := result + [current];
        current := times[i];
      } else {
        ExtendKeepsInv(result, current, sorted[..i], times[i]);
        if times[i].end > current.end { current := current.(end := times[i].end); }
      }
    }
    result := result + [current];
    assert sorted[..times.Length] == sorted;
    SameUnionOfPermutation(sorted, old(times[..]));
    if Proper(old(times[..])) { ProperPermutation(old(times[..]), sorted); }
  }

  // ---------------------------------------------------------------- gaps

  function LatestEnd(rs: seq<Range>, a: real): (m: real)
    ensures m >= a && forall i | 0 <= i < |rs| :: rs[i].end <= m
    ensures m == a || exists i | 0 <= i < |rs| :: rs[i].end == m
  {
    if rs == [] then a
    else
      var m := LatestEnd(rs[1..], a);
      assert forall i | 0 < i < |rs| :: rs[i] == rs[1..][i - 1];
      if rs[0].end > m then rs[0].end else m
  }

  function EarliestStart(rs: seq<Range>, b: real): (m: real)
    ensures m <= b && forall i | 0 <= i < |rs| :: m <= rs[i].start
    ensures m == b || exists i | 0 <= i < |rs| :: rs[i].start == m
  {
    if rs == [] then b
    else
      var m := EarliestStart(rs[1..], b);
      assert forall i | 0 < i < |rs| :: rs[i] == rs[1..][i - 1];
      if rs[0].start < m then rs[0].start else m
  }

  /** Just before a merged range starts, nothing is covered. */
  lemma GapBefore(m: seq<Range>, i: nat, a: real) returns (u: real)
    requires StartSorted(m) && Apart(m) && i < |m| && a < m[i].start
    ensures a < u < m[i].start && !Covered(m, u)
  {
    var e := LatestEnd(m[..i], a);
    u := (e + m[i].start) / 2.0;
    forall j | 0 <= j < |m| ensures !m[j].Holds(u) {
      if j < i { assert m[..i][j].end <= e; }
    }
  }

  /** Just after a merged range ends, nothing is covered. */
  lemma GapAfter(m: seq<Range>, i: nat, b: real) returns (u: real)
    requires StartSorted(m) && Apart(m) && i < |m| && m[i].start <= m[i].end < b
    ensures m[i].end < u < b && !Covered(m, u)
  {
    var s := EarliestStart(m[i + 1..], b);
    u := (m[i].end + s) / 2.0;
    forall j | 0 <= j < |m| ensures !m[j].Holds(u) {
      if j > i { assert m[i + 1..][j - i - 1].start >= s; }
    }
  }

  // ---------------------------------------------------------------- the instant's view

  predicate SomeActive(rs: seq<Range>, t: real) {
    exists i | 0 <= i < |rs| :: rs[i].Active(t)
  }

  /** All instants from `a` to `b` are covered. */
  ghost predicate Throughout(rs: seq<Range>, a: real, b: real) {
    forall u: real | a <= u <= b :: Covered(rs, u)
  }

  /** The approvals cover some time before the instant, the instant, and some time after it. */
  ghost predicate Inside(rs: seq<Range>, t: real) {
    exists a: real, b: real :: a < t < b && Throughout(rs, a, b)
  }

  /** A role is reported exactly inside the union of the approved ranges. */
  lemma ActiveExact(m: seq<Range>, rs: seq<Range>, t: real)
    requires Merged(m, rs)
    ensures SomeActive(m, t) <==> Inside(rs, t)
  {
    if SomeActive(m, t) {
      var i :| 0 <= i < |m| && m[i].Active(t);
      forall u: real | m[i].start <= u <= m[i].end ensures Covered(rs, u) {
        assert m[i].Holds(u) && Covered(m, u);
      }
      assert Throughout(rs, m[i].start, m[i].end);
    }
    if Inside(rs, t) {
      var a, b :| a < t < b && Throughout(rs, a, b);
      assert Covered(rs, t) && Covered(m, t);
      var i :| 0 <= i < |m| && m[i].Holds(t);
      if m[i].start == t {
        var u := GapBefore(m, i, a);
        assert false;
      }
      if m[i].end == t {
        var u := GapAfter(m, i, b);
        assert false;
      }
    }
  }

  predicate Endpoint(rs: seq<Range>, t: real) {
    exists i | 0 <= i < |rs| :: rs[i].start == t || rs[i].end == t
  }

  /** Away from the ends of the approved ranges, that is being in one of them. */
  lemma ActiveAwayFromEnds(m: seq<Range>, rs: seq<Range>, t: real)
    requires Merged(m, rs) && !Endpoint(rs, t)
    ensures SomeActive(m, t) <==> Covered(rs, t)
  {
    ActiveExact(m, rs, t);
    if Covered(rs, t) {
      var i :| 0 <= i < |rs| && rs[i].Holds(t);
      assert Throughout(rs, rs[i].start, rs[i].end);
    }
    if Inside(rs, t) {
      var a, b :| a < t < b && Throughout(rs, a, b);
    }
  }

  /** No two merged ranges are active at once. */
  lemma ActiveOnce(m: seq<Range>, i: nat, j: nat, t: real)
    requires StartSorted(m) && Apart(m) && i < |m| && j < |m| && m[i].Active(t) && m[j].Active(t)
    ensures i == j
  {
  }

  /** `last` is the last instant up to which the approvals run on from `t`. */
  ghost predicate RunsUntil(rs: seq<Range>, t: real, last: real) {
    t <= last && Throughout(rs, t, last) && forall later: real | later > last :: !Throughout(rs, t, later)
  }

  lemma RunsUntilOne(rs: seq<Range>, t: real, a: real, b: real)
    requires RunsUntil(rs, t, a) && RunsUntil(rs, t, b)
    ensures a == b
  {
  }

  lemma ActiveRunsUntilEnd(m: seq<Range>, rs: seq<Range>, i: nat, t: real)
    requires Merged(m, rs) && i < |m| && m[i].Active(t)
    ensures RunsUntil(rs, t, m[i].end)
  {
    forall u: real | t <= u <= m[i].end ensures Covered(rs, u) {
      assert m[i].Holds(u) && Covered(m, u);
    }
    forall later: real | later > m[i].end ensures !Throughout(rs, t, later) {
      var u := GapAfter(m, i, later);
      assert !Covered(rs, u);
    }
  }

  // ---------------------------------------------------------------- the merged list is determined by the union

  lemma HeadBounds(m: seq<Range>, t: real)
    requires StartSorted(m) && Apart(m) && Proper(m) && m != []
    ensures Covered(m, t) ==> m[0].start <= t
    ensures Covered(m[1..], t) <==> Covered(m, t) && t > m[0].end
  {
    if Covered(m, t) {
      var i :| 0 <= i < |m| && m[i].Holds(t);
      if i > 0 { assert m[1..][i - 1].Holds(t) && m[0].end < m[i].start; }
    }
    if Covered(m[1..], t) {
      var i :| 0 <= i < |m| - 1 && m[1..][i].Holds(t);
      assert m[i + 1].Holds(t) && m[0].end < m[i + 1].start;
    }
  }

  lemma HeadsAgree(a: seq<Range>, b: seq<Range>)
    requires StartSorted(a) && Apart(a) && Proper(a) && a != []
    requires StartSorted(b) && Apart(b) && Proper(b) && b != []
    requires SameUnion(a, b)
    ensures b[0].start <= a[0].start && b[0].end <= a[0].end
  {
    assert a[0].Holds(a[0].start) && Covered(a, a[0].start) && Covered(b, a[0].start);
    HeadBounds(b, a[0].start);
    assert b[0].Holds(b[0].start) && Covered(b, b[0].start) && Covered(a, b[0].start);
    HeadBounds(a, b[0].start);
    if b[0].end > a[0].end {
      var u := GapAfter(a, 0, b[0].end);
      assert b[0].Holds(u);
      assert Covered(b, u);
      assert false;
    }
  }

  /** Proper ranges with one union merge to one list, whatever order they come in and however they are cut up. */
  lemma {:induction false} MergedUnique(a: seq<Range>, b: seq<Range>)
    requires StartSorted(a) && Apart(a) && Proper(a) && StartSorted(b) && Apart(b) && Proper(b)
    requires SameUnion(a, b)
    ensures a == b
    decreases |a|
  {
    if a == [] {
      if b != [] {
        assert b[0].Holds(b[0].start);
        assert Covered(b, b[0].start);
        assert false;
      }
    } else if b == [] {
      assert a[0].Holds(a[0].start);
      assert Covered(a, a[0].start);
      assert false;
    } else {
      HeadsAgree(a, b);
      HeadsAgree(b, a);
      forall t: real ensures Covered(a[1..], t) <==> Covered(b[1..], t) {
        HeadBounds(a, t);
        HeadBounds(b, t);
      }
      MergedUnique(a[1..], b[1..]);
      assert a == [a[0]] + a[1..] && b == [b[0]] + b[1..];
    }
  }
}
