/**
The quota on new approval requests: a bounded store of recent times for each user, which refines the unbounded log
of all acceptances. Times are nanoseconds and never go back; each call is one locked step.
*/
module ApprovalQuota {
  import opened Strings
  import opened Sets

  const WINDOW: int := 600 * 1_000_000_000
  const MAX_REQUESTS: nat := 20
  const MAX_USERS: nat := 100_000

  /** Times after it are less than ten minutes old. */
  function CutoffAt(now: int): int {
    now - WINDOW
  }

  function Fresh(ts: seq<int>, cutoff: int): seq<int> {
    if ts == [] then []
    else Fresh(ts[..|ts| - 1], cutoff) + if ts[|ts| - 1] > cutoff then [ts[|ts| - 1]] else []
  }

  lemma {:induction false} FreshLater(ts: seq<int>, earlier: int, cutoff: int)
    requires earlier <= cutoff
    ensures Fresh(Fresh(ts, earlier), cutoff) == Fresh(ts, cutoff)
  {
    if ts != [] {
      var n := |ts| - 1;
      FreshLater(ts[..n], earlier, cutoff);
      var f := Fresh(ts[..n], earlier);
      if ts[n] > earlier {
        assert Fresh(ts, earlier) == f + [ts[n]];
        FreshAppend(f, ts[n], cutoff);
      } else {
        assert Fresh(ts, earlier) == f;
      }
    }
  }

  lemma FreshAppend(ts: seq<int>, t: int, cutoff: int)
    ensures Fresh(ts + [t], cutoff) == Fresh(ts, cutoff) + if t > cutoff then [t] else []
  {
    assert (ts + [t])[..|ts|] == ts;
  }

  lemma {:induction false} FreshShorter(ts: seq<int>, cutoff: int)
    ensures |Fresh(ts, cutoff)| <= |ts|
  {
    if ts != [] { FreshShorter(ts[..|ts| - 1], cutoff); }
  }

  predicate Rising(ts: seq<int>) {
    forall i, j | 0 <= i < j < |ts| :: ts[i] <= ts[j]
  }

  /** Of rising times the fresh ones are the last ones. */
  lemma {:induction false} FreshIsTail(ts: seq<int>, cutoff: int)
    requires Rising(ts)
    ensures var n := |Fresh(ts, cutoff)|; n <= |ts| && forall i | 0 <= i < |ts| :: ts[i] > cutoff <==> i >= |ts| - n
  {
    if ts != [] {
      var last := |ts| - 1;
      FreshIsTail(ts[..last], cutoff);
      var n := |Fresh(ts[..last], cutoff)|;
      assert n > 0 ==> cutoff < ts[..last][last - n] <= ts[last];
    }
  }

  /** Filters the first `n` slots onto the front of the same array. */
  method FilterInPlace(a: array<int>, n: nat, cutoff: int) returns (k: nat)
    requires n <= a.Length
    modifies a
    ensures k <= n && a[..k] == Fresh(old(a[..n]), cutoff)
  {
    k := 0;
    ghost var was := a[..];
    for i := 0 to n
      invariant k <= i && a[..k] == Fresh(was[..i], cutoff)
      invariant forall j | i <= j < n :: a[j] == was[j]
    {
      assert was[..i + 1][..i] == was[..i];
      if a[i] > cutoff {
        a[k] := a[i];
        k := k + 1;
      }
    }
  }

  // ---------------------------------------------------------------- the log of acceptances

  type Log = map<string, seq<int>>

  function TimesOf(log: Log, u: string): seq<int> {
    if u in log then log[u] else []
  }

  function FreshUsers(log: Log, cutoff: int): set<string> {
    set u | u in log && Fresh(log[u], cutoff) != []
  }

  /** Acceptances twenty or more apart in the list are at least ten minutes apart in time. */
  predicate Spaced(ts: seq<int>) {
    Rising(ts) && forall i, j | 0 <= i < j < |ts| && j - i >= MAX_REQUESTS :: ts[j] - ts[i] >= WINDOW
  }

  /** So that no window (t - 10 min, t] holds more than twenty. */
  lemma {:induction false} AtMostTwenty(ts: seq<int>, t: int)
    requires Spaced(ts) && UpTo(ts, t)
    ensures |Fresh(ts, CutoffAt(t))| <= MAX_REQUESTS
  {
    forall i | 0 <= i < |ts| - MAX_REQUESTS ensures ts[i] <= CutoffAt(t) {
      assert ts[i + MAX_REQUESTS] - ts[i] >= WINDOW && ts[i + MAX_REQUESTS] in ts;
    }
    FreshIsTail(ts, CutoffAt(t));
    var n := |Fresh(ts, CutoffAt(t))|;
    assert n > 0 ==> ts[|ts| - n] > CutoffAt(t);
  }

  lemma AcceptKeepsSpaced(ts: seq<int>, now: int)
    requires Spaced(ts) && UpTo(ts, now) && |Fresh(ts, CutoffAt(now))| < MAX_REQUESTS
    ensures Spaced(ts + [now])
  {
    FreshIsTail(ts, CutoffAt(now));
    assert forall i | 0 <= i < |ts| :: ts[i] in ts;
  }

  // ---------------------------------------------------------------- the store

  type Entries = map<string, seq<int>>

  /** What is stored for a user and what is in the log agree on everything still fresh. */
  ghost predicate Agrees(entries: Entries, log: Log, cutoff: int) {
    forall u: string :: Fresh(TimesOf(entries, u), cutoff) == Fresh(TimesOf(log, u), cutoff)
  }

  lemma UpdateAgrees(entries: Entries, log: Log, u: string, stored: seq<int>, logged: seq<int>, cutoff: int)
    requires Agrees(entries, log, cutoff) && Fresh(stored, cutoff) == Fresh(logged, cutoff)
    ensures Agrees(entries[u := stored], log[u := logged], cutoff)
  {
    var e, l := entries[u := stored], log[u := logged];
    forall v: string ensures Fresh(TimesOf(e, v), cutoff) == Fresh(TimesOf(l, v), cutoff) {
      assert v != u ==> TimesOf(e, v) == TimesOf(entries, v) && TimesOf(l, v) == TimesOf(log, v);
    }
  }

  predicate UpTo(ts: seq<int>, last: int) {
    forall t | t in ts :: t <= last
  }

  predicate LogOk(log: Log, last: int) {
    forall u | u in log :: Spaced(log[u]) && UpTo(log[u], last)
  }

  predicate Small(entries: Entries) {
    |entries| <= MAX_USERS && forall u | u in entries :: |entries[u]| <= MAX_REQUESTS
  }

  lemma AgreesLater(entries: Entries, log: Log, earlier: int, cutoff: int)
    requires Agrees(entries, log, earlier) && earlier <= cutoff
    ensures Agrees(entries, log, cutoff)
  {
    forall u: string ensures Fresh(TimesOf(entries, u), cutoff) == Fresh(TimesOf(log, u), cutoff) {
      FreshLater(TimesOf(entries, u), earlier, cutoff);
      FreshLater(TimesOf(log, u), earlier, cutoff);
    }
  }

  function Swept(entries: Entries, cutoff: int): Entries {
    map u | u in entries && Fresh(entries[u], cutoff) != [] :: Fresh(entries[u], cutoff)
  }

  /** Sweeping loses nothing fresh and keeps exactly the users with something fresh. */
  lemma SweptAgrees(entries: Entries, log: Log, cutoff: int)
    requires Agrees(entries, log, cutoff) && Small(entries)
    ensures Agrees(Swept(entries, cutoff), log, cutoff) && Small(Swept(entries, cutoff))
    ensures Swept(entries, cutoff).Keys == FreshUsers(log, cutoff)
  {
    var s := Swept(entries, cutoff);
    forall u: string ensures Fresh(TimesOf(s, u), cutoff) == Fresh(TimesOf(log, u), cutoff) {
      FreshLater(TimesOf(entries, u), cutoff, cutoff);
    }
    forall u | u in s ensures |s[u]| <= MAX_REQUESTS {
      FreshShorter(entries[u], cutoff);
    }
    SubsetSize(s.Keys, entries.Keys);
    forall u: string ensures u in s <==> u in FreshUsers(log, cutoff) {
      assert Fresh(TimesOf(entries, u), cutoff) == Fresh(TimesOf(log, u), cutoff);
    }
  }

  /** Every user with something fresh is stored. */
  lemma FreshAreStored(entries: Entries, log: Log, cutoff: int)
    requires Agrees(entries, log, cutoff)
    ensures FreshUsers(log, cutoff) <= entries.Keys && |FreshUsers(log, cutoff)| <= |entries|
  {
    forall u | u in FreshUsers(log, cutoff) ensures u in entries {
      assert Fresh(TimesOf(entries, u), cutoff) == Fresh(TimesOf(log, u), cutoff);
    }
    SubsetSize(FreshUsers(log, cutoff), entries.Keys);
  }

  /** The store is within its bounds and fit for calls at which only later times are fresh. */
  ghost predicate Ready(entries: Entries, log: Log, cutoff: int) {
    Small(entries) && Agrees(entries, log, cutoff) && entries.Keys <= log.Keys
  }

  lemma StoreOne(entries: Entries, u: string, ts: seq<int>)
    requires Small(entries) && |ts| <= MAX_REQUESTS && (u in entries || |entries| < MAX_USERS)
    ensures Small(entries[u := ts])
  {
    assert entries[u := ts].Keys == entries.Keys + {u};
  }

  function Kept(entries: Entries, u: string, cutoff: int): Entries {
    if u in entries then entries[u := Fresh(entries[u], cutoff)] else entries
  }

  datatype Outcome = Outcome(entries: Entries, allowed: bool)

  function Added(entries: Entries, u: string, cutoff: int, now: int): Outcome {
    var left := LeftOf(entries, u, cutoff);
    if u in entries || |left| < MAX_USERS then Outcome(left[u := TimesOf(left, u) + [now]], true)
    else Outcome(left, false)
  }

  /** One call on the store. */
  function Allowed(entries: Entries, u: string, cutoff: int, now: int): Outcome {
    var kept := Kept(entries, u, cutoff);
    if u == "" then Outcome(entries, false)
    else if |TimesOf(kept, u)| >= MAX_REQUESTS then Outcome(kept, false)
    else Added(kept, u, cutoff, now)
  }

  lemma KeptAgrees(entries: Entries, log: Log, u: string, cutoff: int)
    requires Ready(entries, log, cutoff)
    ensures var kept := Kept(entries, u, cutoff);
      Ready(kept, log, cutoff) && kept.Keys == entries.Keys && TimesOf(kept, u) == Fresh(TimesOf(log, u), cutoff)
  {
    assert Fresh(TimesOf(entries, u), cutoff) == Fresh(TimesOf(log, u), cutoff);
    if u in entries {
      FreshLater(entries[u], cutoff, cutoff);
      FreshShorter(entries[u], cutoff);
      StoreOne(entries, u, Fresh(entries[u], cutoff));
      var after := Kept(entries, u, cutoff);
      forall v: string ensures Fresh(TimesOf(after, v), cutoff) == Fresh(TimesOf(log, v), cutoff) {
        assert Fresh(TimesOf(entries, v), cutoff) == Fresh(TimesOf(log, v), cutoff);
      }
    }
  }

  lemma AcceptedAgrees(entries: Entries, log: Log, u: string, cutoff: int, now: int)
    requires Ready(entries, log, cutoff) && cutoff < now
    requires TimesOf(entries, u) == Fresh(TimesOf(log, u), cutoff) && |TimesOf(entries, u)| < MAX_REQUESTS
    requires u in entries || |entries| < MAX_USERS
    ensures var after := entries[u := TimesOf(entries, u) + [now]];
      Ready(after, LogAfter(log, u, now, true), cutoff) && after.Keys == entries.Keys + {u}
  {
    var kept, times := TimesOf(entries, u), TimesOf(log, u);
    FreshLater(times, cutoff, cutoff);
    FreshAppend(kept, now, cutoff);
    FreshAppend(times, now, cutoff);
    UpdateAgrees(entries, log, u, kept + [now], times + [now], cutoff);
    StoreOne(entries, u, kept + [now]);
  }

  /** The rule, in terms of the whole log and of whether the user is in the store. */
  predicate Grants(u: string, stored: bool, log: Log, cutoff: int) {
    u != "" && |Fresh(TimesOf(log, u), cutoff)| < MAX_REQUESTS && (stored || |FreshUsers(log, cutoff)| < MAX_USERS)
  }

  function LogAfter(log: Log, u: string, now: int, allowed: bool): Log {
    if allowed then log[u := TimesOf(log, u) + [now]] else log
  }

  /** The users that are stored after a call: a full store is swept for a user who is not in it. */
  function UsersAfter(users: set<string>, u: string, log: Log, cutoff: int): set<string> {
    if u == "" || |Fresh(TimesOf(log, u), cutoff)| >= MAX_REQUESTS then users
    else
      var left := if u !in users && |users| >= MAX_USERS then FreshUsers(log, cutoff) else users;
      if u in users || |left| < MAX_USERS then left + {u} else left
  }

  /** What a call decides, with the users stored and the log afterwards. */
  datatype Ruling = Ruling(users: set<string>, log: Log, allowed: bool)

  function Rule(users: set<string>, log: Log, u: string, cutoff: int, now: int): Ruling {
    var allowed := Grants(u, u in users, log, cutoff);
    Ruling(UsersAfter(users, u, log, cutoff), LogAfter(log, u, now, allowed), allowed)
  }

  /** What is left of the store when a user is to be added. */
  function LeftOf(entries: Entries, u: string, cutoff: int): Entries {
    if u !in entries && |entries| >= MAX_USERS then Swept(entries, cutoff) else entries
  }

  lemma LeftAgrees(entries: Entries, log: Log, u: string, cutoff: int)
    requires Ready(entries, log, cutoff)
    ensures var left := LeftOf(entries, u, cutoff);
      Ready(left, log, cutoff) && (u in left <==> u in entries) && TimesOf(left, u) == TimesOf(entries, u)
  {
    if |entries| >= MAX_USERS { SweptAgrees(entries, log, cutoff); }
  }

  /** Whether there is room depends on the log alone. */
  lemma LeftRoom(entries: Entries, log: Log, u: string, cutoff: int)
    requires Ready(entries, log, cutoff) && u !in entries
    ensures var left := LeftOf(entries, u, cutoff);
      left.Keys == (if |entries.Keys| >= MAX_USERS then FreshUsers(log, cutoff) else entries.Keys) &&
      |left.Keys| == |left| && (|left| < MAX_USERS <==> |FreshUsers(log, cutoff)| < MAX_USERS)
  {
    assert |entries.Keys| == |entries|;
    FreshAreStored(entries, log, cutoff);
    if |entries| >= MAX_USERS {
      SweptAgrees(entries, log, cutoff);
      assert |Swept(entries, cutoff).Keys| == |Swept(entries, cutoff)|;
    }
  }

  lemma AddedIsReady(entries: Entries, log: Log, u: string, cutoff: int, now: int)
    requires Ready(entries, log, cutoff) && cutoff < now
    requires TimesOf(entries, u) == Fresh(TimesOf(log, u), cutoff) && |TimesOf(entries, u)| < MAX_REQUESTS
    ensures var o := Added(entries, u, cutoff, now); Ready(o.entries, LogAfter(log, u, now, o.allowed), cutoff)
  {
    var left := LeftOf(entries, u, cutoff);
    LeftAgrees(entries, log, u, cutoff);
    if u in entries || |left| < MAX_USERS { AcceptedAgrees(left, log, u, cutoff, now); }
  }

  lemma AddedKeys(entries: Entries, u: string, cutoff: int, now: int)
    ensures var left, o := LeftOf(entries, u, cutoff), Added(entries, u, cutoff, now);
      o.entries.Keys == left.Keys + (if o.allowed then {u} else {}) &&
      (o.allowed <==> u in entries || |left| < MAX_USERS)
  {
  }

  lemma AddedIsDecided(entries: Entries, log: Log, u: string, cutoff: int, now: int)
    requires Ready(entries, log, cutoff) && u != "" && |Fresh(TimesOf(log, u), cutoff)| < MAX_REQUESTS
    ensures var o := Added(entries, u, cutoff, now);
      Rule(entries.Keys, log, u, cutoff, now) == Ruling(o.entries.Keys, LogAfter(log, u, now, o.allowed), o.allowed)
  {
    AddedKeys(entries, u, cutoff, now);
    if u !in entries { LeftRoom(entries, log, u, cutoff); }
  }

  /** A call on the store decides by the whole log. */
  lemma AllowedIsDecided(
      entries: Entries, log: Log, u: string, cutoff: int, now: int, after: Entries, allowed: bool)
    requires Ready(entries, log, cutoff) && cutoff < now && Outcome(after, allowed) == Allowed(entries, u, cutoff, now)
    ensures var log' := LogAfter(log, u, now, allowed);
      Ready(after, log', cutoff) && Ruling(after.Keys, log', allowed) == Rule(entries.Keys, log, u, cutoff, now)
  {
    KeptAgrees(entries, log, u, cutoff);
    var kept := Kept(entries, u, cutoff);
    if u != "" && |TimesOf(kept, u)| < MAX_REQUESTS {
      AddedIsReady(kept, log, u, cutoff, now);
      AddedIsDecided(kept, log, u, cutoff, now);
    }
  }

  /** A Go slice: the first `n` elements of a backing array. */
  datatype Slice = Slice(buf: array<int>, n: nat)

  class Quota {
    var slices: map<string, Slice>

    /** What the slices hold, and their backing arrays. */
    ghost var entries: Entries
    ghost var bufs: set<array<int>>
    ghost var log: Log
    ghost var last: int

    /** No two users share a backing array, so that filtering one in place leaves the others alone. */
    ghost predicate Shape()
      reads this, bufs
    {
      entries.Keys == slices.Keys &&
      (forall u | u in slices :: slices[u].buf in bufs && Backs(slices[u], entries[u])) &&
      forall u, v | u in slices && v in slices && u != v :: slices[u].buf != slices[v].buf
    }

    ghost predicate Backs(s: Slice, ts: seq<int>)
      reads s.buf
    {
      s.n <= s.buf.Length && s.buf[..s.n] == ts
    }

    ghost predicate Valid()
      reads this, bufs
    {
      Shape() && Ready(entries, log, CutoffAt(last))
    }

    constructor (start: int)
      ensures Valid() && fresh(bufs) && entries == map[] && log == map[] && last == start
    {
      slices, entries, bufs, log, last := map[], map[], {}, map[], start;
    }

    /** Filters a user's slice onto its own front. */
    method Refilter(u: string, cutoff: int) returns (k: nat)
      requires Shape() && u in slices
      modifies this`slices, this`entries, bufs
      ensures Shape() && bufs == old(bufs)
      ensures entries == old(entries)[u := Fresh(old(entries)[u], cutoff)] && k == |entries[u]|
    {
      var s := slices[u];
      k := FilterInPlace(s.buf, s.n, cutoff);
      slices := slices[u := Slice(s.buf, k)];
      entries := entries[u := Fresh(entries[u], cutoff)];
    }

    method Delete(u: string)
      requires Shape() && u in slices
      modifies this`slices, this`entries
      ensures Shape() && entries == old(entries) - {u}
    {
      slices := slices - {u};
      entries := entries - {u};
    }

    method AppendInPlace(u: string, t: int)
      requires Shape() && u in slices && slices[u].n < slices[u].buf.Length
      modifies this`slices, this`entries, bufs
      ensures Shape() && bufs == old(bufs) && entries == old(entries)[u := old(entries)[u] + [t]]
    {
      var s := slices[u];
      s.buf[s.n] := t;
      assert s.buf[..s.n + 1] == entries[u] + [t];
      slices := slices[u := Slice(s.buf, s.n + 1)];
      entries := entries[u := entries[u] + [t]];
    }

    method Place(u: string, ts: seq<int>, room: nat)
      requires Shape()
      modifies this`slices, this`entries, this`bufs
      ensures Shape() && bufs >= old(bufs) && fresh(bufs - old(bufs)) && entries == old(entries)[u := ts]
    {
      var buf := new int[|ts| + room](i => if 0 <= i < |ts| then ts[i] else 0);
      assert buf[..|ts|] == ts;
      bufs := bufs + {buf};
      slices := slices[u := Slice(buf, |ts|)];
      entries := entries[u := ts];
    }

    /** `append`: in place while the backing array has room, else into a larger one. */
    method Append(u: string, t: int)
      requires Shape()
      modifies this`slices, this`entries, this`bufs, bufs
      ensures Shape() && bufs >= old(bufs) && fresh(bufs - old(bufs))
      ensures entries == old(entries)[u := TimesOf(old(entries), u) + [t]]
    {
      if u in slices && slices[u].n < slices[u].buf.Length {
        AppendInPlace(u, t);
      } else if u in slices {
        var s := slices[u];
        Place(u, s.buf[..s.n] + [t], s.n);
      } else {
        assert [] + [t] == [t];
        Place(u, [t], 0);
      }
    }

    /** One user in a sweep. */
    method SweepUser(u: string, cutoff: int)
      requires Shape() && u in slices
      modifies this`slices, this`entries, bufs
      ensures Shape() && bufs == old(bufs)
      ensures var f := Fresh(old(entries)[u], cutoff);
        entries == if f == [] then old(entries) - {u} else old(entries)[u := f]
    {
      ghost var was, f := entries, Fresh(entries[u], cutoff);
      var k := Refilter(u, cutoff);
      if k == 0 {
        DropEmpty(was, u, f);
        Delete(u);
      }
    }

    /** The full store drops what is no longer fresh, user by user in any order. */
    method Sweep(cutoff: int)
      requires Shape()
      modifies this`slices, this`entries, bufs
      ensures Shape() && bufs == old(bufs) && entries == Swept(old(entries), cutoff)
    {
      ghost var was := entries;
      var todo := slices.Keys;
      SweptEnds(was, cutoff);
      while todo != {}
        invariant Shape() && bufs == old(bufs) && todo <= was.Keys
        invariant entries == PartlySwept(was, todo, cutoff)
      {
        var key :| key in todo;
        SweptOne(was, todo, key, cutoff);
        SweepUser(key, cutoff);
        todo := todo - {key};
      }
    }

    lemma SameSize()
      requires Shape()
      ensures |slices| == |entries|
    {
      assert |slices.Keys| == |slices| && |entries.Keys| == |entries|;
    }

    /** Whether a user who is not in the store can be added, after a sweep if the store is full. */
    method MakeRoom(u: string, cutoff: int) returns (room: bool)
      requires Shape()
      modifies this`slices, this`entries, bufs
      ensures Shape() && bufs == old(bufs)
      ensures entries == (if |old(entries)| >= MAX_USERS then Swept(old(entries), cutoff) else old(entries))
      ensures room == (|entries| < MAX_USERS)
    {
      SameSize();
      if |slices| >= MAX_USERS {
        Sweep(cutoff);
        SameSize();
      }
      room := |slices| < MAX_USERS;
    }

    /** Filters what the user has, if anything. */
    method Keep(u: string, cutoff: int) returns (k: nat)
      requires Shape()
      modifies this`slices, this`entries, bufs
      ensures Shape() && bufs == old(bufs) && entries == Kept(old(entries), u, cutoff) && k == |TimesOf(entries, u)|
    {
      if u !in slices { return 0; }
      k := Refilter(u, cutoff);
    }

    method AddUser(u: string, cutoff: int, now: int) returns (allowed: bool)
      requires Shape()
      modifies this`slices, this`entries, this`bufs, bufs
      ensures Shape() && bufs >= old(bufs) && fresh(bufs - old(bufs))
      ensures Outcome(entries, allowed) == Added(old(entries), u, cutoff, now)
    {
      if u !in slices {
        var room := MakeRoom(u, cutoff);
        if !room { return false; }
      }
      Append(u, now);
      return true;
    }

    method AllowUser(u: string, cutoff: int, now: int) returns (allowed: bool)
      requires Shape()
      modifies this`slices, this`entries, this`bufs, bufs
      ensures Shape() && bufs >= old(bufs) && fresh(bufs - old(bufs))
      ensures Outcome(entries, allowed) == Allowed(old(entries), u, cutoff, now)
    {
      if u == "" { return false; }
      var kept := Keep(u, cutoff);
      if kept >= MAX_REQUESTS { return false; }
      allowed := AddUser(u, cutoff, now);
    }

    method DecideUser(u: string, cutoff: int, now: int) returns (allowed: bool)
      requires Shape() && Ready(entries, log, cutoff) && cutoff < now
      modifies this`slices, this`entries, this`bufs, this`log, bufs
      ensures Shape() && Ready(entries, log, cutoff) && bufs >= old(bufs) && fresh(bufs - old(bufs))
      ensures Ruling(entries.Keys, log, allowed) == Rule(old(entries.Keys), old(log), u, cutoff, now)
    {
      ghost var was, log0 := entries, log;
      allowed := AllowUser(u, cutoff, now);
      ghost var after := entries;
      ghost var log1 := LogAfter(log0, u, now, allowed);
      AllowedIsDecided(was, log0, u, cutoff, now, after, allowed);
      log := log1;
      assert Ready(entries, log, cutoff);
    }

    /**
    Grants a request unless the user is blank, has twenty acceptances in the last ten minutes, or is not in the store
    while a hundred thousand others still have one.
    */
    method AllowApprovalCreate(user: string, now: int) returns (allowed: bool)
      requires Valid() && last <= now
      modifies this, bufs
      ensures Valid() && last == now && bufs >= old(bufs) && fresh(bufs - old(bufs))
      ensures Ruling(entries.Keys, log, allowed) ==
        Rule(old(entries.Keys), old(log), TrimSpace(user), CutoffAt(now), now)
    {
      var u := TrimSpace(user);
      AgreesLater(entries, log, CutoffAt(last), CutoffAt(now));
      last := now;
      allowed := DecideUser(u, CutoffAt(now), now);
    }
  }

  lemma DropEmpty(entries: Entries, u: string, f: seq<int>)
    ensures entries[u := f] - {u} == entries - {u}
  {
  }

  lemma SweptEnds(was: Entries, cutoff: int)
    ensures PartlySwept(was, was.Keys, cutoff) == was && PartlySwept(was, {}, cutoff) == Swept(was, cutoff)
  {
  }

  function PartlySwept(was: Entries, todo: set<string>, cutoff: int): Entries {
    map u | u in was && (u in todo || Fresh(was[u], cutoff) != []) ::
      if u in todo then was[u] else Fresh(was[u], cutoff)
  }

  lemma SweptOne(was: Entries, todo: set<string>, u: string, cutoff: int)
    requires u in todo && todo <= was.Keys
    ensures var now, f := PartlySwept(was, todo, cutoff), Fresh(was[u], cutoff);
      u in now && now[u] == was[u] && PartlySwept(was, todo - {u}, cutoff) == if f == [] then now - {u} else now[u := f]
  {
  }

  lemma DecidedLog(log: Log, u: string, stored: bool, last: int, now: int)
    requires LogOk(log, last) && last <= now
    ensures LogOk(LogAfter(log, u, now, Grants(u, stored, log, CutoffAt(now))), now)
  {
    if Grants(u, stored, log, CutoffAt(now)) { AcceptKeepsSpaced(TimesOf(log, u), now); }
  }

  // ---------------------------------------------------------------- whole runs

  datatype Call = Call(user: string, now: int)

  predicate Ordered(calls: seq<Call>, from: int) {
    calls == [] || (from <= calls[0].now && Ordered(calls[1..], calls[0].now))
  }

  /** The entries of a list that lie in (t - 10 min, t]. */
  function InWindow(ts: seq<int>, t: int): seq<int> {
    Fresh(UpToTime(ts, t), CutoffAt(t))
  }

  function UpToTime(ts: seq<int>, t: int): seq<int> {
    if ts == [] then []
    else UpToTime(ts[..|ts| - 1], t) + if ts[|ts| - 1] <= t then [ts[|ts| - 1]] else []
  }

  /** Of rising times those up to an instant come first. */
  lemma {:induction false} UpToTimeIsPrefix(ts: seq<int>, t: int)
    requires Rising(ts)
    ensures UpTo(UpToTime(ts, t), t) && UpToTime(ts, t) <= ts
  {
    if ts != [] {
      var n := |ts| - 1;
      UpToTimeIsPrefix(ts[..n], t);
      if ts[n] <= t { AllUpTo(ts, t); }
    }
  }

  lemma {:induction false} AllUpTo(ts: seq<int>, t: int)
    requires Rising(ts) && ts != [] && ts[|ts| - 1] <= t
    ensures UpToTime(ts, t) == ts
  {
    var n := |ts| - 1;
    assert ts == ts[..n] + [ts[n]];
    if n > 0 {
      assert ts[n - 1] <= ts[n];
      AllUpTo(ts[..n], t);
    }
  }

  /** No window of ten minutes, whenever it ends, holds more than twenty acceptances. */
  lemma AnyWindow(ts: seq<int>, t: int)
    requires Spaced(ts)
    ensures |InWindow(ts, t)| <= MAX_REQUESTS
  {
    UpToTimeIsPrefix(ts, t);
    AtMostTwenty(UpToTime(ts, t), t);
  }

  /** One call, with the users stored and what was granted to whom before it. */
  datatype Decision = Decision(u: string, users: set<string>, log: Log, now: int, allowed: bool)

  /**
  The verdict is the rule, the log grows by what is granted, and the store by the user. All users with something fresh
  are stored, and only users who were granted something.
  */
  predicate Follows(d: Decision, users: set<string>, log: Log) {
    FreshUsers(d.log, CutoffAt(d.now)) <= d.users <= d.log.Keys &&
    Ruling(users, log, d.allowed) == Rule(d.users, d.log, d.u, CutoffAt(d.now), d.now)
  }

  /** The decisions of a run, each on the store and the log that the ones before it have left. */
  predicate Chain(ds: seq<Decision>, users: set<string>, log: Log) {
    if ds == [] then users == {} && log == map[]
    else
      var d := ds[|ds| - 1];
      Follows(d, users, log) && Chain(ds[..|ds| - 1], d.users, d.log)
  }

  lemma OneDecision(d: Decision, users: set<string>, log: Log, d': Decision, users': set<string>, log': Log)
    requires Follows(d, users, log) && Follows(d', users', log')
    requires d.u == d'.u && d.users == d'.users && d.log == d'.log && d.now == d'.now
    ensures d == d' && users == users' && log == log'
  {
  }

  /** The calls alone determine every verdict. */
  lemma {:induction false} OneChain(
      ds: seq<Decision>, users: set<string>, log: Log, ds': seq<Decision>, users': set<string>, log': Log)
    requires Chain(ds, users, log) && Chain(ds', users', log') && |ds| == |ds'|
    requires forall i | 0 <= i < |ds| :: ds[i].u == ds'[i].u && ds[i].now == ds'[i].now
    ensures ds == ds' && users == users' && log == log'
  {
    if ds != [] {
      var n := |ds| - 1;
      OneChain(ds[..n], ds[n].users, ds[n].log, ds'[..n], ds'[n].users, ds'[n].log);
      OneDecision(ds[n], users, log, ds'[n], users', log');
      assert ds == ds[..n] + [ds[n]] && ds' == ds'[..n] + [ds'[n]];
    }
  }

  lemma ChainOneMore(ds: seq<Decision>, d: Decision, users: set<string>, log: Log)
    requires Chain(ds, d.users, d.log) && Follows(d, users, log)
    ensures Chain(ds + [d], users, log)
  {
    assert (ds + [d])[..|ds|] == ds;
  }

  predicate Records(d: Decision, call: Call, verdict: bool) {
    d.u == TrimSpace(call.user) && d.now == call.now && d.allowed == verdict
  }

  /** The decisions are those of the calls, with the verdicts given. */
  predicate Recorded(calls: seq<Call>, verdicts: seq<bool>, ds: seq<Decision>) {
    |calls| == |verdicts| == |ds| && forall i | 0 <= i < |ds| :: Records(ds[i], calls[i], verdicts[i])
  }

  lemma RecordedOneMore(
      calls: seq<Call>, verdicts: seq<bool>, ds: seq<Decision>, call: Call, verdict: bool, d: Decision)
    requires Recorded(calls, verdicts, ds) && Records(d, call, verdict)
    ensures Recorded(calls + [call], verdicts + [verdict], ds + [d])
  {
  }

  /**
  Over every run from the empty store each call is decided by the rule on all acceptances before it, and no user has
  more than twenty acceptances in any ten minutes.
  */
  method Play(calls: seq<Call>, start: int) returns (verdicts: seq<bool>, q: Quota, ghost decisions: seq<Decision>)
    requires Ordered(calls, start)
    ensures q.Valid() && LogOk(q.log, q.last)
    ensures Chain(decisions, q.entries.Keys, q.log) && Recorded(calls, verdicts, decisions)
    ensures forall u: string, t: int :: |InWindow(TimesOf(q.log, u), t)| <= MAX_REQUESTS
  {
    q := new Quota(start);
    verdicts, decisions := [], [];
    for i := 0 to |calls|
      invariant fresh(q) && fresh(q.bufs) && Running(q, calls[..i], calls[i..], verdicts, decisions)
    {
      NextCall(calls, i);
      verdicts, decisions := PlayOne(q, calls[..i], calls[i], calls[i + 1..], verdicts, decisions);
    }
    assert calls[..|calls|] == calls;
    EveryWindow(q.log, q.last);
  }

  /** Where a run stands: the calls made, the calls to come, and what was decided. */
  ghost predicate Running(q: Quota, made: seq<Call>, rest: seq<Call>, verdicts: seq<bool>, decisions: seq<Decision>)
    reads q, q.bufs
  {
    q.Valid() && LogOk(q.log, q.last) && Ordered(rest, q.last) && Chain(decisions, q.entries.Keys, q.log) &&
    Recorded(made, verdicts, decisions)
  }

  lemma NextCall(calls: seq<Call>, i: nat)
    requires i < |calls|
    ensures calls[i..] == [calls[i]] + calls[i + 1..] && calls[..i + 1] == calls[..i] + [calls[i]]
  {
  }

  method PlayOne(
      q: Quota, ghost made: seq<Call>, call: Call, ghost rest: seq<Call>, verdicts: seq<bool>,
      ghost decisions: seq<Decision>)
    returns (verdicts': seq<bool>, ghost decisions': seq<Decision>)
    requires Running(q, made, [call] + rest, verdicts, decisions)
    modifies q, q.bufs
    ensures Running(q, made + [call], rest, verdicts', decisions') && fresh(q.bufs - old(q.bufs))
  {
    assert ([call] + rest)[0] == call && ([call] + rest)[1..] == rest;
    var allowed;
    ghost var d;
    allowed, d := Decide(q, call);
    ChainOneMore(decisions, d, q.entries.Keys, q.log);
    RecordedOneMore(made, verdicts, decisions, call, allowed, d);
    verdicts', decisions' := verdicts + [allowed], decisions + [d];
  }

  lemma EveryWindow(log: Log, last: int)
    requires LogOk(log, last)
    ensures forall u: string, t: int :: |InWindow(TimesOf(log, u), t)| <= MAX_REQUESTS
  {
    forall u: string, t: int ensures |InWindow(TimesOf(log, u), t)| <= MAX_REQUESTS {
      AnyWindow(TimesOf(log, u), t);
    }
  }

  method Decide(q: Quota, call: Call) returns (allowed: bool, ghost d: Decision)
    requires q.Valid() && LogOk(q.log, q.last) && q.last <= call.now
    modifies q, q.bufs
    ensures q.Valid() && LogOk(q.log, q.last) && q.last == call.now && q.bufs >= old(q.bufs) &&
      fresh(q.bufs - old(q.bufs))
    ensures Records(d, call, allowed) && d.users == old(q.entries.Keys) && d.log == old(q.log)
    ensures Follows(d, q.entries.Keys, q.log)
  {
    ghost var u := TrimSpace(call.user);
    DecidedLog(q.log, u, u in q.entries, q.last, call.now);
    AgreesLater(q.entries, q.log, CutoffAt(q.last), CutoffAt(call.now));
    FreshAreStored(q.entries, q.log, CutoffAt(call.now));
    d := Decision(u, q.entries.Keys, q.log, call.now, false);
    allowed := q.AllowApprovalCreate(call.user, call.now);
    d := d.(allowed := allowed);
  }
}
