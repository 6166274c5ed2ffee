/** What the login limiter keeps over whole runs: cleaning is invisible, locks hold, and rates are bounded. */
module LimiterRuns {
  import opened LoginLimiter
  import opened Sets

  // ---------------------------------------------------------------- stale buckets do not matter

  /** The map never grows past its bound. */
  predicate Bounded(m: Buckets) {
    |m| <= MAX_BUCKETS
  }

  lemma LiveSmaller(m: Buckets, now: int)
    ensures Live(m, now).Keys <= m.Keys && |Live(m, now)| <= |m|
    ensures forall k | k in m && Stale(m[k], now) :: |Live(m, now)| < |m|
  {
    var l := Live(m, now);
    assert l.Keys <= m.Keys;
    SubsetSize(l.Keys, m.Keys);
    forall k | k in m && Stale(m[k], now) ensures |l| < |m| {
      SubsetSize(l.Keys, m.Keys - {k});
    }
  }

  lemma LiveTwice(m: Buckets, earlier: int, now: int)
    requires earlier <= now
    ensures Live(Live(m, earlier), now) == Live(m, now)
  {
  }

  lemma LiveUpdated(m: Buckets, k: string, b: Bucket, now: int)
    requires !Stale(b, now)
    ensures Live(m[k := b], now) == Live(m, now)[k := b]
  {
  }

  lemma RefreshedIsLive(b: Bucket, now: int)
    ensures !Stale(Refreshed(b, now), now)
    ensures Stale(b, now) ==> Refreshed(b, now) == NewBucket(now)
  {
  }

  /** A bucket that would be deleted acts as if it had been, even in a full map. */
  lemma GetLive(m: Buckets, key: string, now: int)
    requires Bounded(m)
    ensures Bounded(Get(m, key, now))
    ensures Live(Get(m, key, now), now) == Get(Live(m, now), key, now)
  {
    LiveSmaller(m, now);
    LiveTwice(m, now, now);
    if key != "" && key in m {
      RefreshedIsLive(m[key], now);
      LiveUpdated(m, key, Refreshed(m[key], now), now);
      assert m[key := Refreshed(m[key], now)].Keys == m.Keys;
    } else if key != "" {
      LiveUpdated(m, key, NewBucket(now), now);
      LiveUpdated(Live(m, now), key, NewBucket(now), now);
      assert m[key := NewBucket(now)].Keys == m.Keys + {key};
      assert Live(m, now)[key := NewBucket(now)].Keys == Live(m, now).Keys + {key};
    }
  }

  /** And the bucket handed out is not stale. */
  lemma GotIsLive(m: Buckets, key: string, now: int)
    requires Has(Get(m, key, now), key)
    ensures !Stale(Get(m, key, now)[key], now)
    ensures var b := Get(m, key, now)[key]; b.windowStart <= now ==> now - b.windowStart <= WINDOW
  {
    if key in m { RefreshedIsLive(m[key], now); }
  }

  lemma SameGot(m: Buckets, key: string, now: int)
    requires Bounded(m)
    ensures Has(Get(m, key, now), key) <==> Has(Get(Live(m, now), key, now), key)
    ensures Has(Get(m, key, now), key) ==> Get(m, key, now)[key] == Get(Live(m, now), key, now)[key]
  {
    GetLive(m, key, now);
    if Has(Get(m, key, now), key) { GotIsLive(m, key, now); }
  }

  lemma {:induction false} ScanLive(m: Buckets, keys: seq<string>, now: int)
    requires Bounded(m)
    ensures var a, b := Scan(m, keys, now), Scan(Live(m, now), keys, now);
      Bounded(a.m) && a.locked == b.locked && Live(a.m, now) == Live(b.m, now)
    decreases |keys|
  {
    LiveTwice(m, now, now);
    if keys != [] {
      var g := Get(m, keys[0], now);
      GetLive(m, keys[0], now);
      SameGot(m, keys[0], now);
      LiveTwice(g, now, now);
      ScanLive(g, keys[1..], now);
    }
  }

  lemma ChargeOneLive(m: Buckets, key: string, now: int)
    requires Bounded(m)
    ensures Bounded(ChargeOne(m, key, now)) && Live(ChargeOne(m, key, now), now) == ChargeOne(Live(m, now), key, now)
    ensures Over(ChargeOne(m, key, now), key) <==> Over(ChargeOne(Live(m, now), key, now), key)
  {
    var g := Get(m, key, now);
    GetLive(m, key, now);
    SameGot(m, key, now);
    if Has(g, key) {
      GotIsLive(m, key, now);
      LiveUpdated(g, key, g[key].(count := g[key].count + 1), now);
      assert ChargeOne(m, key, now).Keys == g.Keys;
    }
  }

  lemma {:induction false} ChargeLive(m: Buckets, keys: seq<string>, now: int, locked: bool)
    requires Bounded(m)
    ensures var a, b := Charge(m, keys, now, locked), Charge(Live(m, now), keys, now, locked);
      Bounded(a.m) && a.locked == b.locked && Live(a.m, now) == Live(b.m, now)
    decreases |keys|
  {
    LiveTwice(m, now, now);
    if keys != [] {
      var c := ChargeOne(m, keys[0], now);
      ChargeOneLive(m, keys[0], now);
      ChargeLive(c, keys[1..], now, locked || Over(c, keys[0]));
    }
  }

  lemma FailOneLive(m: Buckets, key: string, now: int)
    requires Bounded(m)
    ensures Bounded(FailOne(m, key, now)) && Live(FailOne(m, key, now), now) == FailOne(Live(m, now), key, now)
  {
    var g := Get(m, key, now);
    GetLive(m, key, now);
    SameGot(m, key, now);
    if Has(g, key) {
      GotIsLive(m, key, now);
      LiveUpdated(g, key, FailOne(m, key, now)[key], now);
      assert FailOne(m, key, now).Keys == g.Keys;
    }
  }

  lemma {:induction false} FailureLive(m: Buckets, keys: seq<string>, now: int)
    requires Bounded(m)
    ensures Bounded(Failure(m, keys, now)) &&
      Live(Failure(m, keys, now), now) == Live(Failure(Live(m, now), keys, now), now)
    decreases |keys|
  {
    LiveTwice(m, now, now);
    if keys != [] {
      FailOneLive(m, keys[0], now);
      FailureLive(FailOne(m, keys[0], now), keys[1..], now);
    }
  }

  lemma ResetOneLive(m: Buckets, key: string, now: int)
    requires now > 0 && Bounded(m)
    ensures Bounded(ResetOne(m, key)) && Live(ResetOne(m, key), now) == Live(ResetOne(Live(m, now), key), now)
  {
    assert ResetOne(m, key).Keys == m.Keys;
  }

  lemma {:induction false} ResetLive(m: Buckets, keys: seq<string>, now: int)
    requires now > 0 && Bounded(m)
    ensures Bounded(Reset(m, keys)) && Live(Reset(m, keys), now) == Live(Reset(Live(m, now), keys), now)
    decreases |keys|
  {
    LiveTwice(m, now, now);
    if keys != [] {
      ResetOneLive(m, keys[0], now);
      ResetLive(ResetOne(m, keys[0]), keys[1..], now);
      LiveSmaller(m, now);
      ResetOneLive(Live(m, now), keys[0], now);
      ResetLive(ResetOne(Live(m, now), keys[0]), keys[1..], now);
    }
  }

  // ---------------------------------------------------------------- runs

  /** A request, a failed login, a successful login, or a pass of the cleaner. */
  datatype Event =
    | Ask(keys: seq<string>, now: int)
    | Fail(keys: seq<string>, now: int)
    | Succeed(keys: seq<string>, now: int)
    | Clean(now: int)

  function After(m: Buckets, e: Event): Buckets {
    match e
    case Ask(keys, now) => Request(m, keys, now).m
    case Fail(keys, now) => Failure(m, keys, now)
    case Succeed(keys, _) => Reset(m, keys)
    case Clean(now) => Live(m, now)
  }

  /** The clock never goes back. */
  predicate Ordered(events: seq<Event>, from: int) {
    events == [] || (from <= events[0].now && Ordered(events[1..], events[0].now))
  }

  /** The verdicts of the requests of a run: whether each was refused. */
  function Verdicts(m: Buckets, events: seq<Event>): seq<bool>
    decreases |events|
  {
    if events == [] then []
    else
      (if events[0].Ask? then [Request(m, events[0].keys, events[0].now).locked] else []) +
      Verdicts(After(m, events[0]), events[1..])
  }

  function WithoutCleaning(events: seq<Event>): seq<Event> {
    if events == [] then []
    else (if events[0].Clean? then [] else [events[0]]) + WithoutCleaning(events[1..])
  }

  lemma RequestLive(m: Buckets, keys: seq<string>, now: int)
    requires Bounded(m)
    ensures var a, b := Request(m, keys, now), Request(Live(m, now), keys, now);
      Bounded(a.m) && a.locked == b.locked && Live(a.m, now) == Live(b.m, now)
  {
    var s, t := Scan(m, keys, now), Scan(Live(m, now), keys, now);
    ScanLive(m, keys, now);
    if !s.locked {
      ChargeLive(s.m, keys, now, false);
      LiveSmaller(m, now);
      LiveTwice(m, now, now);
      ScanLive(Live(m, now), keys, now);
      ChargeLive(t.m, keys, now, false);
    }
  }

  lemma AfterLive(m: Buckets, e: Event)
    requires Bounded(m) && e.now > 0
    ensures Bounded(After(m, e)) && Live(After(m, e), e.now) == Live(After(Live(m, e.now), e), e.now)
  {
    LiveTwice(m, e.now, e.now);
    LiveSmaller(m, e.now);
    match e
    case Ask(keys, now) => RequestLive(m, keys, now);
    case Fail(keys, now) => FailureLive(m, keys, now);
    case Succeed(keys, now) => ResetLive(m, keys, now);
    case Clean(now) =>
  }

  /** Two maps that differ only by stale buckets take any event alike. */
  lemma AlikeAfter(m: Buckets, n: Buckets, from: int, e: Event)
    requires Bounded(m) && Bounded(n) && Live(m, from) == Live(n, from) && 0 < from <= e.now
    ensures Bounded(After(m, e)) && Bounded(After(n, e)) && Live(After(m, e), e.now) == Live(After(n, e), e.now)
    ensures e.Ask? ==> Request(m, e.keys, e.now).locked == Request(n, e.keys, e.now).locked
    ensures Live(m, e.now) == Live(n, e.now)
  {
    LiveTwice(m, from, e.now);
    LiveTwice(n, from, e.now);
    AfterLive(m, e);
    AfterLive(n, e);
    if e.Ask? {
      RequestLive(m, e.keys, e.now);
      RequestLive(n, e.keys, e.now);
    }
  }

  /** Leaving out every pass of the cleaner changes no verdict. */
  lemma {:induction false} CleaningInvisible(m: Buckets, n: Buckets, from: int, events: seq<Event>)
    requires Bounded(m) && Bounded(n) && Live(m, from) == Live(n, from) && 0 < from && Ordered(events, from)
    ensures Verdicts(m, events) == Verdicts(n, WithoutCleaning(events))
    decreases |events|
  {
    if events != [] {
      var e := events[0];
      AlikeAfter(m, n, from, e);
      if e.Clean? {
        LiveTwice(m, e.now, e.now);
        CleaningInvisible(After(m, e), n, e.now, events[1..]);
        assert [] + WithoutCleaning(events[1..]) == WithoutCleaning(events[1..]);
      } else {
        CleaningInvisible(After(m, e), After(n, e), e.now, events[1..]);
        var rest := WithoutCleaning(events[1..]);
        assert WithoutCleaning(events)[1..] == rest;
      }
    }
  }

  // ---------------------------------------------------------------- a lock holds

  predicate LockedTo(m: Buckets, key: string, until: int) {
    Has(m, key) && m[key].lockedUntil >= until
  }

  /** Nothing about another key removes a locked bucket. */
  lemma GetKeepsLock(m: Buckets, key: string, until: int, k: string, now: int)
    requires LockedTo(m, key, until) && now < until
    ensures LockedTo(Get(m, k, now), key, until)
  {
  }

  lemma {:induction false} ScanLocked(m: Buckets, keys: seq<string>, now: int, key: string, until: int)
    requires LockedTo(m, key, until) && now < until
    ensures LockedTo(Scan(m, keys, now).m, key, until)
    ensures key in keys ==> Scan(m, keys, now).locked
    decreases |keys|
  {
    if keys != [] {
      GetKeepsLock(m, key, until, keys[0], now);
      ScanLocked(Get(m, keys[0], now), keys[1..], now, key, until);
    }
  }

  lemma {:induction false} ChargeKeepsLock(
      m: Buckets, keys: seq<string>, now: int, locked: bool, key: string, until: int)
    requires LockedTo(m, key, until) && now < until
    ensures LockedTo(Charge(m, keys, now, locked).m, key, until)
    decreases |keys|
  {
    if keys != [] {
      GetKeepsLock(m, key, until, keys[0], now);
      var c := ChargeOne(m, keys[0], now);
      ChargeKeepsLock(c, keys[1..], now, locked || Over(c, keys[0]), key, until);
    }
  }

  lemma {:induction false} FailureKeepsLock(m: Buckets, keys: seq<string>, now: int, key: string, until: int)
    requires LockedTo(m, key, until) && now < until <= now + LOCKOUT
    ensures LockedTo(Failure(m, keys, now), key, until)
    decreases |keys|
  {
    if keys != [] {
      GetKeepsLock(m, key, until, keys[0], now);
      FailureKeepsLock(FailOne(m, keys[0], now), keys[1..], now, key, until);
    }
  }

  lemma {:induction false} ResetKeepsLock(m: Buckets, keys: seq<string>, key: string, until: int)
    requires LockedTo(m, key, until) && (key !in keys || key == "global")
    ensures LockedTo(Reset(m, keys), key, until)
    decreases |keys|
  {
    if keys != [] { ResetKeepsLock(ResetOne(m, keys[0]), keys[1..], key, until); }
  }

  /** No login succeeds for the key; the shared bucket is not reset by one. */
  predicate NotReset(e: Event, key: string) {
    e.Succeed? ==> key !in e.keys || key == "global"
  }

  /** Every request for the key among the events is refused. */
  predicate AllRefused(m: Buckets, events: seq<Event>, key: string)
    decreases |events|
  {
    events != [] ==>
      (events[0].Ask? && key in events[0].keys ==> Request(m, events[0].keys, events[0].now).locked) &&
      AllRefused(After(m, events[0]), events[1..], key)
  }

  lemma LockKept(m: Buckets, e: Event, key: string, until: int)
    requires LockedTo(m, key, until) && e.now < until <= e.now + LOCKOUT && NotReset(e, key)
    ensures LockedTo(After(m, e), key, until)
    ensures e.Ask? && key in e.keys ==> Request(m, e.keys, e.now).locked
  {
    match e
    case Ask(keys, now) =>
      ScanLocked(m, keys, now, key, until);
      if !Scan(m, keys, now).locked { ChargeKeepsLock(Scan(m, keys, now).m, keys, now, false, key, until); }
    case Fail(keys, now) => FailureKeepsLock(m, keys, now, key, until);
    case Succeed(keys, now) => ResetKeepsLock(m, keys, key, until);
    case Clean(now) =>
  }

  /** A key locked at `from` refuses every request before `from` + 15 minutes, unless a login for it succeeds. */
  lemma {:induction false} LockHolds(m: Buckets, events: seq<Event>, key: string, from: int, until: int)
    requires LockedTo(m, key, until) && until <= from + LOCKOUT && Ordered(events, from)
    requires forall i | 0 <= i < |events| :: events[i].now < until && NotReset(events[i], key)
    ensures AllRefused(m, events, key)
    decreases |events|
  {
    if events != [] {
      LockKept(m, events[0], key, until);
      LockHolds(After(m, events[0]), events[1..], key, events[0].now, until);
    }
  }

  /** The failure that reaches the limit locks for 15 minutes. */
  lemma LockingFailure(m: Buckets, key: string, now: int)
    requires Has(Get(m, key, now), key) && Get(m, key, now)[key].failCount + 1 >= LimitOf(key)
    ensures LockedTo(FailOne(m, key, now), key, now + LOCKOUT)
  {
  }

  /** The failures that the bucket of the key has counted towards a lock, as the next failure finds them. */
  function FailuresAt(m: Buckets, key: string, now: int): int {
    if Has(m, key) then Refreshed(m[key], now).failCount else 0
  }

  lemma {:induction false} FailureLocks(m: Buckets, keys: seq<string>, key: string, now: int)
    requires key in keys && Has(m, key) && FailuresAt(m, key, now) + 1 >= LimitOf(key)
    ensures LockedTo(Failure(m, keys, now), key, now + LOCKOUT)
    decreases |keys|
  {
    var after := FailOne(m, keys[0], now);
    if keys[0] == key {
      LockingFailure(m, key, now);
      FailureKeepsLock(after, keys[1..], now, key, now + LOCKOUT);
    } else if Stale(m[key], now) {
      StaleHasNoFailures(m, key, now);
    } else {
      GetKeepsBucket(m, keys[0], key, now);
      FailureLocks(after, keys[1..], key, now);
    }
  }

  lemma StaleHasNoFailures(m: Buckets, key: string, now: int)
    requires Has(m, key) && Stale(m[key], now)
    ensures FailuresAt(m, key, now) + 1 < LimitOf(key)
  {
  }

  /** Handing out another bucket leaves one that is in use as it is. */
  lemma GetKeepsBucket(m: Buckets, k: string, key: string, now: int)
    requires Has(m, key) && !Stale(m[key], now) && k != key
    ensures Has(FailOne(m, k, now), key) && FailOne(m, k, now)[key] == m[key]
  {
  }

  /**
  The failed login that reaches the limit of one of its keys shuts out that key: every request for it before 15 minutes
  are over is refused, whatever else happens, unless a login for it succeeds.
  */
  lemma FailureShutsOut(m: Buckets, keys: seq<string>, key: string, now: int, events: seq<Event>)
    requires key in keys && Has(m, key) && FailuresAt(m, key, now) + 1 >= LimitOf(key)
    requires Ordered(events, now)
    requires forall i | 0 <= i < |events| :: events[i].now < now + LOCKOUT && NotReset(events[i], key)
    ensures AllRefused(After(m, Fail(keys, now)), events, key)
  {
    FailureLocks(m, keys, key, now);
    LockHolds(Failure(m, keys, now), events, key, now, now + LOCKOUT);
  }

  // ---------------------------------------------------------------- rates

  /** An admitted request that was charged to the key, with the window it was counted in. */
  datatype Entry = Entry(time: int, window: int)

  /** Admissions a limit apart in the list were counted in different windows. */
  predicate Spread(log: seq<Entry>, limit: nat) {
    (forall i | 0 <= i < |log| :: 0 <= log[i].time - log[i].window <= WINDOW) &&
    forall i | 0 <= i < |log| - limit :: log[i].window + WINDOW < log[i + limit].window
  }

  /** Any span of one minute holds at most twice the limit. */
  lemma SpreadMeans(log: seq<Entry>, limit: nat, i: nat)
    requires Spread(log, limit) && i + 2 * limit < |log|
    ensures log[i + 2 * limit].time - log[i].time > WINDOW
  {
    assert log[i].window + WINDOW < log[i + limit].window;
    assert log[i + limit].window + WINDOW < log[i + limit + limit].window;
  }

  /**
  Only the last `count - slack` admissions can belong to the present window; without a bucket all windows are over.
  */
  predicate RateInv(m: Buckets, key: string, log: seq<Entry>, now: int, slack: nat) {
    if Has(m, key) then
      var b := m[key];
      b.windowStart <= now && slack <= b.count &&
      (forall i | 0 <= i < |log| :: log[i].window <= b.windowStart) &&
      forall i | 0 <= i < |log| - b.count + slack :: i < |log| ==> log[i].window + WINDOW < b.windowStart
    else
      forall i | 0 <= i < |log| :: log[i].window + WINDOW < now
  }

  lemma RateLater(m: Buckets, key: string, log: seq<Entry>, from: int, now: int, slack: nat)
    requires RateInv(m, key, log, from, slack) && from <= now
    ensures RateInv(m, key, log, now, slack)
  {
  }

  lemma RateLive(m: Buckets, key: string, log: seq<Entry>, now: int)
    requires RateInv(m, key, log, now, 0)
    ensures RateInv(Live(m, now), key, log, now, 0)
  {
  }

  lemma RateGet(m: Buckets, key: string, log: seq<Entry>, now: int, k: string)
    requires RateInv(m, key, log, now, 0)
    ensures RateInv(Get(m, k, now), key, log, now, 0)
  {
    RateLive(m, key, log, now);
  }

  lemma {:induction false} ScanRate(m: Buckets, keys: seq<string>, now: int, key: string, log: seq<Entry>)
    requires RateInv(m, key, log, now, 0)
    ensures RateInv(Scan(m, keys, now).m, key, log, now, 0)
    decreases |keys|
  {
    if keys != [] {
      RateGet(m, key, log, now, keys[0]);
      ScanRate(Get(m, keys[0], now), keys[1..], now, key, log);
    }
  }

  /** The key has been charged by the request at hand. */
  predicate JustCharged(m: Buckets, key: string, log: seq<Entry>, now: int, locked: bool) {
    Has(m, key) && RateInv(m, key, log, now, 1) && now - m[key].windowStart <= WINDOW &&
    (!locked ==> m[key].count <= LimitOf(key))
  }

  lemma ChargeOther(m: Buckets, key: string, log: seq<Entry>, now: int, locked: bool, k: string)
    requires k != key && RateInv(m, key, log, now, 0)
    ensures RateInv(ChargeOne(m, k, now), key, log, now, 0)
    ensures JustCharged(m, key, log, now, locked) ==> JustCharged(ChargeOne(m, k, now), key, log, now, locked)
    ensures Has(ChargeOne(m, k, now), key) ==> Has(m, key)
  {
    RateGet(m, key, log, now, k);
  }

  lemma ChargeSame(m: Buckets, key: string, log: seq<Entry>, now: int, locked: bool)
    requires RateInv(m, key, log, now, 0)
    ensures var c := ChargeOne(m, key, now);
      RateInv(c, key, log, now, 0) && (Has(c, key) ==> JustCharged(c, key, log, now, locked || Over(c, key)))
  {
    RateGet(m, key, log, now, key);
  }

  lemma {:induction false} ChargeRate(
      m: Buckets, keys: seq<string>, now: int, locked: bool, key: string, log: seq<Entry>)
    requires RateInv(m, key, log, now, 0)
    ensures var a := Charge(m, keys, now, locked);
      RateInv(a.m, key, log, now, 0) &&
      (JustCharged(m, key, log, now, locked) || (key in keys && Has(a.m, key)) ==>
        JustCharged(a.m, key, log, now, a.locked)) &&
      (key !in keys && Has(a.m, key) ==> Has(m, key))
    decreases |keys|
  {
    if keys != [] {
      var c := ChargeOne(m, keys[0], now);
      var over := locked || Over(c, keys[0]);
      if keys[0] == key {
        ChargeSame(m, key, log, now, locked);
        ChargeRate(c, keys[1..], now, over, key, log);
      } else {
        ChargeOther(m, key, log, now, over, keys[0]);
        ChargeRate(c, keys[1..], now, over, key, log);
      }
    }
  }

  lemma AppendKeepsRate(m: Buckets, key: string, log: seq<Entry>, now: int)
    requires JustCharged(m, key, log, now, false) && Spread(log, LimitOf(key))
    ensures var longer := log + [Entry(now, m[key].windowStart)];
      Spread(longer, LimitOf(key)) && RateInv(m, key, longer, now, 0)
  {
    var limit := LimitOf(key);
    var longer := log + [Entry(now, m[key].windowStart)];
    forall i | 0 <= i < |longer| - limit ensures longer[i].window + WINDOW < longer[i + limit].window {
      if i + limit == |log| {
        assert log[i].window + WINDOW < m[key].windowStart;
      } else {
        assert log[i].window + WINDOW < log[i + limit].window;
      }
    }
  }

  /** The admissions of the key, with one more event. */
  function Logged(m: Buckets, key: string, log: seq<Entry>, e: Event): seq<Entry> {
    if e.Ask? && key in e.keys && !Request(m, e.keys, e.now).locked && Has(After(m, e), key)
    then log + [Entry(e.now, After(m, e)[key].windowStart)]
    else log
  }

  lemma RequestRate(m: Buckets, key: string, log: seq<Entry>, keys: seq<string>, now: int)
    requires RateInv(m, key, log, now, 0)
    ensures var a := Request(m, keys, now);
      RateInv(a.m, key, log, now, 0) &&
      (!a.locked && key in keys && Has(a.m, key) ==> JustCharged(a.m, key, log, now, false))
  {
    ScanRate(m, keys, now, key, log);
    if !Scan(m, keys, now).locked { ChargeRate(Scan(m, keys, now).m, keys, now, false, key, log); }
  }

  lemma {:induction false} FailureRate(m: Buckets, keys: seq<string>, now: int, key: string, log: seq<Entry>)
    requires RateInv(m, key, log, now, 0)
    ensures RateInv(Failure(m, keys, now), key, log, now, 0)
    decreases |keys|
  {
    if keys != [] {
      RateGet(m, key, log, now, keys[0]);
      FailureRate(FailOne(m, keys[0], now), keys[1..], now, key, log);
    }
  }

  lemma {:induction false} ResetRate(m: Buckets, keys: seq<string>, now: int, key: string, log: seq<Entry>)
    requires RateInv(m, key, log, now, 0)
    ensures RateInv(Reset(m, keys), key, log, now, 0)
    decreases |keys|
  {
    if keys != [] { ResetRate(ResetOne(m, keys[0]), keys[1..], now, key, log); }
  }

  lemma EventRate(m: Buckets, key: string, log: seq<Entry>, e: Event, from: int)
    requires RateInv(m, key, log, from, 0) && Spread(log, LimitOf(key)) && from <= e.now
    ensures RateInv(After(m, e), key, Logged(m, key, log, e), e.now, 0) && Spread(Logged(m, key, log, e), LimitOf(key))
  {
    RateLater(m, key, log, from, e.now, 0);
    match e
    case Ask(keys, now) =>
      RequestRate(m, key, log, keys, now);
      if Logged(m, key, log, e) != log { AppendKeepsRate(After(m, e), key, log, now); }
    case Fail(keys, now) => FailureRate(m, keys, now, key, log);
    case Succeed(keys, now) => ResetRate(m, keys, now, key, log);
    case Clean(now) => RateLive(m, key, log, now);
  }

  /** All admissions of a run that were charged to the key. */
  function RunLog(m: Buckets, key: string, log: seq<Entry>, events: seq<Event>): seq<Entry>
    decreases |events|
  {
    if events == [] then log else RunLog(After(m, events[0]), key, Logged(m, key, log, events[0]), events[1..])
  }

  lemma {:induction false} RunRate(m: Buckets, key: string, log: seq<Entry>, events: seq<Event>, from: int)
    requires RateInv(m, key, log, from, 0) && Spread(log, LimitOf(key)) && Ordered(events, from)
    ensures Spread(RunLog(m, key, log, events), LimitOf(key))
    decreases |events|
  {
    if events != [] {
      EventRate(m, key, log, events[0], from);
      RunRate(After(m, events[0]), key, Logged(m, key, log, events[0]), events[1..], events[0].now);
    }
  }

  /**
  Over every run from an empty map: of any 2 L + 1 admissions charged to a key in a row, the last is more than a
  minute after the first.
  */
  lemma RateBounded(events: seq<Event>, key: string, from: int, i: nat)
    requires Ordered(events, from)
    ensures var log := RunLog(map[], key, [], events); var limit := LimitOf(key);
      i + 2 * limit < |log| ==> log[i + 2 * limit].time - log[i].time > WINDOW
  {
    RunRate(map[], key, [], events, from);
    var log := RunLog(map[], key, [], events);
    if i + 2 * LimitOf(key) < |log| { SpreadMeans(log, LimitOf(key), i); }
  }

  // ---------------------------------------------------------------- every admission is charged while there is room

  predicate Held(m: Buckets, key: string, now: int) {
    Has(m, key) && !Stale(m[key], now)
  }

  lemma GetHeld(m: Buckets, k: string, key: string, now: int)
    ensures Held(m, key, now) ==> Held(Get(m, k, now), key, now)
    ensures |m| < MAX_BUCKETS && k != "" ==> Held(Get(m, k, now), k, now)
    ensures |m| < MAX_BUCKETS ==> |Get(m, k, now)| <= |m| + 1
  {
    if key == k && key in m { RefreshedIsLive(m[key], now); }
    if k in m {
      RefreshedIsLive(m[k], now);
      assert m[k := Refreshed(m[k], now)].Keys == m.Keys;
    } else {
      assert m[k := NewBucket(now)].Keys == m.Keys + {k};
    }
  }

  /** A scan that finds no lock leaves a bucket for each key, if there is room for all of them. */
  lemma {:induction false} ScanHeld(m: Buckets, keys: seq<string>, now: int, key: string)
    requires |m| + |keys| <= MAX_BUCKETS && key != "" && !Scan(m, keys, now).locked
    ensures Held(m, key, now) || key in keys ==> Held(Scan(m, keys, now).m, key, now)
    decreases |keys|
  {
    if keys != [] {
      GetHeld(m, keys[0], key, now);
      ScanHeld(Get(m, keys[0], now), keys[1..], now, key);
    }
  }

  lemma {:induction false} ChargeHeld(m: Buckets, keys: seq<string>, now: int, locked: bool, key: string)
    requires Held(m, key, now)
    ensures Held(Charge(m, keys, now, locked).m, key, now)
    decreases |keys|
  {
    if keys != [] {
      GetHeld(m, keys[0], key, now);
      var c := ChargeOne(m, keys[0], now);
      ChargeHeld(c, keys[1..], now, locked || Over(c, keys[0]), key);
    }
  }

  /** There is room for all keys of the request, once stale buckets are gone. */
  predicate Room(m: Buckets, e: Event)
    requires e.Ask?
  {
    |Live(m, e.now)| + |e.keys| <= MAX_BUCKETS
  }

  /** While there is room, a request that is admitted has been charged to each of its keys. */
  lemma AdmittedIsCharged(m: Buckets, e: Event, key: string)
    requires e.Ask? && Bounded(m) && Room(m, e) && key in e.keys && key != ""
    requires !Request(m, e.keys, e.now).locked
    ensures Has(After(m, e), key)
  {
    var l := Live(m, e.now);
    RequestLive(m, e.keys, e.now);
    ScanHeld(l, e.keys, e.now, key);
    ChargeHeld(Scan(l, e.keys, e.now).m, e.keys, e.now, false, key);
    assert key in Live(Request(l, e.keys, e.now).m, e.now);
  }

  predicate Admits(m: Buckets, key: string, e: Event) {
    e.Ask? && key in e.keys && !Request(m, e.keys, e.now).locked
  }

  /** The times of all admissions of the key, charged or not. */
  function Admissions(m: Buckets, key: string, events: seq<Event>): seq<int>
    decreases |events|
  {
    if events == [] then []
    else (if Admits(m, key, events[0]) then [events[0].now] else []) + Admissions(After(m, events[0]), key, events[1..])
  }

  /** Every request for the key finds room. */
  predicate Roomy(m: Buckets, key: string, events: seq<Event>)
    decreases |events|
  {
    events == [] ||
    ((events[0].Ask? && key in events[0].keys ==> Room(m, events[0])) && Roomy(After(m, events[0]), key, events[1..]))
  }

  function Times(log: seq<Entry>): seq<int> {
    seq(|log|, i requires 0 <= i < |log| => log[i].time)
  }

  lemma {:induction false} LogIsAdmissions(m: Buckets, key: string, log: seq<Entry>, events: seq<Event>, from: int)
    requires Bounded(m) && 0 < from && Ordered(events, from) && Roomy(m, key, events) && key != ""
    ensures Times(RunLog(m, key, log, events)) == Times(log) + Admissions(m, key, events)
    decreases |events|
  {
    if events != [] {
      var e := events[0];
      AfterLive(m, e);
      if Admits(m, key, e) { AdmittedIsCharged(m, e, key); }
      LogIsAdmissions(After(m, e), key, Logged(m, key, log, e), events[1..], e.now);
    }
  }

  /** Any 2 L + 1 of them in a row take more than a minute. */
  predicate Paced(times: seq<int>, limit: nat) {
    forall i: nat | i + 2 * limit < |times| :: times[i + 2 * limit] - times[i] > WINDOW
  }

  lemma SpreadIsPaced(log: seq<Entry>, limit: nat)
    requires Spread(log, limit)
    ensures Paced(Times(log), limit)
  {
    forall i: nat | i + 2 * limit < |log| ensures Times(log)[i + 2 * limit] - Times(log)[i] > WINDOW {
      SpreadMeans(log, limit, i);
    }
  }

  /** While there is room, no minute has more than twice the limit of admissions of a key. */
  lemma AdmissionsBounded(events: seq<Event>, key: string, from: int)
    requires 0 < from && Ordered(events, from) && Roomy(map[], key, events) && key != ""
    ensures Paced(Admissions(map[], key, events), LimitOf(key))
  {
    LogIsAdmissions(map[], key, [], events, from);
    assert Times([]) + Admissions(map[], key, events) == Admissions(map[], key, events);
    RunRate(map[], key, [], events, from);
    SpreadIsPaced(RunLog(map[], key, [], events), LimitOf(key));
  }
}
