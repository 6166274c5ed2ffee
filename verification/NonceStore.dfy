/**
The replay store of signed requests: a bounded map from nonces to the time they expire, consulted under a lock after
the signature has been found valid. Times are whole seconds.
*/
module NonceStore {
  import opened Results
  import opened Strings

  const NONCE_TTL: int := 600
  const MAX_NONCE_LENGTH: nat := 128
  const MAX_NONCES: nat := 100_000

  function EffectiveSkew(maxSkew: int): int {
    if maxSkew <= 0 then 300 else maxSkew
  }

  function TtlForSkew(maxSkew: int): int {
    if maxSkew > 0 && maxSkew > NONCE_TTL then maxSkew + 60 else NONCE_TTL
  }

  /** The bytes of a code point in UTF-8. */
  function CharBytes(c: char): nat {
    if c < '\U{80}' then 1 else if c < '\U{800}' then 2 else if c < '\U{10000}' then 3 else 4
  }

  /** What `len` counts. */
  function ByteLength(s: string): nat {
    if s == "" then 0 else CharBytes(s[0]) + ByteLength(s[1..])
  }

  // ---------------------------------------------------------------- the header

  /** What a part of the header sets; the later of two parts of the same kind wins. */
  datatype Parsed = Parsed(ts: string, nonce: string, sig: string)

  function TakePart(p: Parsed, part: string): Parsed {
    var t := TrimSpace(part);
    if "t=" <= t then p.(ts := t[2..])
    else if "n=" <= t then p.(nonce := t[2..])
    else if "v1=" <= t then p.(sig := t[3..])
    else p
  }

  function TakeParts(p: Parsed, parts: seq<string>): Parsed {
    if parts == [] then p else TakePart(TakeParts(p, parts[..|parts| - 1]), parts[|parts| - 1])
  }

  function ParseHeader(h: string): Option<Parsed> {
    var p := TakeParts(Parsed("", "", ""), Split(h, ','));
    if p.ts == "" || p.nonce == "" || p.sig == "" then None else Some(p)
  }

  method ParseSwmSigHeader(h: string) returns (r: Option<Parsed>)
    ensures r == ParseHeader(h)
  {
    var p := Parsed("", "", "");
    var parts := Split(h, ',');
    for i := 0 to |parts|
      invariant p == TakeParts(Parsed("", "", ""), parts[..i])
    {
      assert parts[..i + 1][..i] == parts[..i];
      var t := TrimSpace(parts[i]);
      if "t=" <= t { p := p.(ts := t[2..]); }
      else if "n=" <= t { p := p.(nonce := t[2..]); }
      else if "v1=" <= t { p := p.(sig := t[3..]); }
    }
    assert parts[..|parts|] == parts;
    return if p.ts == "" || p.nonce == "" || p.sig == "" then None else Some(p);
  }

  // ---------------------------------------------------------------- the store

  type Nonces = map<string, int>

  datatype Verdict =
    | Accepted
    | MissingSecret | MissingSignature | BadHeaderFormat | BadTimestamp | StaleTimestamp | BadSignature
    | NonceStoreFull | ReplayedNonce

  function Unexpired(m: Nonces, now: int): Nonces {
    map n | n in m && m[n] > now :: m[n]
  }

  /** What happens under the lock, at the time `now`. */
  function Consume(m: Nonces, nonce: string, expiry: int, now: int): (Verdict, Nonces) {
    var p := if |m| >= MAX_NONCES then Unexpired(m, now) else m;
    if |p| >= MAX_NONCES then (NonceStoreFull, p)
    else if nonce in p then (ReplayedNonce, p)
    else (Accepted, p[nonce := expiry])
  }

  /** A request as the check sees it: its header, and the signature that its other parts call for. */
  datatype Request = Request(header: string, expected: (string, string) -> string)

  /** The number that a timestamp text stands for, if it is one. */
  datatype Library = Library(parseInt: string -> Option<int>)

  const MIN_INT64: int := -0x8000_0000_0000_0000
  const MAX_INT64: int := 0x7fff_ffff_ffff_ffff

  /** The difference of two 64-bit integers, as 64-bit arithmetic has it. */
  function Minus64(a: int, b: int): int {
    if a - b > MAX_INT64 then a - b - 0x1_0000_0000_0000_0000
    else if a - b < MIN_INT64 then a - b + 0x1_0000_0000_0000_0000
    else a - b
  }

  /** `abs64`: the least integer is its own negative. */
  function Abs64(x: int): int {
    if x < 0 && x != MIN_INT64 then -x else x
  }

  /** The time check of the source, on two 64-bit times. */
  predicate Near(now: int, ts: int, skew: int) {
    Abs64(Minus64(now, ts)) <= skew
  }

  /** Times that a clock shows: not negative, and below 2 to the 62. */
  predicate ClockTime(t: int) {
    0 <= t < 0x4000_0000_0000_0000
  }

  /** What the time check lets through: timestamps within the skew, and one in the far past. */
  lemma NearExact(now: int, ts: int, skew: int)
    requires ClockTime(now) && MIN_INT64 <= ts <= MAX_INT64 && 0 <= skew < 0x4000_0000_0000_0000
    ensures Near(now, ts, skew) <==> -skew <= now - ts <= skew || ts == now + MIN_INT64
  {
  }

  /** The checks before the lock, at the time `now`: the verdict, or what the header holds. */
  function CheckFirst(lib: Library, r: Request, hasSecret: bool, maxSkew: int, now: int): Result<Parsed, Verdict> {
    if !hasSecret then Err(MissingSecret)
    else if r.header == "" then Err(MissingSignature)
    else match ParseHeader(r.header)
      case None => Err(BadHeaderFormat)
      case Some(p) =>
        match lib.parseInt(p.ts)
        case None => Err(BadTimestamp)
        case Some(ts) =>
          if !Near(now, ts, EffectiveSkew(maxSkew)) then Err(StaleTimestamp)
          else if ByteLength(p.nonce) == 0 || ByteLength(p.nonce) > MAX_NONCE_LENGTH then Err(BadHeaderFormat)
          else if r.expected(p.ts, p.nonce) != p.sig then Err(BadSignature)
          else Ok(p)
  }

  class Store {
    var nonces: Nonces
    var nonceCount: int

    ghost predicate Valid()
      reads this
    {
      nonceCount == |nonces| <= MAX_NONCES
    }

    constructor ()
      ensures Valid() && nonces == map[]
    {
      nonces, nonceCount := map[], 0;
    }

    /** A pass of the cleaner, in any order; a full store does the same. */
    method Clean(now: int)
      requires Valid()
      modifies this
      ensures Valid() && nonces == Unexpired(old(nonces), now)
    {
      ghost var was := nonces;
      var todo := nonces.Keys;
      while todo != {}
        invariant todo <= was.Keys && Valid()
        invariant nonces == map n | n in was && (n in todo || was[n] > now) :: was[n]
      {
        var k :| k in todo;
        if nonces[k] <= now {
          assert (nonces - {k}).Keys == nonces.Keys - {k};
          nonces := nonces - {k};
          nonceCount := nonceCount - 1;
        }
        todo := todo - {k};
      }
    }

    /** `now` is read before the signature is checked, `locked` once the lock is held. */
    method VerifySwmSignature(
        lib: Library, r: Request, hasSecret: bool, maxSkew: int, now: int, locked: int) returns (v: Verdict)
      requires Valid()
      modifies this
      ensures Valid()
      ensures match CheckFirst(lib, r, hasSecret, maxSkew, now)
        case Err(e) => v == e && nonces == old(nonces)
        case Ok(p) => (v, nonces) == Consume(old(nonces), p.nonce, now + TtlForSkew(EffectiveSkew(maxSkew)), locked)
    {
      if !hasSecret { return MissingSecret; }
      if r.header == "" { return MissingSignature; }
      var parsed := ParseSwmSigHeader(r.header);
      if parsed.None? { return BadHeaderFormat; }
      var p := parsed.value;
      var skew := if maxSkew <= 0 then 300 else maxSkew;
      var ts := lib.parseInt(p.ts);
      if ts.None? { return BadTimestamp; }
      if !Near(now, ts.value, skew) { return StaleTimestamp; }
      if ByteLength(p.nonce) == 0 || ByteLength(p.nonce) > MAX_NONCE_LENGTH { return BadHeaderFormat; }
      if r.expected(p.ts, p.nonce) != p.sig { return BadSignature; }
      v := Take(p.nonce, now + TtlForSkew(skew), locked);
    }

    /** The locked section. */
    method Take(nonce: string, expiry: int, now: int) returns (v: Verdict)
      requires Valid()
      modifies this
      ensures Valid() && (v, nonces) == Consume(old(nonces), nonce, expiry, now)
    {
      if nonceCount >= MAX_NONCES { Clean(now); }
      if nonceCount >= MAX_NONCES { return NonceStoreFull; }
      if nonce in nonces { return ReplayedNonce; }
      nonces := nonces[nonce := expiry];
      nonceCount := nonceCount + 1;
      return Accepted;
    }
  }

  // ---------------------------------------------------------------- runs

  /**
  A signed request that has come as far as the time check, or a pass of the cleaner. Both read the clock at `now`, and
  hold the lock at `locked`.
  */
  datatype Event = Arrive(ts: int, nonce: string, now: int, locked: int) | Sweep(now: int, locked: int)

  /** The clock never goes back, neither between locked steps nor within a request. */
  predicate Ordered(events: seq<Event>, from: int) {
    events == [] ||
    (from <= events[0].locked && events[0].now <= events[0].locked && Ordered(events[1..], events[0].locked))
  }

  function Expiry(skew: int, now: int): int {
    now + TtlForSkew(skew)
  }

  /** Whether the request is accepted, and the store after the event; `skew` is the effective one. */
  function Step(skew: int, m: Nonces, e: Event): (bool, Nonces) {
    match e
    case Sweep(now, _) => (false, Unexpired(m, now))
    case Arrive(ts, nonce, now, locked) =>
      if !Near(now, ts, skew) then (false, m)
      else
        var (v, after) := Consume(m, nonce, Expiry(skew, now), locked);
        (v == Accepted, after)
  }

  function Verdicts(skew: int, m: Nonces, events: seq<Event>): (r: seq<bool>)
    ensures |r| == |events|
    decreases |events|
  {
    if events == [] then [] else [Step(skew, m, events[0]).0] + Verdicts(skew, Step(skew, m, events[0]).1, events[1..])
  }

  /** A stored nonce stays, and is not accepted, until a step at or after its expiry. */
  lemma HeldBeforeExpiry(skew: int, m: Nonces, e: Event, nonce: string)
    requires nonce in m && e.now <= e.locked < m[nonce]
    ensures var (accepted, after) := Step(skew, m, e);
      nonce in after && after[nonce] == m[nonce] && (accepted ==> e.nonce != nonce)
  {
  }

  /** No nonce is accepted twice within its lifetime: a later acceptance takes the lock at or after the expiry. */
  lemma {:induction false} NotTwiceBeforeExpiry(
      skew: int, m: Nonces, events: seq<Event>, from: int, nonce: string, j: nat)
    requires nonce in m && Ordered(events, from) && j < |events|
    requires Verdicts(skew, m, events)[j] && events[j].Arrive? && events[j].nonce == nonce
    ensures events[j].locked >= m[nonce]
    decreases j
  {
    var e := events[0];
    if e.locked < m[nonce] {
      HeldBeforeExpiry(skew, m, e, nonce);
      if j > 0 { NotTwiceBeforeExpiry(skew, Step(skew, m, e).1, events[1..], e.locked, nonce, j - 1); }
    } else {
      LockedRises(events, from, j);
    }
  }

  lemma {:induction false} LockedRises(events: seq<Event>, from: int, j: nat)
    requires Ordered(events, from) && j < |events|
    ensures events[0].locked <= events[j].locked
    decreases j
  {
    if j > 0 { LockedRises(events[1..], events[0].locked, j - 1); }
  }

  /** The same timestamp and nonce, accepted at both places. */
  predicate Replay(skew: int, m: Nonces, events: seq<Event>, i: int, j: int)
    requires 0 <= i < j < |events|
  {
    Verdicts(skew, m, events)[i] && Verdicts(skew, m, events)[j] && events[i].Arrive? && events[j].Arrive? &&
    events[i].ts == events[j].ts && events[i].nonce == events[j].nonce
  }

  lemma AcceptedIsStored(skew: int, m: Nonces, e: Event)
    requires Step(skew, m, e).0
    ensures e.Arrive? && Near(e.now, e.ts, skew)
    ensures e.nonce in Step(skew, m, e).1 && Step(skew, m, e).1[e.nonce] == Expiry(skew, e.now)
  {
  }

  lemma {:induction false} AcceptedIsNear(skew: int, m: Nonces, events: seq<Event>, j: nat)
    requires j < |events| && Verdicts(skew, m, events)[j]
    ensures events[j].Arrive? && Near(events[j].now, events[j].ts, skew)
    decreases j
  {
    if j == 0 {
      AcceptedIsStored(skew, m, events[0]);
    } else {
      AcceptedIsNear(skew, Step(skew, m, events[0]).1, events[1..], j - 1);
    }
  }

  /** Clock times and 64-bit timestamps. */
  predicate Clocked(events: seq<Event>) {
    forall i | 0 <= i < |events| ::
      ClockTime(events[i].now) && ClockTime(events[i].locked) &&
      (events[i].Arrive? ==> MIN_INT64 <= events[i].ts <= MAX_INT64)
  }

  /** Skews whose nanoseconds fit into a duration. */
  predicate Configurable(skew: int) {
    0 < skew <= 9_223_372_036
  }

  /**
  A request that is accepted a second time has spent, between its time check and the lock, at least the time by which
  the lifetime of a nonce exceeds the span of valid timestamps.
  */
  lemma {:induction false} ReplayIsLate(skew: int, m: Nonces, events: seq<Event>, from: int, i: nat, j: nat)
    requires Ordered(events, from) && Clocked(events) && Configurable(skew)
    requires i < j < |events| && Replay(skew, m, events, i, j)
    ensures events[j].locked - events[j].now >= TtlForSkew(skew) - 2 * skew
    decreases i
  {
    var after := Step(skew, m, events[0]).1;
    if i > 0 {
      ReplayIsLate(skew, after, events[1..], events[0].locked, i - 1, j - 1);
    } else {
      AcceptedIsStored(skew, m, events[0]);
      AcceptedIsNear(skew, m, events, j);
      NearExact(events[0].now, events[0].ts, skew);
      NearExact(events[j].now, events[j].ts, skew);
      NotTwiceBeforeExpiry(skew, after, events[1..], events[0].locked, events[0].nonce, j - 1);
    }
  }

  /** No request spends more than `delay` seconds between its time check and the lock. */
  predicate Within(events: seq<Event>, delay: int) {
    forall i | 0 <= i < |events| && events[i].Arrive? :: events[i].locked - events[i].now <= delay
  }

  ghost predicate NeverReplayedWithin(skew: int, delay: int) {
    forall events, i, j | Ordered(events, 0) && Clocked(events) && Within(events, delay) && 0 <= i < j < |events| ::
      !Replay(skew, map[], events, i, j)
  }

  /**
  When a request sent as early as possible is sent again: as its nonce expires, its time checked as late as can be.
  */
  function CheckedAgain(skew: int): int {
    if 2 * skew < TtlForSkew(skew) then 2 * skew else TtlForSkew(skew)
  }

  /** Sent as early as possible, and once more when the cleaner has passed. */
  function Resent(skew: int): seq<Event> {
    [Arrive(skew, "n", 0, 0),
     Sweep(TtlForSkew(skew), TtlForSkew(skew)),
     Arrive(skew, "n", CheckedAgain(skew), TtlForSkew(skew))]
  }

  lemma ResentIsReplayed(skew: int)
    requires Configurable(skew)
    ensures Ordered(Resent(skew), 0) && Clocked(Resent(skew)) && Replay(skew, map[], Resent(skew), 0, 2)
  {
    var ttl, again := TtlForSkew(skew), CheckedAgain(skew);
    var e0, e1, e2 := Arrive(skew, "n", 0, 0), Sweep(ttl, ttl), Arrive(skew, "n", again, ttl);
    var m1: Nonces := map["n" := Expiry(skew, 0)];
    var tail1, tail2 := [e1, e2], [e2];
    assert Resent(skew)[1..] == tail1 && tail1[1..] == tail2 && tail2[1..] == [];
    assert Ordered(tail2, ttl) && Ordered(tail1, 0);
    NearExact(0, skew, skew);
    NearExact(again, skew, skew);
    assert Step(skew, map[], e0) == (true, m1);
    assert Step(skew, m1, e1) == (false, map[]);
    assert Step(skew, map[], e2).0;
    assert Verdicts(skew, map[], tail2)[0];
    assert Verdicts(skew, m1, tail1)[1];
  }

  /**
  No request with a fixed timestamp and nonce is ever accepted twice exactly when twice the skew and the longest delay
  between the time check and the lock together stay below the lifetime of a nonce.
  */
  lemma ReplayExact(skew: int, delay: int)
    requires Configurable(skew) && delay >= 0
    ensures NeverReplayedWithin(skew, delay) <==> 2 * skew + delay < TtlForSkew(skew)
  {
    if 2 * skew + delay < TtlForSkew(skew) {
      forall events, i, j | Ordered(events, 0) && Clocked(events) && Within(events, delay) && 0 <= i < j < |events|
        ensures !Replay(skew, map[], events, i, j)
      {
        if Replay(skew, map[], events, i, j) {
          AcceptedIsNear(skew, map[], events, j);
          ReplayIsLate(skew, map[], events, 0, i, j);
        }
      }
    } else {
      ResentIsReplayed(skew);
      assert Within(Resent(skew), delay);
    }
  }

  /**
  Of requests that all take the lock in the second of their time check, none is accepted twice exactly when the skew
  configured is from 1 to 299 seconds. The default of 300 is the first value for which one can be.
  */
  lemma ReplaySafetyExact(maxSkew: int)
    requires maxSkew <= 0 || Configurable(maxSkew)
    ensures NeverReplayedWithin(EffectiveSkew(maxSkew), 0) <==> 0 < maxSkew < 300
  {
    ReplayExact(EffectiveSkew(maxSkew), 0);
  }
}
