/**
The login limiter: windowed counters and lockouts per key in a bounded map from which stale buckets are removed.
Each operation is one locked step; times are nanoseconds after the zero time.
*/
module LoginLimiter {

  const SECOND: int := 1_000_000_000
  const WINDOW: int := 60 * SECOND
  const LOCKOUT: int := 900 * SECOND
  const MAX_BUCKETS: nat := 100_000

  datatype Bucket = Bucket(count: int, windowStart: int, failCount: int, lockedUntil: int)

  type Buckets = map<string, Bucket>

  function LimitOf(key: string): int {
    if key == "global" then 1000 else 5
  }

  function NewBucket(now: int): Bucket {
    Bucket(0, now, 0, 0)
  }

  // ---------------------------------------------------------------- the specification

  /** What the cleaner removes. */
  predicate Stale(b: Bucket, now: int) {
    now - b.windowStart > 2 * WINDOW && now > b.lockedUntil
  }

  function Live(m: Buckets, now: int): Buckets {
    map k | k in m && !Stale(m[k], now) :: m[k]
  }

  /** A bucket as it is handed out: a new window once the old one is over, without its lock if that is over too. */
  function Refreshed(b: Bucket, now: int): Bucket {
    if now - b.windowStart > WINDOW then
      if now >= b.lockedUntil then NewBucket(now) else b.(windowStart := now, count := 0)
    else b
  }

  /** The map after handing out the bucket of a key; there is none if the key is not in the result. */
  function Get(m: Buckets, key: string, now: int): Buckets {
    if key == "" then m
    else if key in m then m[key := Refreshed(m[key], now)]
    else
      var p := if |m| >= MAX_BUCKETS then Live(m, now) else m;
      if |p| >= MAX_BUCKETS then p else p[key := NewBucket(now)]
  }

  predicate Has(m: Buckets, key: string) {
    key != "" && key in m
  }

  datatype Answer = Answer(m: Buckets, locked: bool)

  function Scan(m: Buckets, keys: seq<string>, now: int): Answer
    decreases |keys|
  {
    if keys == [] then Answer(m, false)
    else
      var g := Get(m, keys[0], now);
      if Has(g, keys[0]) && now < g[keys[0]].lockedUntil then Answer(g, true) else Scan(g, keys[1..], now)
  }

  function ChargeOne(m: Buckets, key: string, now: int): Buckets {
    var g := Get(m, key, now);
    if Has(g, key) then g[key := g[key].(count := g[key].count + 1)] else g
  }

  predicate Over(m: Buckets, key: string) {
    Has(m, key) && m[key].count > LimitOf(key)
  }

  function Charge(m: Buckets, keys: seq<string>, now: int, locked: bool): Answer
    decreases |keys|
  {
    if keys == [] then Answer(m, locked)
    else
      var c := ChargeOne(m, keys[0], now);
      Charge(c, keys[1..], now, locked || Over(c, keys[0]))
  }

  /**
  One request: refused if any of its keys is locked; else charged to all of them, and refused if one is over its
  limit.
  */
  function Request(m: Buckets, keys: seq<string>, now: int): Answer {
    var s := Scan(m, keys, now);
    if s.locked then s else Charge(s.m, keys, now, false)
  }

  function FailOne(m: Buckets, key: string, now: int): Buckets {
    var g := Get(m, key, now);
    if !Has(g, key) then g
    else
      var b := g[key];
      var locks := b.failCount + 1 >= LimitOf(key);
      g[key := if locks then b.(failCount := 0, lockedUntil := now + LOCKOUT) else b.(failCount := b.failCount + 1)]
  }

  function Failure(m: Buckets, keys: seq<string>, now: int): Buckets
    decreases |keys|
  {
    if keys == [] then m else Failure(FailOne(m, keys[0], now), keys[1..], now)
  }

  function ResetOne(m: Buckets, key: string): Buckets {
    if key != "global" && key in m then m[key := m[key].(failCount := 0, lockedUntil := 0)] else m
  }

  function Reset(m: Buckets, keys: seq<string>): Buckets
    decreases |keys|
  {
    if keys == [] then m else Reset(ResetOne(m, keys[0]), keys[1..])
  }

  // ---------------------------------------------------------------- the implementation

  class Limiter {
    var ipBuckets: Buckets

    constructor ()
      ensures ipBuckets == map[]
    {
      ipBuckets := map[];
    }

    /** Deletes the stale buckets, in any order: the loop of the cleaner and of a full map. */
    method Cleanup(now: int)
      modifies this
      ensures ipBuckets == Live(old(ipBuckets), now)
    {
      ghost var was := ipBuckets;
      var todo := ipBuckets.Keys;
      while todo != {}
        invariant todo <= was.Keys
        invariant ipBuckets == map k | k in was && (k in todo || !Stale(was[k], now)) :: was[k]
      {
        var key :| key in todo;
        if Stale(ipBuckets[key], now) { ipBuckets := ipBuckets - {key}; }
        todo := todo - {key};
      }
    }

    method GetBucketLocked(key: string, now: int) returns (found: bool)
      modifies this
      ensures ipBuckets == Get(old(ipBuckets), key, now) && found == Has(ipBuckets, key)
    {
      if key == "" { return false; }
      if key in ipBuckets {
        var b := ipBuckets[key];
        if now - b.windowStart > WINDOW {
          b := b.(windowStart := now, count := 0);
          if now >= b.lockedUntil { b := b.(failCount := 0, lockedUntil := 0); }
        }
        ipBuckets := ipBuckets[key := b];
        return true;
      }
      if |ipBuckets| >= MAX_BUCKETS {
        Cleanup(now);
        if |ipBuckets| >= MAX_BUCKETS { return false; }
      }
      ipBuckets := ipBuckets[key := NewBucket(now)];
      return true;
    }

    method LoginRateLimit(keys: seq<string>, now: int) returns (locked: bool)
      modifies this
      ensures Answer(ipBuckets, locked) == Request(old(ipBuckets), keys, now)
    {
      locked := ScanLocked(keys, now);
      if !locked { locked := ChargeAll(keys, now); }
    }

    method ScanLocked(keys: seq<string>, now: int) returns (locked: bool)
      modifies this
      ensures Answer(ipBuckets, locked) == Scan(old(ipBuckets), keys, now)
    {
      for i := 0 to |keys|
        invariant Scan(ipBuckets, keys[i..], now) == Scan(old(ipBuckets), keys, now)
      {
        assert keys[i..][1..] == keys[i + 1..];
        var found := GetBucketLocked(keys[i], now);
        if found && now < ipBuckets[keys[i]].lockedUntil { return true; }
      }
      return false;
    }

    method ChargeAll(keys: seq<string>, now: int) returns (locked: bool)
      modifies this
      ensures Answer(ipBuckets, locked) == Charge(old(ipBuckets), keys, now, false)
    {
      locked := false;
      for i := 0 to |keys|
        invariant Charge(ipBuckets, keys[i..], now, locked) == Charge(old(ipBuckets), keys, now, false)
      {
        assert keys[i..][1..] == keys[i + 1..];
        var found := GetBucketLocked(keys[i], now);
        if found {
          var b := ipBuckets[keys[i]];
          ipBuckets := ipBuckets[keys[i] := b.(count := b.count + 1)];
          if b.count + 1 > LimitOf(keys[i]) { locked := true; }
        }
      }
    }

    method RecordLoginFailure(keys: seq<string>, now: int)
      modifies this
      ensures ipBuckets == Failure(old(ipBuckets), keys, now)
    {
      for i := 0 to |keys|
        invariant Failure(ipBuckets, keys[i..], now) == Failure(old(ipBuckets), keys, now)
      {
        assert keys[i..][1..] == keys[i + 1..];
        var found := GetBucketLocked(keys[i], now);
        if !found { continue; }
        var b := ipBuckets[keys[i]];
        b := b.(failCount := b.failCount + 1);
        if b.failCount >= LimitOf(keys[i]) { b := b.(failCount := 0, lockedUntil := now + LOCKOUT); }
        ipBuckets := ipBuckets[keys[i] := b];
      }
    }

    method ResetLoginCounter(keys: seq<string>)
      modifies this
      ensures ipBuckets == Reset(old(ipBuckets), keys)
    {
      for i := 0 to |keys|
        invariant Reset(ipBuckets, keys[i..]) == Reset(old(ipBuckets), keys)
      {
        assert keys[i..][1..] == keys[i + 1..];
        if keys[i] == "global" { continue; }
        if keys[i] in ipBuckets {
          ipBuckets := ipBuckets[keys[i] := ipBuckets[keys[i]].(failCount := 0, lockedUntil := 0)];
        }
      }
    }
  }
}
