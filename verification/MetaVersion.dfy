/**
The version vector of the six watched tables, and the string it is compared as.

The rows of tacacs_meta come in any order, may lack a key, and may hold keys nobody watches.
*/
module MetaVersion {
  import opened Strings

  type Versions = map<string, nat>

  const KEYS: seq<string> := ["user", "role", "server", "command", "on_duty", "approval"]

  /** A missing row counts as version 0. */
  function At(v: Versions, k: string): nat {
    if k in v then v[k] else 0
  }

  function Parts(v: Versions, keys: seq<string>): (r: seq<string>)
    ensures |r| == |keys| && forall i | 0 <= i < |keys| :: r[i] == Decimal(At(v, keys[i]))
  {
    if keys == [] then [] else [Decimal(At(v, keys[0]))] + Parts(v, keys[1..])
  }

  function VersionString(v: Versions): string {
    Join(Parts(v, KEYS), '_')
  }

  function OfRows(rows: seq<(string, nat)>): Versions {
    if rows == [] then map[] else OfRows(rows[..|rows| - 1])[rows[|rows| - 1].0 := rows[|rows| - 1].1]
  }

  /** `GetTablesUpdateTime`, given the rows that the query returned. */
  method GetTablesUpdateTime(rows: seq<(string, nat)>) returns (s: string)
    ensures s == VersionString(OfRows(rows))
  {
    var versions: Versions := map[];
    for i := 0 to |rows|
      invariant versions == OfRows(rows[..i])
    {
      assert rows[..i + 1][..i] == rows[..i];
      versions := versions[rows[i].0 := rows[i].1];
    }
    assert rows[..|rows|] == rows;
    var parts: seq<string> := [];
    for i := 0 to |KEYS|
      invariant parts == Parts(versions, KEYS)[..i]
    {
      parts := parts + [Decimal(At(versions, KEYS[i]))];
    }
    assert parts == Parts(versions, KEYS);
    s := Join(parts, '_');
  }

  predicate SameVersions(v: Versions, w: Versions) {
    forall k | k in KEYS :: At(v, k) == At(w, k)
  }

  lemma PartsWithout(v: Versions)
    ensures Without(Parts(v, KEYS), '_')
  {
    var p := Parts(v, KEYS);
    forall i | 0 <= i < |p| ensures '_' !in p[i] {
      DecimalDigits(At(v, KEYS[i]));
    }
  }

  /** The string determines all six counters: comparing strings is comparing version vectors. */
  lemma VersionStringExact(v: Versions, w: Versions)
    ensures VersionString(v) == VersionString(w) <==> SameVersions(v, w)
  {
    if VersionString(v) == VersionString(w) {
      PartsWithout(v);
      PartsWithout(w);
      JoinInjective(Parts(v, KEYS), Parts(w, KEYS), '_');
      forall k | k in KEYS ensures At(v, k) == At(w, k) {
        var i :| 0 <= i < |KEYS| && KEYS[i] == k;
        assert Parts(v, KEYS)[i] == Parts(w, KEYS)[i];
        ValueOfDecimal(At(v, k));
        ValueOfDecimal(At(w, k));
      }
    }
    if SameVersions(v, w) {
      assert forall i | 0 <= i < |KEYS| :: KEYS[i] in KEYS;
      assert Parts(v, KEYS) == Parts(w, KEYS);
    }
  }

  /** A version string is never the empty string a client starts from and is reset to. */
  lemma VersionStringNonempty(v: Versions)
    ensures VersionString(v) != ""
  {
    var p := Parts(v, KEYS);
    assert VersionString(v) == p[0] + ['_'] + Join(p[1..], '_');
  }

  // ---------------------------------------------------------------- bumping

  /** `version = version + 1`, or 1 for a new row. */
  function Bump(v: Versions, k: string): Versions {
    v[k := At(v, k) + 1]
  }

  function BumpAll(v: Versions, keys: seq<string>): Versions
    decreases |keys|
  {
    if keys == [] then v else BumpAll(Bump(v, keys[0]), keys[1..])
  }

  class Meta {
    var versions: Versions
    const triggers: bool

    constructor (triggers: bool, versions: Versions)
      ensures this.triggers == triggers && this.versions == versions
    {
      this.triggers, this.versions := triggers, versions;
    }

    /** Left to the database triggers where those are installed. */
    method BumpMetaVersion(key: string)
      modifies this`versions
      ensures versions == if triggers then old(versions) else Bump(old(versions), key)
    {
      if triggers { return; }
      versions := Bump(versions, key);
    }

    /** Bumps all six keys, whatever the configuration. */
    method RefreshAllMeta()
      modifies this`versions
      ensures forall k :: At(versions, k) == At(old(versions), k) + if k in KEYS then 1 else 0
    {
      ghost var was := versions;
      for i := 0 to |KEYS|
        invariant forall k :: At(versions, k) == At(was, k) + if k in KEYS[..i] then 1 else 0
      {
        assert KEYS[..i + 1] == KEYS[..i] + [KEYS[i]] && KEYS[i] !in KEYS[..i];
        versions := Bump(versions, KEYS[i]);
      }
      assert KEYS[..|KEYS|] == KEYS;
    }
  }

  /** A bump of a watched key changes the string for good: no later sequence of bumps brings it back. */
  lemma {:induction false} BumpNeverUndone(v: Versions, k: string, later: seq<string>)
    requires k in KEYS
    ensures At(BumpAll(Bump(v, k), later), k) > At(v, k)
    ensures VersionString(BumpAll(Bump(v, k), later)) != VersionString(v)
  {
    BumpsGrow(Bump(v, k), later, k);
    VersionStringExact(BumpAll(Bump(v, k), later), v);
  }

  lemma {:induction false} BumpsGrow(v: Versions, keys: seq<string>, k: string)
    decreases |keys|
    ensures At(BumpAll(v, keys), k) >= At(v, k)
  {
    if keys != [] { BumpsGrow(Bump(v, keys[0]), keys[1..], k); }
  }
}
