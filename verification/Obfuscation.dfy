/**
The body obfuscation of RFC 8907 section 4.5: the body is combined by exclusive or with a pad of
chained MD5 digests over the session id, the shared key, the version and the sequence number.
*/
module Obfuscation {
  import opened Bytes

  const HDR_LEN := 12

  /** MD5 itself is not modelled; all that is used of it is the length of a digest. */
  type Digest = d: seq<byte> | |d| == 16 witness ZeroDigest()
  type Md5 = seq<byte> -> Digest

  function ZeroDigest(): seq<byte> {
    [0, 0, 0, 0, 0, 0, 0, 0, 0, 0, 0, 0, 0, 0, 0, 0]
  }

  /** What every digest starts from: session id, key, version, sequence number. */
  function Base(p: seq<byte>, key: seq<byte>): seq<byte>
    requires |p| >= HDR_LEN
  {
    p[4..8] + key + [p[0], p[2]]
  }

  /** The n-th digest of the chain, counting from 1; the zeroth link is empty. */
  function Chain(md5: Md5, base: seq<byte>, n: nat): (r: seq<byte>)
    ensures n > 0 ==> |r| == 16
  {
    if n == 0 then [] else md5(base + Chain(md5, base, n - 1))
  }

  /** The first n digests in a row. */
  function Blocks(md5: Md5, base: seq<byte>, n: nat): (r: seq<byte>)
    ensures |r| == 16 * n
  {
    if n == 0 then [] else Blocks(md5, base, n - 1) + Chain(md5, base, n)
  }

  /** The pad of RFC 8907: the chain, truncated to the length of the data. */
  function Pad(md5: Md5, base: seq<byte>, length: nat): (r: seq<byte>)
    ensures |r| == length
  {
    Blocks(md5, base, length)[..length]
  }

  lemma {:induction false} BlocksPrefix(md5: Md5, base: seq<byte>, m: nat, n: nat)
    requires m <= n
    ensures Blocks(md5, base, m) == Blocks(md5, base, n)[..16 * m]
    decreases n - m
  {
    if m < n {
      BlocksPrefix(md5, base, m, n - 1);
      var b := Blocks(md5, base, n - 1);
      assert Blocks(md5, base, n)[..16 * m] == b[..16 * m];
    }
  }

  /** Any number of digests that covers the data gives the same pad. */
  lemma PadFromBlocks(md5: Md5, base: seq<byte>, length: nat, n: nat)
    requires length <= 16 * n
    ensures Pad(md5, base, length) == Blocks(md5, base, n)[..length]
  {
    if n <= length {
      BlocksPrefix(md5, base, n, length);
    } else {
      BlocksPrefix(md5, base, length, n);
    }
  }

  function ApplyPad(p: seq<byte>, pad: seq<byte>): (r: seq<byte>)
    requires |p| == HDR_LEN + |pad|
    ensures |r| == |p| && r[..HDR_LEN] == p[..HDR_LEN]
  {
    p[..HDR_LEN] + XorSeq(p[HDR_LEN..], pad)
  }

  function Obfuscate(md5: Md5, key: seq<byte>, p: seq<byte>): (r: seq<byte>)
    requires |p| >= HDR_LEN
    ensures |r| == |p| && r[..HDR_LEN] == p[..HDR_LEN]
  {
    ApplyPad(p, Pad(md5, Base(p, key), |p| - HDR_LEN))
  }

  lemma ApplyTwice(p: seq<byte>, pad: seq<byte>)
    requires |p| == HDR_LEN + |pad|
    ensures ApplyPad(ApplyPad(p, pad), pad) == p
  {
    XorSeqInvolution(p[HDR_LEN..], pad);
    assert ApplyPad(p, pad)[HDR_LEN..] == XorSeq(p[HDR_LEN..], pad);
  }

  lemma BaseOfHeader(p: seq<byte>, q: seq<byte>, key: seq<byte>)
    requires |p| >= HDR_LEN && |q| >= HDR_LEN && p[..HDR_LEN] == q[..HDR_LEN]
    ensures Base(p, key) == Base(q, key)
  {
    assert forall i | 0 <= i < HDR_LEN :: p[i] == p[..HDR_LEN][i] && q[i] == q[..HDR_LEN][i];
    assert p[4..8] == q[4..8];
  }

  /** Obfuscating twice restores the packet. */
  lemma ObfuscateInvolution(md5: Md5, key: seq<byte>, p: seq<byte>)
    requires |p| >= HDR_LEN
    ensures Obfuscate(md5, key, Obfuscate(md5, key, p)) == p
  {
    var pad := Pad(md5, Base(p, key), |p| - HDR_LEN);
    var q := ApplyPad(p, pad);
    assert q == Obfuscate(md5, key, p);
    BaseOfHeader(p, q, key);
    ApplyTwice(p, pad);
  }

  /** Packets with different bodies stay different on the wire. */
  lemma ObfuscateInjective(md5: Md5, key: seq<byte>, p: seq<byte>, q: seq<byte>)
    requires |p| >= HDR_LEN && |q| >= HDR_LEN
    requires Obfuscate(md5, key, p) == Obfuscate(md5, key, q)
    ensures p == q
  {
    ObfuscateInvolution(md5, key, p);
    ObfuscateInvolution(md5, key, q);
  }

  ghost predicate XoredAt(before: seq<byte>, after: seq<byte>, at: nat, sum: seq<byte>) {
    && |before| == |after|
    && forall j | 0 <= j < |after| ::
         after[j] == if at <= j < at + |sum| then Xor(before[j], sum[j - at]) else before[j]
  }

  /** The inner loop of `crypt`: `for i, c := range sum { body[i] ^= c }`. */
  method XorInto(p: array<byte>, at: nat, sum: seq<byte>)
    requires at + |sum| <= p.Length
    modifies p
    ensures XoredAt(old(p[..]), p[..], at, sum)
  {
    for i := 0 to |sum|
      invariant forall j | 0 <= j < p.Length ::
                  p[j] == if at <= j < at + i then Xor(old(p[j]), sum[j - at]) else old(p[j])
    {
      p[at + i] := Xor(p[at + i], sum[i]);
    }
  }

  /** The first bytes, up to `at`, of `was` have had the pad applied, and nothing else has changed. */
  ghost predicate PaddedTo(was: seq<byte>, pad: seq<byte>, now: seq<byte>, at: nat) {
    && |was| == |now| && HDR_LEN <= at <= |was| && at <= HDR_LEN + |pad|
    && (forall i | 0 <= i < HDR_LEN || at <= i < |now| :: now[i] == was[i])
    && (forall i | HDR_LEN <= i < at :: now[i] == Xor(was[i], pad[i - HDR_LEN]))
  }

  lemma ExtendPadding(
      was: seq<byte>, pad: seq<byte>, full: seq<byte>, sum: seq<byte>, before: seq<byte>, after: seq<byte>)
    requires PaddedTo(was, pad, before, HDR_LEN + |pad|)
    requires sum <= full && HDR_LEN + |pad| + |sum| <= |was|
    requires XoredAt(before, after, HDR_LEN + |pad|, sum)
    ensures PaddedTo(was, pad + full, after, HDR_LEN + |pad| + |sum|)
  {
  }

  lemma PaddedToEnd(was: seq<byte>, pad: seq<byte>, now: seq<byte>)
    requires PaddedTo(was, pad, now, |was|)
    ensures now == ApplyPad(was, pad[..|was| - HDR_LEN])
  {
  }

  /** `crypt`: the pad is generated digest by digest and applied to the body in place. */
  method Crypt(md5: Md5, p: array<byte>, key: seq<byte>)
    requires p.Length >= HDR_LEN
    modifies p
    ensures p[..] == Obfuscate(md5, key, old(p[..]))
  {
    ghost var was := p[..];
    var buf := p[4..8] + key + [p[0], p[2]];
    assert buf == Base(was, key) by { assert was[4..8] == p[4..8]; }
    var sum: seq<byte> := [];
    var at := HDR_LEN;
    ghost var n, blocks := 0, [];
    while at < p.Length
      invariant blocks == Blocks(md5, buf, n)
      invariant PaddedTo(was, blocks, p[..], at)
      invariant at < p.Length ==> at == HDR_LEN + |blocks| && sum == Chain(md5, buf, n)
    {
      sum := md5(buf + sum);
      n := n + 1;
      ghost var full, before := sum, p[..];
      if p.Length - at < |sum| {
        sum := sum[..p.Length - at];
      }
      XorInto(p, at, sum);
      ExtendPadding(was, blocks, full, sum, before, p[..]);
      at := at + |sum|;
      blocks := blocks + full;
    }
    PadFromBlocks(md5, buf, p.Length - HDR_LEN, n);
    PaddedToEnd(was, blocks, p[..]);
  }
}
