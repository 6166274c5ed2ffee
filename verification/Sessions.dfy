/**
One end of a TACACS+ session: stamping and obfuscating outgoing packets, checking and
restoring incoming ones (RFC 8907 sections 4.1 and 4.5).
*/
module Sessions {
  import opened Bytes
  import opened Results
  import opened Obfuscation
  import Framing
  import Packets

  /** The shared secret and the digest it is used with. */
  datatype Secret = Secret(md5: Md5, key: seq<byte>)

  datatype SeqError = SessionNotFound | InvalidSeqNo

  // ---------------------------------------------------------------- sequence numbers

  /** The number on the n-th packet of a session; it is a byte and starts over after 255. */
  function SeqNo(n: nat): byte {
    if n == 0 then 0 else Succ(SeqNo(n - 1))
  }

  lemma {:induction false} SeqNoExact(n: nat)
    requires n <= 255
    ensures SeqNo(n) as nat == n
  {
    if n != 0 { SeqNoExact(n - 1); }
  }

  lemma OddSucc(b: byte)
    ensures Odd(Succ(b)) != Odd(b)
  {
    if b == 255 {
      OddAt(255, 127);
    } else {
      OddNext(b);
    }
  }

  lemma {:induction false} OddNext(b: byte)
    requires b < 255
    ensures Odd(b + 1) != Odd(b)
  {
    if b >= 2 { OddNext(b - 2); }
  }

  lemma {:induction false} OddAt(b: byte, half: nat)
    requires b as nat == 2 * half + 1
    ensures Odd(b)
  {
    if b >= 2 { OddAt(b - 2, half - 1); }
  }

  /** Parity alternates, also across the wrap from 255 to 0. */
  lemma {:induction false} SeqNoParity(n: nat)
    ensures Odd(SeqNo(n)) != Odd(SeqNo(n + 1))
    ensures n >= 1 ==> Odd(SeqNo(n - 1)) == Odd(SeqNo(n + 1))
  {
    OddSucc(SeqNo(n));
    if n >= 1 { OddSucc(SeqNo(n - 1)); }
  }

  // ---------------------------------------------------------------- packets in the clear and on the wire

  /** `writePacket` before the write: count the sequence number up, set the body length. */
  function Stamp(p: seq<byte>): (r: seq<byte>)
    requires HDR_LEN <= |p| < 0x1_0000_0000
    ensures |r| == |p| && r[2] == Succ(p[2])
    ensures r[0] == p[0] && r[1] == p[1] && r[3] == p[3] && r[4..8] == p[4..8]
    ensures r[8..12] == Uint32Bytes(|p| - HDR_LEN) && r[HDR_LEN..] == p[HDR_LEN..]
  {
    p[..2] + [Succ(p[2])] + p[3..8] + Uint32Bytes(|p| - HDR_LEN) + p[HDR_LEN..]
  }

  lemma StampedAt(p: seq<byte>, r: seq<byte>)
    requires HDR_LEN <= |p| == |r| < 0x1_0000_0000 && r[2] == Succ(p[2]) && r[8..12] == Uint32Bytes(|p| - HDR_LEN)
    requires forall i | 0 <= i < |p| && i != 2 && !(8 <= i < 12) :: r[i] == p[i]
    ensures r == Stamp(p)
  {
    var s := Stamp(p);
    assert s[..2] == p[..2] && s[3..8] == p[3..8];
    forall i | 0 <= i < |p| ensures r[i] == s[i] {
      if 8 <= i < 12 {
        assert r[i] == r[8..12][i - 8] && s[i] == s[8..12][i - 8];
      } else if i >= 12 {
        assert s[i] == s[HDR_LEN..][i - 12] && p[i] == p[HDR_LEN..][i - 12];
      } else if i < 2 {
        assert s[i] == s[..2][i] && p[i] == p[..2][i];
      } else if i > 2 {
        assert s[i] == s[3..8][i - 3] && p[i] == p[3..8][i - 3];
      }
    }
  }

  function Outgoing(k: Secret, p: seq<byte>): (r: seq<byte>)
    requires HDR_LEN <= |p| < 0x1_0000_0000
    ensures |r| == |p| && r[..HDR_LEN] == Stamp(p)[..HDR_LEN]
  {
    Obfuscate(k.md5, k.key, Stamp(p))
  }

  /** The checks of `readPacket`, for the side that refuses odd numbers (a client) or even ones (a server). */
  function Check(seqNo: byte, client: bool, p: seq<byte>): Option<SeqError>
    requires |p| >= HDR_LEN
  {
    if p[2] != Succ(seqNo) then Some(if seqNo == 0 then SessionNotFound else InvalidSeqNo)
    else if Odd(p[2]) == client then Some(InvalidSeqNo)
    else None
  }

  function Incoming(k: Secret, seqNo: byte, client: bool, p: seq<byte>): Result<seq<byte>, SeqError>
    requires |p| >= HDR_LEN
  {
    match Check(seqNo, client, p)
    case Some(e) => Err(e)
    case None => Ok(Obfuscate(k.md5, k.key, p))
  }

  lemma HeaderBytes(p: seq<byte>, q: seq<byte>)
    requires |p| >= HDR_LEN && |q| >= HDR_LEN && p[..HDR_LEN] == q[..HDR_LEN]
    ensures p[0] == q[0] && p[1] == q[1] && p[2] == q[2] && p[3] == q[3] && p[4..8] == q[4..8] && p[8..12] == q[8..12]
  {
    assert forall i | 0 <= i < HDR_LEN :: p[i] == p[..HDR_LEN][i] && q[i] == q[..HDR_LEN][i];
  }

  /** What one side writes, the other side reads, body and header alike. */
  lemma IncomingOfOutgoing(k: Secret, p: seq<byte>, client: bool)
    requires HDR_LEN <= |p| < 0x1_0000_0000
    requires Odd(Succ(p[2])) != client
    ensures Incoming(k, p[2], client, Outgoing(k, p)) == Ok(Stamp(p))
  {
    HeaderBytes(Outgoing(k, p), Stamp(p));
    ObfuscateInvolution(k.md5, k.key, Stamp(p));
  }

  /** A packet built on a header of the right major version passes the framing checks of the other side. */
  lemma OutgoingWellFormed(k: Secret, hdr: seq<byte>, x: Packets.Body)
    requires |hdr| == HDR_LEN && Framing.MajorVersionOk(hdr[0]) && Packets.Problem(x).None?
    ensures |Packets.Encode(x)| <= Packets.MAX_BODY_LEN
    ensures Framing.WellFormed(Outgoing(k, hdr + Packets.Encode(x)))
  {
    Packets.BodyLength(x);
    var p := hdr + Packets.Encode(x);
    HeaderBytes(Outgoing(k, p), Stamp(p));
    Uint32RoundTrip(|p| - HDR_LEN);
  }

  // ---------------------------------------------------------------- the session object

  class Session {
    const secret: Secret
    const client: bool
    var seqNo: byte

    constructor (secret: Secret, client: bool)
      ensures this.secret == secret && this.client == client && seqNo == 0
    {
      this.secret, this.client, this.seqNo := secret, client, 0;
    }

    /** The sequence number and the length, in place. */
    method StampInPlace(p: array<byte>)
      requires HDR_LEN <= p.Length < 0x1_0000_0000
      modifies this`seqNo, p
      ensures p[..] == Stamp(old(p[..])) && seqNo == Succ(old(p[2]))
    {
      ghost var was := p[..];
      p[2] := Succ(p[2]);
      seqNo := p[2];
      var length := Uint32Bytes(p.Length - HDR_LEN);
      p[8], p[9], p[10], p[11] := length[0], length[1], length[2], length[3];
      StampedAt(was, p[..]);
    }

    /** `writePacket` up to the write request: the packet is stamped and obfuscated in place. */
    method WritePacket(p: array<byte>)
      requires HDR_LEN <= p.Length < 0x1_0000_0000
      modifies this, p
      ensures p[..] == Outgoing(secret, old(p[..]))
      ensures seqNo == Succ(old(p[2]))
    {
      StampInPlace(p);
      Crypt(secret.md5, p, secret.key);
    }

    /** `readPacket` once a packet has been taken from the queue; a refused packet is left as it came. */
    method ReadPacket(p: array<byte>) returns (err: Option<SeqError>)
      requires HDR_LEN <= p.Length
      modifies p
      ensures match Incoming(secret, seqNo, client, old(p[..]))
              case Ok(plain) => err == None && p[..] == plain
              case Err(e) => err == Some(e) && p[..] == old(p[..])
    {
      if p[2] != Succ(seqNo) {
        if seqNo == 0 {
          return Some(SessionNotFound);
        }
        return Some(InvalidSeqNo);
      }
      if Odd(p[2]) == client {
        return Some(InvalidSeqNo);
      }
      Crypt(secret.md5, p, secret.key);
      return None;
    }
  }
}
