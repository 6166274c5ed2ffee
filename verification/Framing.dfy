/**
Cutting the byte stream of a connection into packets: the 12 byte header of RFC 8907 section 4.1,
then as many body bytes as the header announces.
*/
module Framing {
  import opened Bytes
  import opened Results
  import Packets

  const HDR_LEN := 12

  datatype ReadError =
    | EOF
    | UnexpectedEOF
    | PacketTooLarge
    | UnsupportedVersion
    | Failed(code: int)

  // ---------------------------------------------------------------- specification

  function BodyLen(h: seq<byte>): nat
    requires |h| >= HDR_LEN
  {
    Uint32(h[8..12])
  }

  /** The major version, `v>>4`, must be 0xc. */
  predicate MajorVersionOk(v: byte) {
    0xc0 <= v <= 0xcf
  }

  /** A raw packet holds at least a header. */
  type Raw = p: seq<byte> | |p| >= HDR_LEN witness [0, 0, 0, 0, 0, 0, 0, 0, 0, 0, 0, 0]

  predicate WellFormed(p: seq<byte>) {
    && |p| >= HDR_LEN
    && MajorVersionOk(p[0])
    && BodyLen(p) == |p| - HDR_LEN <= Packets.MAX_BODY_LEN
  }

  /** Running out of bytes inside a packet. */
  function Truncated(end: ReadError): ReadError {
    if end == EOF then UnexpectedEOF else end
  }

  /** The first packet of a stream that delivers `data` and then `end`, and what follows it. */
  function NextPacket(data: seq<byte>, end: ReadError): (r: Result<(seq<byte>, seq<byte>), ReadError>)
    ensures r.Ok? ==> r.value.0 + r.value.1 == data && WellFormed(r.value.0)
  {
    if data == [] then Err(end)
    else if |data| < HDR_LEN then Err(Truncated(end))
    else if !MajorVersionOk(data[0]) then Err(UnsupportedVersion)
    else
      var l := BodyLen(data);
      if l > Packets.MAX_BODY_LEN then Err(PacketTooLarge)
      else if |data| < HDR_LEN + l then Err(Truncated(end))
      else
        assert data[..HDR_LEN + l][8..12] == data[8..12];
        Ok((data[..HDR_LEN + l], data[HDR_LEN + l..]))
  }

  /** All packets of the stream, and the error that ends it. */
  function Frames(data: seq<byte>, end: ReadError): (seq<seq<byte>>, ReadError)
    decreases |data|
  {
    match NextPacket(data, end)
    case Err(e) => ([], e)
    case Ok((p, rest)) =>
      assert |rest| < |data|;
      var (ps, e) := Frames(rest, end);
      ([p] + ps, e)
  }

  function Concat(ps: seq<seq<byte>>): seq<byte> {
    if ps == [] then [] else ps[0] + Concat(ps[1..])
  }

  lemma NextPacketOf(p: seq<byte>, rest: seq<byte>, end: ReadError)
    requires WellFormed(p)
    ensures NextPacket(p + rest, end) == Ok((p, rest))
  {
    var data := p + rest;
    assert data[8..12] == p[8..12];
    assert data[..|p|] == p && data[|p|..] == rest;
  }

  lemma NextPacketCut(tail: seq<byte>, p: seq<byte>, end: ReadError)
    requires tail == [] || (WellFormed(p) && tail < p)
    ensures NextPacket(tail, end) == Err(if tail == [] then end else Truncated(end))
  {
    if |tail| >= HDR_LEN {
      assert tail[8..12] == p[8..12];
    }
  }

  /**
  A list of well-formed packets is recovered from the concatenation, whatever ends the stream. An EOF
  at a packet boundary stays an EOF; anywhere inside a packet it becomes an unexpected EOF.
  */
  lemma {:induction false} FramesOfConcat(ps: seq<seq<byte>>, tail: seq<byte>, cut: seq<byte>, end: ReadError)
    requires forall i | 0 <= i < |ps| :: WellFormed(ps[i])
    requires tail == [] || (WellFormed(cut) && tail < cut)
    ensures Frames(Concat(ps) + tail, end) == (ps, if tail == [] then end else Truncated(end))
  {
    if ps == [] {
      NextPacketCut(tail, cut, end);
      assert Concat(ps) + tail == tail;
    } else {
      var rest := Concat(ps[1..]) + tail;
      FramesOfConcat(ps[1..], tail, cut, end);
      assert Concat(ps) + tail == ps[0] + rest;
      NextPacketOf(ps[0], rest, end);
      assert [ps[0]] + ps[1..] == ps;
    }
  }

  /** Nothing is invented or skipped: the packets, in order, are well formed and start the stream. */
  lemma {:induction false} FramesSound(data: seq<byte>, end: ReadError)
    ensures var (ps, e) := Frames(data, end);
            && (forall i | 0 <= i < |ps| :: WellFormed(ps[i]))
            && Concat(ps) <= data
            && (end == EOF ==> (e == EOF <==> Concat(ps) == data))
    decreases |data|
  {
    match NextPacket(data, end)
    case Err(e) =>
      assert Frames(data, end) == ([], e);
    case Ok((p, rest)) =>
      FramesSound(rest, end);
      var (qs, e) := Frames(rest, end);
      var ps := [p] + qs;
      assert Frames(data, end) == (ps, e);
      assert ps[1..] == qs;
      assert Concat(ps) == p + Concat(qs);
      assert Concat(ps) == data <==> Concat(qs) == rest by {
        if Concat(ps) == data { assert Concat(qs) == data[|p|..] == rest; }
      }
  }

  lemma ReadMore(h: seq<byte>, start: seq<byte>, k: nat, nn: nat)
    requires k + nn <= |start|
    ensures h + start[..k] + start[k..][..nn] == h + start[..k + nn] && start[k..][nn..] == start[k + nn..]
  {
  }

  lemma BodyComplete(h: seq<byte>, start: seq<byte>, s: nat)
    requires |h| == HDR_LEN && s <= |start|
    ensures (h + start)[..HDR_LEN + s] == h + start[..s] && (h + start)[HDR_LEN + s..] == start[s..]
  {
  }

  // ---------------------------------------------------------------- the reading side of a connection

  /**
  A network connection that will deliver `data` and then fail with `end`, in pieces nobody can predict:
  a read returns at least one byte or the error, and may return the error together with the last bytes.
  */
  class Conn {
    var data: seq<byte>
    const end: ReadError

    constructor (data: seq<byte>, end: ReadError)
      ensures this.data == data && this.end == end
    {
      this.data := data;
      this.end := end;
    }

    /** `c.nc.Read(p[n:])`. */
    method Read(p: array<byte>, n: nat) returns (nn: nat, err: Option<ReadError>)
      requires n < p.Length
      modifies this, p
      ensures n + nn <= p.Length && nn <= |old(data)|
      ensures p[..n + nn] == old(p[..n]) + old(data)[..nn] && data == old(data)[nn..]
      ensures err.None? ==> nn > 0
      ensures err.Some? ==> err.value == end && data == []
    {
      if data == [] {
        return 0, Some(end);
      }
      nn :| 1 <= nn <= |data| && n + nn <= p.Length;
      forall i | 0 <= i < nn {
        p[n + i] := data[i];
      }
      data := data[nn..];
      assert p[..n] == old(p[..n]);
      err := None;
      if data == [] {
        var together :| together in {true, false};
        if together { err := Some(end); }
      }
    }

    /** The loop of both readers: read into `p[n:]` until `p` is full or the connection fails. */
    method Fill(p: array<byte>, from: nat) returns (n: nat, err: Option<ReadError>)
      requires from < p.Length
      modifies this, p
      ensures err == if |old(data)| < p.Length - from then Some(end) else None
      ensures err.Some? ==> n == from + |old(data)|
      ensures err.None? ==>
        p[..] == old(p[..from]) + old(data)[..p.Length - from] && data == old(data)[p.Length - from..]
    {
      ghost var head, start := p[..from], data;
      n, err := from, None;
      assert p[..n] == head + start[..0];
      while err.None?
        invariant from <= n < p.Length && n - from <= |start|
        invariant p[..n] == head + start[..n - from]
        invariant data == start[n - from..]
        invariant err.Some? ==> err.value == end && data == []
        decreases p.Length - n, err.None?
      {
        var nn;
        nn, err := Read(p, n);
        ReadMore(head, start, n - from, nn);
        n := n + nn;
        if n == p.Length {
          assert p[..] == p[..n];
          return n, None;
        }
      }
      assert |start| == n - from;
    }

    method ReadPacketHeader() returns (r: Result<array<byte>, ReadError>)
      modifies this
      ensures match r
              case Ok(h) => fresh(h) && h.Length == HDR_LEN && h[..] + data == old(data)
              case Err(e) => |old(data)| < HDR_LEN && e == if old(data) == [] then end else Truncated(end)
    {
      var h := new byte[HDR_LEN];
      var n, err := Fill(h, 0);
      match err {
        case None =>
          assert h[..] == old(data)[..HDR_LEN];
          return Ok(h);
        case Some(e) =>
          if e == EOF && n > 0 {
            return Err(UnexpectedEOF);
          }
          return Err(e);
      }
    }

    method ReadPacketBody(h: array<byte>) returns (r: Result<array<byte>, ReadError>)
      requires h.Length == HDR_LEN && MajorVersionOk(h[0])
      modifies this
      ensures match NextPacket(h[..] + old(data), end)
              case Ok((p, rest)) => r.Ok? && r.value[..] == p && data == rest
              case Err(e) => r == Err(e)
    {
      ghost var hs, start := h[..], data;
      assert (hs + start)[8..12] == hs[8..12] == h[8..12] && (hs + start)[0] == h[0];
      var s := Uint32(h[8..12]);
      if s > Packets.MAX_BODY_LEN {
        return Err(PacketTooLarge);
      } else if s == 0 {
        BodyComplete(hs, start, 0);
        assert hs + start[..0] == hs;
        return Ok(h);
      }
      var p := new byte[HDR_LEN + s];
      forall i | 0 <= i < HDR_LEN {
        p[i] := h[i];
      }
      assert p[..HDR_LEN] == hs;
      var n, err := Fill(p, HDR_LEN);
      match err {
        case None =>
          BodyComplete(hs, start, s);
          return Ok(p);
        case Some(e) =>
          if e == EOF {
            return Err(UnexpectedEOF);
          }
          return Err(e);
      }
    }

    method ReadPacket() returns (r: Result<array<byte>, ReadError>)
      modifies this
      ensures match NextPacket(old(data), end)
              case Ok((p, rest)) => r.Ok? && r.value[..] == p && data == rest
              case Err(e) => r == Err(e)
    {
      var header := ReadPacketHeader();
      match header {
        case Err(e) => return Err(e);
        case Ok(h) =>
          assert old(data)[0] == h[0];
          if !MajorVersionOk(h[0]) {
            return Err(UnsupportedVersion);
          }
          r := ReadPacketBody(h);
      }
    }

    /** `readLoop`: `sent` are the packets handed to the connection's packet channel. */
    method ReadLoop() returns (sent: seq<seq<byte>>, err: ReadError)
      modifies this
      ensures (sent, err) == Frames(old(data), end)
    {
      sent := [];
      ghost var all := Frames(data, end);
      assert [] + all.0 == all.0;
      while true
        invariant all == (sent + Frames(data, end).0, Frames(data, end).1)
        decreases |data|
      {
        ghost var before := sent;
        var r := ReadPacket();
        match r {
          case Err(e) =>
            assert sent + [] == sent;
            return sent, e;
          case Ok(p) =>
            sent := sent + [p[..]];
            MoveOne(before, p[..], Frames(data, end).0);
        }
      }
    }
  }

  lemma MoveOne(sent: seq<seq<byte>>, p: seq<byte>, rest: seq<seq<byte>>)
    ensures sent + ([p] + rest) == (sent + [p]) + rest
  {
  }
}
