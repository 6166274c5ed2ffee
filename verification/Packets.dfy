/**
The seven packet bodies of RFC 8907 sections 5.1 to 7.2.

`Encode...` lays a body out on the wire, `Decode...` reads one back. `Marshal...` and `Unmarshal...`
are the loops of the program, proved equal to them; `ReadBuf` is its consuming cursor.
Go strings and byte slices are both sequences of bytes.
*/
module Packets {
  import opened Bytes
  import opened Results

  type Text = seq<byte>

  const MAX_UINT8 := 0xff
  const MAX_UINT16 := 0xffff
  const MAX_BODY_LEN := 196356

  datatype AuthenStart = AuthenStart(
    action: byte, privLvl: byte, authenType: byte, authenService: byte,
    user: Text, port: Text, remAddr: Text, data: Text)

  datatype AuthenReply = AuthenReply(status: byte, noEcho: bool, serverMsg: Text, data: Text)

  datatype AuthenContinue = AuthenContinue(abort: bool, message: Text)

  datatype AuthorRequest = AuthorRequest(
    authenMethod: byte, privLvl: byte, authenType: byte, authenService: byte,
    user: Text, port: Text, remAddr: Text, arg: seq<Text>)

  datatype AuthorResponse = AuthorResponse(status: byte, arg: seq<Text>, serverMsg: Text, data: Text)

  datatype AcctRequest = AcctRequest(
    flags: byte, authenMethod: byte, privLvl: byte, authenType: byte, authenService: byte,
    user: Text, port: Text, remAddr: Text, arg: seq<Text>)

  datatype AcctReply = AcctReply(status: byte, serverMsg: Text, data: Text)

  /** The field a marshaller complains about. */
  datatype MarshalError =
    | UserTooLarge | PortTooLarge | RemAddrTooLarge | DataTooLarge
    | ServerMsgTooLarge | MessageTooLarge | TooManyArgs | ArgTooLong

  // ---------------------------------------------------------------- protocol version

  const VER_DEFAULT: byte := 0xc0
  const VER_DEFAULT_MINOR_ONE: byte := 0xc1

  /** PAP, CHAP, ARAP and MSCHAP are the authentication types 2 to 5; a login is action 1, SendAuth action 4. */
  function Version(a: AuthenStart): byte {
    if a.action == 1 && a.authenType in {2, 3, 4, 5} then VER_DEFAULT_MINOR_ONE
    else if a.action == 4 && a.authenType in {2, 3, 5} then VER_DEFAULT_MINOR_ONE
    else VER_DEFAULT
  }

  /** Statuses 3 to 5 (GetData, GetUser, GetPass) ask for another round; every other one ends the session. */
  predicate Last(r: AuthenReply) {
    r.status < 3 || r.status > 5
  }

  // ---------------------------------------------------------------- cutting and joining

  lemma Assoc(a: seq<byte>, b: seq<byte>, c: seq<byte>)
    ensures a + b + c == a + (b + c)
  {
  }

  /** Appending piece by piece appends the pieces' concatenation. */
  lemma Appended(b: seq<byte>, v: seq<byte>, w: seq<byte>, x: seq<byte>, y: seq<byte>, z: seq<byte>)
    ensures b + v + w + x + y + z == b + (v + w + x + y + z)
  {
  }

  lemma Appended3(b: seq<byte>, x: seq<byte>, y: seq<byte>, z: seq<byte>)
    ensures b + x + y + z == b + (x + y + z)
  {
  }

  lemma Appended4(b: seq<byte>, w: seq<byte>, x: seq<byte>, y: seq<byte>, z: seq<byte>)
    ensures b + w + x + y + z == b + (w + x + y + z)
  {
  }

  lemma Cut(h: seq<byte>, a: seq<byte>, b: seq<byte>, c: seq<byte>, d: seq<byte>)
    ensures var s := h + a + b + c + d;
            var i, j, k, l := |h|, |h| + |a|, |h| + |a| + |b|, |h| + |a| + |b| + |c|;
            && |s| == l + |d|
            && (forall x | 0 <= x < i :: s[x] == h[x])
            && s[..i] == h && s[i..j] == a && s[j..k] == b && s[k..l] == c && s[l..] == d
  {
    var s := h + a + b + c + d;
    var i, j, k, l := |h|, |h| + |a|, |h| + |a| + |b|, |h| + |a| + |b| + |c|;
    assert s[..i] == h;
    assert s[i..j] == a;
    assert s[j..k] == b;
    assert s[k..l] == c;
    assert s[l..] == d;
  }

  lemma Cut4(h: seq<byte>, a: seq<byte>, b: seq<byte>, d: seq<byte>)
    ensures var s := h + a + b + d;
            var j, k := |h| + |a|, |h| + |a| + |b|;
            && |s| == k + |d| && (forall x | 0 <= x < |h| :: s[x] == h[x])
            && s[|h|..j] == a && s[j..k] == b && s[k..] == d
  {
  }

  lemma Cut3(h: seq<byte>, a: seq<byte>, d: seq<byte>)
    ensures var s := h + a + d;
            && |s| == |h| + |a| + |d| && (forall x | 0 <= x < |h| :: s[x] == h[x])
            && s[|h|..|h| + |a|] == a && s[|h| + |a|..] == d
  {
  }

  lemma Rejoin(s: seq<byte>, i: nat, j: nat, k: nat, l: nat, m: nat)
    requires i <= j <= k <= l <= m <= |s|
    ensures s[..i] + s[i..j] + s[j..k] + s[k..l] + s[l..m] == s[..m]
  {
    Join(s, 0, i, j);
    Join(s, 0, j, k);
    Join(s, 0, k, l);
    Join(s, 0, l, m);
  }

  lemma Join(s: seq<byte>, i: nat, j: nat, k: nat)
    requires i <= j <= k <= |s|
    ensures s[i..j] + s[j..k] == s[i..k]
  {
  }

  function Flag(set_: bool): byte {
    if set_ then 1 else 0
  }

  // ---------------------------------------------------------------- argument lists

  predicate Short(arg: seq<Text>) {
    forall i | 0 <= i < |arg| :: |arg[i]| <= MAX_UINT8
  }

  function Lens(arg: seq<Text>): (r: seq<byte>)
    requires Short(arg)
    ensures |r| == |arg|
  {
    if arg == [] then [] else [|arg[0]| as byte] + Lens(arg[1..])
  }

  function Flat(arg: seq<Text>): seq<byte> {
    if arg == [] then [] else arg[0] + Flat(arg[1..])
  }

  /** Cut `b` into pieces of the given lengths; None when `b` is too short. */
  function SplitArgs(lens: seq<byte>, b: seq<byte>): (r: Option<seq<Text>>)
    ensures r.Some? ==> |r.value| == |lens|
  {
    if lens == [] then Some([])
    else if |b| < lens[0] as nat then None
    else
      match SplitArgs(lens[1..], b[lens[0] as nat..])
      case None => None
      case Some(rest) => Some([b[..lens[0] as nat]] + rest)
  }

  lemma SplitOne(lens: seq<byte>, a: Text, b: seq<byte>)
    requires lens != [] && lens[0] as nat == |a|
    ensures SplitArgs(lens, a + b) == match SplitArgs(lens[1..], b)
                                      case None => None
                                      case Some(rest) => Some([a] + rest)
  {
    var n := lens[0] as nat;
    assert (a + b)[..n] == a && (a + b)[n..] == b;
  }

  lemma {:induction false} SplitArgsOfFlat(arg: seq<Text>, rest: seq<byte>)
    requires Short(arg)
    ensures SplitArgs(Lens(arg), Flat(arg) + rest) == Some(arg)
  {
    if arg == [] {
    } else {
      SplitArgsOfFlat(arg[1..], rest);
      Assoc(arg[0], Flat(arg[1..]), rest);
      assert Lens(arg)[1..] == Lens(arg[1..]);
      SplitOne(Lens(arg), arg[0], Flat(arg[1..]) + rest);
      assert arg == [arg[0]] + arg[1..];
    }
  }

  lemma {:induction false} FlatOfSplitArgs(lens: seq<byte>, b: seq<byte>)
    requires SplitArgs(lens, b).Some?
    ensures var arg := SplitArgs(lens, b).value;
            Short(arg) && Lens(arg) == lens && Flat(arg) <= b
  {
    if lens == [] {
    } else {
      var n := lens[0] as nat;
      FlatOfSplitArgs(lens[1..], b[n..]);
      var rest := SplitArgs(lens[1..], b[n..]).value;
      var arg := SplitArgs(lens, b).value;
      assert arg[1..] == rest;
      assert b == b[..n] + b[n..];
    }
  }

  lemma {:induction false} FlatLength(arg: seq<Text>)
    requires Short(arg)
    ensures |Flat(arg)| <= MAX_UINT8 * |arg|
  {
    if arg != [] { FlatLength(arg[1..]); }
  }

  lemma {:induction false} LensSnoc(arg: seq<Text>, s: Text)
    requires Short(arg) && |s| <= MAX_UINT8
    ensures Lens(arg + [s]) == Lens(arg) + [|s| as byte]
    ensures Flat(arg + [s]) == Flat(arg) + s
  {
    if arg == [] {
      assert [s] == [s] + [];
      assert Flat([s]) == s + Flat([]);
    } else {
      LensSnoc(arg[1..], s);
      assert (arg + [s])[1..] == arg[1..] + [s];
    }
  }

  function FourBytes(i: nat, j: nat): (r: seq<byte>)
    requires i <= MAX_UINT16 && j <= MAX_UINT16
    ensures |r| == 4 && Uint16(r[0], r[1]) == i && Uint16(r[2], r[3]) == j
  {
    [Hi(i), Lo(i), Hi(j), Lo(j)]
  }

  lemma FourBytesOf(a: byte, b: byte, c: byte, d: byte)
    ensures FourBytes(Uint16(a, b), Uint16(c, d)) == [a, b, c, d]
  {
    var r := FourBytes(Uint16(a, b), Uint16(c, d));
    Uint16Injective(a, b, r[0], r[1]);
    Uint16Injective(c, d, r[2], r[3]);
  }

  function AppendUint16(b: seq<byte>, i: nat, j: nat): seq<byte>
    requires i <= MAX_UINT16 && j <= MAX_UINT16
  {
    b + FourBytes(i, j)
  }

  /** The loops that append one length byte per argument, then the arguments. */
  method AppendLens(b: seq<byte>, arg: seq<Text>) returns (r: seq<byte>)
    requires Short(arg)
    ensures r == b + Lens(arg)
  {
    r := b;
    for i := 0 to |arg|
      invariant r == b + Lens(arg[..i])
    {
      LensSnoc(arg[..i], arg[i]);
      assert arg[..i + 1] == arg[..i] + [arg[i]];
      r := r + [|arg[i]| as byte];
    }
    assert arg[..|arg|] == arg;
  }

  method AppendArgs(b: seq<byte>, arg: seq<Text>) returns (r: seq<byte>)
    requires Short(arg)
    ensures r == b + Flat(arg)
  {
    r := b;
    for i := 0 to |arg|
      invariant r == b + Flat(arg[..i])
    {
      LensSnoc(arg[..i], arg[i]);
      assert arg[..i + 1] == arg[..i] + [arg[i]];
      r := r + arg[i];
    }
    assert arg[..|arg|] == arg;
  }

  method AnyArgTooLong(arg: seq<Text>) returns (r: bool)
    ensures r == !Short(arg)
  {
    for i := 0 to |arg|
      invariant forall j | 0 <= j < i :: |arg[j]| <= MAX_UINT8
    {
      if |arg[i]| > MAX_UINT8 { return true; }
    }
    return false;
  }

  // ---------------------------------------------------------------- the reading cursor

  /** `b` is what remains of `src` from `pos`; taking more than remains would be an index panic. */
  class ReadBuf {
    var b: seq<byte>
    ghost const src: seq<byte>
    ghost var pos: nat

    ghost predicate Valid()
      reads this
    {
      pos <= |src| && |b| == |src| - pos && b == src[pos..]
    }

    constructor (buf: seq<byte>)
      ensures Valid() && src == buf && pos == 0
    {
      b, src, pos := buf, buf, 0;
    }

    method Byte() returns (c: byte)
      requires Valid() && |b| >= 1
      modifies this
      ensures Valid() && pos == old(pos) + 1 && c == src[old(pos)]
    {
      c := b[0];
      b := b[1..];
      pos := pos + 1;
    }

    /** Four consecutive calls of `Byte`. */
    method FourBytes() returns (c0: byte, c1: byte, c2: byte, c3: byte)
      requires Valid() && |b| >= 4
      modifies this
      ensures Valid() && pos == old(pos) + 4
      ensures c0 == src[old(pos)] && c1 == src[old(pos) + 1] && c2 == src[old(pos) + 2] && c3 == src[old(pos) + 3]
    {
      c0 := Byte();
      c1 := Byte();
      c2 := Byte();
      c3 := Byte();
    }

    method Uint16() returns (n: nat)
      requires Valid() && |b| >= 2
      modifies this
      ensures Valid() && pos == old(pos) + 2 && n == Bytes.Uint16(src[old(pos)], src[old(pos) + 1])
    {
      n := Bytes.Uint16(b[0], b[1]);
      b := b[2..];
      pos := pos + 2;
    }

    /** The source's `bytes`, `slice` and `string`. */
    method Take(n: nat) returns (s: Text)
      requires Valid() && |b| >= n
      modifies this
      ensures Valid() && pos == old(pos) + n && s == src[old(pos)..old(pos) + n]
    {
      s := b[..n];
      b := b[n..];
      pos := pos + n;
    }

    /** The loop that reads one argument per length byte. */
    method Args(lens: seq<byte>) returns (r: Option<seq<Text>>)
      requires Valid()
      modifies this
      ensures Valid()
      ensures r == SplitArgs(lens, old(b))
    {
      var arg := [];
      var i := 0;
      assert lens[0..] == lens;
      assert forall rest: seq<Text> :: [] + rest == rest;
      while i < |lens|
        invariant Valid() && 0 <= i <= |lens|
        invariant SplitArgs(lens, old(b)) == match SplitArgs(lens[i..], b) {
                                               case None => None
                                               case Some(rest) => Some(arg + rest)
                                             }
      {
        ghost var todo, before := lens[i..], b;
        assert todo[0] == lens[i] && todo[1..] == lens[i + 1..];
        if |b| < lens[i] as nat {
          return None;
        }
        var s := Take(lens[i] as nat);
        assert s == before[..lens[i] as nat] && b == before[lens[i] as nat..];
        assert forall rest: seq<Text> :: arg + ([s] + rest) == (arg + [s]) + rest;
        arg := arg + [s];
        i := i + 1;
      }
      assert arg + [] == arg;
      return Some(arg);
    }
  }

  // ---------------------------------------------------------------- AuthenStart

  function AuthenStartProblem(a: AuthenStart): Option<MarshalError> {
    if |a.user| > MAX_UINT8 then Some(UserTooLarge)
    else if |a.port| > MAX_UINT8 then Some(PortTooLarge)
    else if |a.remAddr| > MAX_UINT8 then Some(RemAddrTooLarge)
    else if |a.data| > MAX_UINT8 then Some(DataTooLarge)
    else None
  }

  function EncodeAuthenStart(a: AuthenStart): seq<byte>
    requires AuthenStartProblem(a).None?
  {
    [a.action, a.privLvl, a.authenType, a.authenService,
     |a.user| as byte, |a.port| as byte, |a.remAddr| as byte, |a.data| as byte]
    + a.user + a.port + a.remAddr + a.data
  }

  function DecodeAuthenStart(b: seq<byte>): Option<AuthenStart> {
    if |b| < 8 then None else
    var u := 8;
    var p := u + b[4] as nat;
    var r := p + b[5] as nat;
    var d := r + b[6] as nat;
    var end := d + b[7] as nat;
    if |b| < end then None
    else Some(AuthenStart(b[0], b[1], b[2], b[3], b[u..p], b[p..r], b[r..d], b[d..end]))
  }

  method MarshalAuthenStart(a: AuthenStart, b: seq<byte>) returns (r: Result<seq<byte>, MarshalError>)
    ensures match AuthenStartProblem(a)
            case Some(e) => r == Err(e)
            case None => r == Ok(b + EncodeAuthenStart(a))
  {
    if |a.user| > MAX_UINT8 { return Err(UserTooLarge); }
    if |a.port| > MAX_UINT8 { return Err(PortTooLarge); }
    if |a.remAddr| > MAX_UINT8 { return Err(RemAddrTooLarge); }
    if |a.data| > MAX_UINT8 { return Err(DataTooLarge); }
    var p := b + [a.action, a.privLvl, a.authenType, a.authenService];
    p := p + [|a.user| as byte, |a.port| as byte, |a.remAddr| as byte, |a.data| as byte];
    p := p + a.user + a.port + a.remAddr + a.data;
    assert p == b + EncodeAuthenStart(a);
    return Ok(p);
  }

  method UnmarshalAuthenStart(buf: seq<byte>) returns (r: Option<AuthenStart>)
    ensures r == DecodeAuthenStart(buf)
  {
    var b := new ReadBuf(buf);
    if |b.b| < 8 { return None; }
    var action, privLvl, authenType, authenService := b.FourBytes();
    var ul, pl, rl, dl := b.FourBytes();
    if |b.b| < ul as nat + pl as nat + rl as nat + dl as nat { return None; }
    var user := b.Take(ul as nat);
    var port := b.Take(pl as nat);
    var remAddr := b.Take(rl as nat);
    var data := b.Take(dl as nat);
    return Some(AuthenStart(action, privLvl, authenType, authenService, user, port, remAddr, data));
  }

  lemma DecodeAuthenStartOf(h: seq<byte>, user: Text, port: Text, remAddr: Text, data: Text, rest: seq<byte>)
    requires |h| == 8
    requires h[4] as nat == |user| && h[5] as nat == |port| && h[6] as nat == |remAddr| && h[7] as nat == |data|
    ensures DecodeAuthenStart(h + user + port + remAddr + (data + rest))
         == Some(AuthenStart(h[0], h[1], h[2], h[3], user, port, remAddr, data))
  {
    Cut(h, user, port, remAddr, data + rest);
    var s, d := h + user + port + remAddr + (data + rest), 8 + |user| + |port| + |remAddr|;
    assert s[d..d + |data|] == s[d..][..|data|];
  }

  lemma AuthenStartRoundTrip(a: AuthenStart, rest: seq<byte>)
    requires AuthenStartProblem(a).None?
    ensures DecodeAuthenStart(EncodeAuthenStart(a) + rest) == Some(a)
  {
    var h := [a.action, a.privLvl, a.authenType, a.authenService,
              |a.user| as byte, |a.port| as byte, |a.remAddr| as byte, |a.data| as byte];
    DecodeAuthenStartOf(h, a.user, a.port, a.remAddr, a.data, rest);
    Assoc(h + a.user + a.port + a.remAddr, a.data, rest);
  }

  lemma AuthenStartCanonical(b: seq<byte>, a: AuthenStart)
    requires DecodeAuthenStart(b) == Some(a)
    ensures AuthenStartProblem(a).None? && EncodeAuthenStart(a) <= b
  {
    var p := 8 + |a.user|;
    var r := p + |a.port|;
    var d := r + |a.remAddr|;
    Rejoin(b, 8, p, r, d, d + |a.data|);
    assert b[..8] == [b[0], b[1], b[2], b[3], b[4], b[5], b[6], b[7]];
  }

  // ---------------------------------------------------------------- AuthenReply

  function AuthenReplyProblem(a: AuthenReply): Option<MarshalError> {
    if |a.serverMsg| > MAX_UINT16 then Some(ServerMsgTooLarge)
    else if |a.data| > MAX_UINT16 then Some(DataTooLarge)
    else None
  }

  function EncodeAuthenReply(a: AuthenReply): seq<byte>
    requires AuthenReplyProblem(a).None?
  {
    ResponseHead(a.status, Flag(a.noEcho), |a.serverMsg|, |a.data|) + a.serverMsg + a.data
  }

  function DecodeAuthenReply(b: seq<byte>): Option<AuthenReply> {
    if |b| < 6 then None else
    var d := 6 + Uint16(b[2], b[3]);
    var end := d + Uint16(b[4], b[5]);
    if |b| < end then None
    else Some(AuthenReply(b[0], Odd(b[1]), b[6..d], b[d..end]))
  }

  method MarshalAuthenReply(a: AuthenReply, b: seq<byte>) returns (r: Result<seq<byte>, MarshalError>)
    ensures match AuthenReplyProblem(a)
            case Some(e) => r == Err(e)
            case None => r == Ok(b + EncodeAuthenReply(a))
  {
    if |a.serverMsg| > MAX_UINT16 { return Err(ServerMsgTooLarge); }
    if |a.data| > MAX_UINT16 { return Err(DataTooLarge); }
    var p := b + [a.status, Flag(a.noEcho)];
    p := AppendUint16(p, |a.serverMsg|, |a.data|);
    p := p + a.serverMsg + a.data;
    Appended4(b, [a.status, Flag(a.noEcho)], FourBytes(|a.serverMsg|, |a.data|), a.serverMsg, a.data);
    return Ok(p);
  }

  method UnmarshalAuthenReply(buf: seq<byte>) returns (r: Option<AuthenReply>)
    ensures r == DecodeAuthenReply(buf)
  {
    var b := new ReadBuf(buf);
    if |b.b| < 6 { return None; }
    var status := b.Byte();
    var flags := b.Byte();
    var sl := b.Uint16();
    var dl := b.Uint16();
    if |b.b| < sl + dl { return None; }
    var serverMsg := b.Take(sl);
    var data := b.Take(dl);
    return Some(AuthenReply(status, Odd(flags), serverMsg, data));
  }

  lemma ResponseHeadParts(status: byte, second: byte, sl: nat, dl: nat)
    requires sl <= MAX_UINT16 && dl <= MAX_UINT16
    ensures var h := ResponseHead(status, second, sl, dl);
            && |h| == 6 && h[0] == status && h[1] == second
            && Uint16(h[2], h[3]) == sl && Uint16(h[4], h[5]) == dl
  {
  }

  lemma DecodeAuthenReplyOf(h: seq<byte>, msg: Text, data: Text, rest: seq<byte>)
    requires |h| == 6 && Uint16(h[2], h[3]) == |msg| && Uint16(h[4], h[5]) == |data|
    ensures DecodeAuthenReply(h + msg + data + rest) == Some(AuthenReply(h[0], Odd(h[1]), msg, data))
  {
    Cut4(h, msg, data, rest);
  }

  lemma AuthenReplyRoundTrip(a: AuthenReply, rest: seq<byte>)
    requires AuthenReplyProblem(a).None?
    ensures DecodeAuthenReply(EncodeAuthenReply(a) + rest) == Some(a)
  {
    ResponseHeadParts(a.status, Flag(a.noEcho), |a.serverMsg|, |a.data|);
    DecodeAuthenReplyOf(ResponseHead(a.status, Flag(a.noEcho), |a.serverMsg|, |a.data|), a.serverMsg, a.data, rest);
  }

  /** Only the lowest flag bit survives a decode, so re-encoding gives the bytes read iff the others were clear. */
  lemma AuthenReplyCanonical(b: seq<byte>, a: AuthenReply)
    requires DecodeAuthenReply(b) == Some(a)
    ensures AuthenReplyProblem(a).None?
    ensures EncodeAuthenReply(a) <= b <==> b[1] < 2
  {
    var d := 6 + Uint16(b[2], b[3]);
    var end := d + Uint16(b[4], b[5]);
    ResponseHeadParts(a.status, Flag(a.noEcho), |a.serverMsg|, |a.data|);
    var h, e := ResponseHead(a.status, Flag(a.noEcho), |a.serverMsg|, |a.data|), EncodeAuthenReply(a);
    assert e[1] == h[1] == Flag(a.noEcho);
    if b[1] < 2 {
      ResponseHeadOf(b);
      assert h == b[..6];
      Rejoin(b, 6, d, end, end, end);
      assert h + b[6..d] + b[d..end] == b[..end];
    }
  }

  // ---------------------------------------------------------------- AuthenContinue

  function AuthenContinueProblem(a: AuthenContinue): Option<MarshalError> {
    if |a.message| > MAX_UINT16 then Some(MessageTooLarge) else None
  }

  /** An abort carries its reason in the data field, an answer in the message field. */
  function EncodeAuthenContinue(a: AuthenContinue): seq<byte>
    requires AuthenContinueProblem(a).None?
  {
    FiveHead(if a.abort then 0 else |a.message|, if a.abort then |a.message| else 0, Flag(a.abort)) + a.message
  }

  function FiveHead(ml: nat, dl: nat, flags: byte): seq<byte>
    requires ml <= MAX_UINT16 && dl <= MAX_UINT16
  {
    FourBytes(ml, dl) + [flags]
  }

  function DecodeAuthenContinue(b: seq<byte>): Option<AuthenContinue> {
    if |b| < 5 then None else
    var d := 5 + Uint16(b[0], b[1]);
    var end := d + Uint16(b[2], b[3]);
    if |b| < end then None
    else if Odd(b[4]) then Some(AuthenContinue(true, b[d..end]))
    else Some(AuthenContinue(false, b[5..d]))
  }

  method MarshalAuthenContinue(a: AuthenContinue, b: seq<byte>) returns (r: Result<seq<byte>, MarshalError>)
    ensures match AuthenContinueProblem(a)
            case Some(e) => r == Err(e)
            case None => r == Ok(b + EncodeAuthenContinue(a))
  {
    if |a.message| > MAX_UINT16 { return Err(MessageTooLarge); }
    var p;
    if a.abort {
      p := AppendUint16(b, 0, |a.message|);
    } else {
      p := AppendUint16(b, |a.message|, 0);
    }
    p := p + [Flag(a.abort)];
    p := p + a.message;
    var ml, dl := if a.abort then 0 else |a.message|, if a.abort then |a.message| else 0;
    Appended3(b, FourBytes(ml, dl), [Flag(a.abort)], a.message);
    return Ok(p);
  }

  method UnmarshalAuthenContinue(buf: seq<byte>) returns (r: Option<AuthenContinue>)
    ensures r == DecodeAuthenContinue(buf)
  {
    var b := new ReadBuf(buf);
    if |b.b| < 5 { return None; }
    var ml := b.Uint16();
    var dl := b.Uint16();
    var flags := b.Byte();
    if |b.b| < ml + dl { return None; }
    var msg := b.Take(ml);
    var data := b.Take(dl);
    if Odd(flags) {
      return Some(AuthenContinue(true, data));
    } else {
      return Some(AuthenContinue(false, msg));
    }
  }

  lemma DecodeAuthenContinueOf(h: seq<byte>, text: Text, rest: seq<byte>)
    requires |h| == 5
    requires if h[4] == 1 then Uint16(h[0], h[1]) == 0 && Uint16(h[2], h[3]) == |text|
             else h[4] == 0 && Uint16(h[0], h[1]) == |text| && Uint16(h[2], h[3]) == 0
    ensures DecodeAuthenContinue(h + text + rest) == Some(AuthenContinue(h[4] == 1, text))
  {
    Cut3(h, text, rest);
  }

  lemma FiveHeadParts(ml: nat, dl: nat, flags: byte)
    requires ml <= MAX_UINT16 && dl <= MAX_UINT16
    ensures var h := FiveHead(ml, dl, flags);
            && |h| == 5 && Uint16(h[0], h[1]) == ml && Uint16(h[2], h[3]) == dl && h[4] == flags
  {
  }

  lemma AuthenContinueRoundTrip(a: AuthenContinue, rest: seq<byte>)
    requires AuthenContinueProblem(a).None?
    ensures DecodeAuthenContinue(EncodeAuthenContinue(a) + rest) == Some(a)
  {
    var ml := if a.abort then 0 else |a.message|;
    var dl := if a.abort then |a.message| else 0;
    FiveHeadParts(ml, dl, Flag(a.abort));
    DecodeAuthenContinueOf(FiveHead(ml, dl, Flag(a.abort)), a.message, rest);
  }

  /** The unused length and the other flag bits are not kept by a decode. */
  lemma AuthenContinueCanonical(b: seq<byte>, a: AuthenContinue)
    requires DecodeAuthenContinue(b) == Some(a)
    ensures AuthenContinueProblem(a).None?
    ensures EncodeAuthenContinue(a) <= b
       <==> b[4] < 2 && (if a.abort then Uint16(b[0], b[1]) == 0 else Uint16(b[2], b[3]) == 0)
  {
    var ml := if a.abort then 0 else |a.message|;
    var dl := if a.abort then |a.message| else 0;
    FiveHeadParts(ml, dl, Flag(a.abort));
    var h, e := FiveHead(ml, dl, Flag(a.abort)), EncodeAuthenContinue(a);
    assert forall x | 0 <= x < 5 :: e[x] == h[x];
    if b[4] < 2 && (if a.abort then Uint16(b[0], b[1]) == 0 else Uint16(b[2], b[3]) == 0) {
      FiveHeadOf(b);
      assert h == b[..5];
      Join(b, 0, 5, 5 + |a.message|);
    }
  }

  // ---------------------------------------------------------------- the tail shared by the two requests

  function RequestProblem(user: Text, port: Text, remAddr: Text, arg: seq<Text>): Option<MarshalError> {
    if |user| > MAX_UINT8 then Some(UserTooLarge)
    else if |port| > MAX_UINT8 then Some(PortTooLarge)
    else if |remAddr| > MAX_UINT8 then Some(RemAddrTooLarge)
    else if |arg| > MAX_UINT8 then Some(TooManyArgs)
    else if !Short(arg) then Some(ArgTooLong)
    else None
  }

  function EncodeTail(user: Text, port: Text, remAddr: Text, arg: seq<Text>): seq<byte>
    requires RequestProblem(user, port, remAddr, arg).None?
  {
    Lengths(|user|, |port|, |remAddr|, |arg|) + Lens(arg) + user + port + remAddr + Flat(arg)
  }

  function Lengths(ul: nat, pl: nat, rl: nat, ac: nat): (r: seq<byte>)
    requires ul <= MAX_UINT8 && pl <= MAX_UINT8 && rl <= MAX_UINT8 && ac <= MAX_UINT8
    ensures |r| == 4
  {
    [ul as byte, pl as byte, rl as byte, ac as byte]
  }

  /** Decode the part of `b` that starts at `at` with the four length bytes. */
  function DecodeTail(b: seq<byte>, at: nat): Option<(Text, Text, Text, seq<Text>)> {
    if |b| < at + 4 then None else
    var u := at + 4 + b[at + 3] as nat;
    var p := u + b[at] as nat;
    var r := p + b[at + 1] as nat;
    var end := r + b[at + 2] as nat;
    if |b| < end then None else
    match SplitArgs(b[at + 4..u], b[end..])
    case None => None
    case Some(arg) => Some((b[u..p], b[p..r], b[r..end], arg))
  }

  lemma HeadParts(head: seq<byte>, four: seq<byte>, lens: seq<byte>)
    requires |four| == 4
    ensures var h, at := head + four + lens, |head|;
            && h[at] == four[0] && h[at + 1] == four[1] && h[at + 2] == four[2] && h[at + 3] == four[3]
            && h[at + 4..] == lens
  {
  }

  lemma DecodeTailOf(head: seq<byte>, four: seq<byte>, lens: seq<byte>, user: Text, port: Text, remAddr: Text,
                     rest: seq<byte>)
    requires |four| == 4 && four[3] as nat == |lens|
    requires four[0] as nat == |user| && four[1] as nat == |port| && four[2] as nat == |remAddr|
    ensures DecodeTail((head + four + lens) + user + port + remAddr + rest, |head|)
         == match SplitArgs(lens, rest) case None => None case Some(arg) => Some((user, port, remAddr, arg))
  {
    var h := head + four + lens;
    HeadParts(head, four, lens);
    Cut(h, user, port, remAddr, rest);
    DecodeTailCut(h, |head|, user, port, remAddr, rest, h + user + port + remAddr + rest);
  }

  lemma DecodeTailCut(h: seq<byte>, at: nat, user: Text, port: Text, remAddr: Text, rest: seq<byte>, s: seq<byte>)
    requires at + 4 <= |h| <= |s| && h == s[..|h|] && |h| == at + 4 + h[at + 3] as nat
    requires h[at] as nat == |user| && h[at + 1] as nat == |port| && h[at + 2] as nat == |remAddr|
    requires var i := |h|;
             var j := i + |user|;
             var k := j + |port|;
             var l := k + |remAddr|;
             |s| >= l && s[i..j] == user && s[j..k] == port && s[k..l] == remAddr && s[l..] == rest
    ensures DecodeTail(s, at)
         == match SplitArgs(h[at + 4..], rest) case None => None case Some(arg) => Some((user, port, remAddr, arg))
  {
    assert forall x | 0 <= x < |h| :: s[x] == h[x];
    assert s[at + 4..|h|] == h[at + 4..];
  }

  lemma TailShape(head: seq<byte>, fl: seq<byte>, up: seq<byte>, remAddr: Text, flat: seq<byte>, rest: seq<byte>)
    ensures head + fl + up + remAddr + (flat + rest) == head + (fl + up + remAddr + flat) + rest
  {
  }

  lemma TailParts(head: seq<byte>, four: seq<byte>, l: seq<byte>, user: Text, port: Text, remAddr: Text,
                  flat: seq<byte>, rest: seq<byte>)
    ensures (head + four + l) + user + port + remAddr + (flat + rest)
         == head + (four + l + user + port + remAddr + flat) + rest
  {
    TailShape(head, four + l, user + port, remAddr, flat, rest);
    Assoc(head, four, l);
    Assoc(head + (four + l), user, port);
    Assoc(four + l, user, port);
  }

  lemma TailRoundTrip(head: seq<byte>, user: Text, port: Text, remAddr: Text, arg: seq<Text>, rest: seq<byte>)
    requires RequestProblem(user, port, remAddr, arg).None?
    ensures DecodeTail(head + EncodeTail(user, port, remAddr, arg) + rest, |head|) == Some((user, port, remAddr, arg))
  {
    var four := Lengths(|user|, |port|, |remAddr|, |arg|);
    TailParts(head, four, Lens(arg), user, port, remAddr, Flat(arg), rest);
    DecodeTailOf(head, four, Lens(arg), user, port, remAddr, Flat(arg) + rest);
    SplitArgsOfFlat(arg, rest);
  }

  lemma JoinTail(b: seq<byte>, at: nat, u: nat, p: nat, r: nat, end: nat, e: nat)
    requires at + 4 <= u <= p <= r <= end <= e <= |b|
    ensures b[..at] + (b[at..at + 4] + b[at + 4..u] + b[u..p] + b[p..r] + b[r..end] + b[end..e]) == b[..e] <= b
  {
    Join(b, at, at + 4, u);
    Join(b, at, u, p);
    Join(b, at, p, r);
    Join(b, at, r, end);
    Join(b, at, end, e);
    Join(b, 0, at, e);
  }

  lemma FlatPrefix(lens: seq<byte>, b: seq<byte>, end: nat) returns (e: nat)
    requires end <= |b| && SplitArgs(lens, b[end..]).Some?
    ensures var arg := SplitArgs(lens, b[end..]).value;
            end <= e <= |b| && Flat(arg) == b[end..e] && Short(arg) && Lens(arg) == lens
  {
    FlatOfSplitArgs(lens, b[end..]);
    var flat := Flat(SplitArgs(lens, b[end..]).value);
    e := end + |flat|;
    assert b[end..][..|flat|] == b[end..e];
  }

  lemma EncodeTailOf(b: seq<byte>, at: nat, u: nat, p: nat, r: nat, end: nat, e: nat, arg: seq<Text>)
    requires at + 4 <= u <= p <= r <= end <= e <= |b|
    requires p - u == b[at] as nat && r - p == b[at + 1] as nat && end - r == b[at + 2] as nat
    requires Short(arg) && |arg| == b[at + 3] as nat && Lens(arg) == b[at + 4..u] && Flat(arg) == b[end..e]
    ensures b[..at] + EncodeTail(b[u..p], b[p..r], b[r..end], arg) <= b
  {
    LengthsOf(b, at);
    JoinTail(b, at, u, p, r, end, e);
  }

  lemma TailCanonical(b: seq<byte>, at: nat, t: (Text, Text, Text, seq<Text>))
    requires DecodeTail(b, at) == Some(t)
    ensures RequestProblem(t.0, t.1, t.2, t.3).None?
    ensures b[..at] + EncodeTail(t.0, t.1, t.2, t.3) <= b
  {
    var u := at + 4 + b[at + 3] as nat;
    var p := u + b[at] as nat;
    var r := p + b[at + 1] as nat;
    var end := r + b[at + 2] as nat;
    var e := FlatPrefix(b[at + 4..u], b, end);
    assert t == (b[u..p], b[p..r], b[r..end], t.3);
    EncodeTailOf(b, at, u, p, r, end, e, t.3);
  }

  lemma LengthsOf(b: seq<byte>, at: nat)
    requires at + 4 <= |b|
    ensures Lengths(b[at] as nat, b[at + 1] as nat, b[at + 2] as nat, b[at + 3] as nat) == b[at..at + 4]
  {
  }

  /** Reading from the four length bytes on, as both requests do. */
  method UnmarshalTail(b: ReadBuf) returns (r: Option<(Text, Text, Text, seq<Text>)>)
    requires b.Valid() && |b.b| >= 4
    modifies b
    ensures r == DecodeTail(b.src, old(b.pos))
  {
    var ul, pl, rl, ac := b.FourBytes();
    if |b.b| < ul as nat + pl as nat + rl as nat + ac as nat { return None; }
    var al := b.Take(ac as nat);
    var user := b.Take(ul as nat);
    var port := b.Take(pl as nat);
    var remAddr := b.Take(rl as nat);
    var arg := b.Args(al);
    match arg {
      case None => return None;
      case Some(list) => return Some((user, port, remAddr, list));
    }
  }

  method MarshalTail(b: seq<byte>, user: Text, port: Text, remAddr: Text, arg: seq<Text>) returns (p: seq<byte>)
    requires RequestProblem(user, port, remAddr, arg).None?
    ensures p == b + EncodeTail(user, port, remAddr, arg)
  {
    p := b + [|user| as byte, |port| as byte, |remAddr| as byte, |arg| as byte];
    p := AppendLens(p, arg);
    p := p + user + port + remAddr;
    p := AppendArgs(p, arg);
    assert p == b + EncodeTail(user, port, remAddr, arg);
  }

  // ---------------------------------------------------------------- AuthorRequest

  function AuthorRequestProblem(a: AuthorRequest): Option<MarshalError> {
    RequestProblem(a.user, a.port, a.remAddr, a.arg)
  }

  function EncodeAuthorRequest(a: AuthorRequest): seq<byte>
    requires AuthorRequestProblem(a).None?
  {
    [a.authenMethod, a.privLvl, a.authenType, a.authenService] + EncodeTail(a.user, a.port, a.remAddr, a.arg)
  }

  function DecodeAuthorRequest(b: seq<byte>): Option<AuthorRequest> {
    match DecodeTail(b, 4)
    case None => None
    case Some(t) => Some(AuthorRequest(b[0], b[1], b[2], b[3], t.0, t.1, t.2, t.3))
  }

  method MarshalAuthorRequest(a: AuthorRequest, b: seq<byte>) returns (r: Result<seq<byte>, MarshalError>)
    ensures match AuthorRequestProblem(a)
            case Some(e) => r == Err(e)
            case None => r == Ok(b + EncodeAuthorRequest(a))
  {
    if |a.user| > MAX_UINT8 { return Err(UserTooLarge); }
    if |a.port| > MAX_UINT8 { return Err(PortTooLarge); }
    if |a.remAddr| > MAX_UINT8 { return Err(RemAddrTooLarge); }
    if |a.arg| > MAX_UINT8 { return Err(TooManyArgs); }
    var long := AnyArgTooLong(a.arg);
    if long { return Err(ArgTooLong); }
    var p := MarshalTail(b + [a.authenMethod, a.privLvl, a.authenType, a.authenService],
                         a.user, a.port, a.remAddr, a.arg);
    assert p == b + EncodeAuthorRequest(a);
    return Ok(p);
  }

  method UnmarshalAuthorRequest(buf: seq<byte>) returns (r: Option<AuthorRequest>)
    ensures r == DecodeAuthorRequest(buf)
  {
    var b := new ReadBuf(buf);
    if |b.b| < 8 { return None; }
    var authenMethod, privLvl, authenType, authenService := b.FourBytes();
    var tail := UnmarshalTail(b);
    match tail {
      case None => return None;
      case Some(t) => return Some(AuthorRequest(authenMethod, privLvl, authenType, authenService, t.0, t.1, t.2, t.3));
    }
  }

  lemma AuthorRequestRoundTrip(a: AuthorRequest, rest: seq<byte>)
    requires AuthorRequestProblem(a).None?
    ensures DecodeAuthorRequest(EncodeAuthorRequest(a) + rest) == Some(a)
  {
    TailRoundTrip([a.authenMethod, a.privLvl, a.authenType, a.authenService], a.user, a.port, a.remAddr, a.arg, rest);
  }

  lemma AuthorRequestCanonical(b: seq<byte>, a: AuthorRequest)
    requires DecodeAuthorRequest(b) == Some(a)
    ensures AuthorRequestProblem(a).None? && EncodeAuthorRequest(a) <= b
  {
    TailCanonical(b, 4, (a.user, a.port, a.remAddr, a.arg));
    assert b[..4] == [a.authenMethod, a.privLvl, a.authenType, a.authenService];
  }

  // ---------------------------------------------------------------- AuthorResponse

  function AuthorResponseProblem(a: AuthorResponse): Option<MarshalError> {
    if |a.arg| > MAX_UINT8 then Some(TooManyArgs)
    else if |a.serverMsg| > MAX_UINT16 then Some(ServerMsgTooLarge)
    else if |a.data| > MAX_UINT16 then Some(DataTooLarge)
    else if !Short(a.arg) then Some(ArgTooLong)
    else None
  }

  function EncodeAuthorResponse(a: AuthorResponse): seq<byte>
    requires AuthorResponseProblem(a).None?
  {
    ResponseHead(a.status, |a.arg| as byte, |a.serverMsg|, |a.data|) + Lens(a.arg) + a.serverMsg + a.data + Flat(a.arg)
  }

  function ResponseHead(status: byte, second: byte, sl: nat, dl: nat): seq<byte>
    requires sl <= MAX_UINT16 && dl <= MAX_UINT16
  {
    [status, second] + FourBytes(sl, dl)
  }

  function DecodeAuthorResponse(b: seq<byte>): Option<AuthorResponse> {
    if |b| < 6 then None else
    var m := 6 + b[1] as nat;
    var d := m + Uint16(b[2], b[3]);
    var end := d + Uint16(b[4], b[5]);
    if |b| < end then None else
    match SplitArgs(b[6..m], b[end..])
    case None => None
    case Some(arg) => Some(AuthorResponse(b[0], arg, b[m..d], b[d..end]))
  }

  method MarshalAuthorResponse(a: AuthorResponse, b: seq<byte>) returns (r: Result<seq<byte>, MarshalError>)
    ensures match AuthorResponseProblem(a)
            case Some(e) => r == Err(e)
            case None => r == Ok(b + EncodeAuthorResponse(a))
  {
    if |a.arg| > MAX_UINT8 { return Err(TooManyArgs); }
    if |a.serverMsg| > MAX_UINT16 { return Err(ServerMsgTooLarge); }
    if |a.data| > MAX_UINT16 { return Err(DataTooLarge); }
    var long := AnyArgTooLong(a.arg);
    if long { return Err(ArgTooLong); }
    var p := b + [a.status, |a.arg| as byte];
    p := AppendUint16(p, |a.serverMsg|, |a.data|);
    Assoc(b, [a.status, |a.arg| as byte], FourBytes(|a.serverMsg|, |a.data|));
    p := AppendLens(p, a.arg);
    p := p + a.serverMsg + a.data;
    p := AppendArgs(p, a.arg);
    Appended(b, ResponseHead(a.status, |a.arg| as byte, |a.serverMsg|, |a.data|), Lens(a.arg), a.serverMsg, a.data,
             Flat(a.arg));
    return Ok(p);
  }

  method UnmarshalAuthorResponse(buf: seq<byte>) returns (r: Option<AuthorResponse>)
    ensures r == DecodeAuthorResponse(buf)
  {
    var b := new ReadBuf(buf);
    if |b.b| < 6 { return None; }
    var status := b.Byte();
    var ac := b.Byte();
    var sl := b.Uint16();
    var dl := b.Uint16();
    if |b.b| < ac as nat + sl + dl { return None; }
    var al := b.Take(ac as nat);
    var serverMsg := b.Take(sl);
    var data := b.Take(dl);
    var arg := b.Args(al);
    match arg {
      case None => return None;
      case Some(list) => return Some(AuthorResponse(status, list, serverMsg, data));
    }
  }

  lemma DecodeAuthorResponseOf(h: seq<byte>, lens: seq<byte>, msg: Text, data: Text, rest: seq<byte>)
    requires |h| == 6 && h[1] as nat == |lens|
    requires Uint16(h[2], h[3]) == |msg| && Uint16(h[4], h[5]) == |data|
    ensures DecodeAuthorResponse(h + lens + msg + data + rest)
         == match SplitArgs(lens, rest) case None => None case Some(arg) => Some(AuthorResponse(h[0], arg, msg, data))
  {
    Cut(h, lens, msg, data, rest);
  }

  lemma AuthorResponseRoundTrip(a: AuthorResponse, rest: seq<byte>)
    requires AuthorResponseProblem(a).None?
    ensures DecodeAuthorResponse(EncodeAuthorResponse(a) + rest) == Some(a)
  {
    var h := ResponseHead(a.status, |a.arg| as byte, |a.serverMsg|, |a.data|);
    ResponseHeadParts(a.status, |a.arg| as byte, |a.serverMsg|, |a.data|);
    DecodeAuthorResponseOf(h, Lens(a.arg), a.serverMsg, a.data, Flat(a.arg) + rest);
    Assoc(h + Lens(a.arg) + a.serverMsg + a.data, Flat(a.arg), rest);
    SplitArgsOfFlat(a.arg, rest);
  }

  lemma ResponseHeadOf(b: seq<byte>)
    requires |b| >= 6
    ensures ResponseHead(b[0], b[1], Uint16(b[2], b[3]), Uint16(b[4], b[5])) == b[..6]
  {
    FourBytesOf(b[2], b[3], b[4], b[5]);
  }

  lemma EncodeAuthorResponseOf(b: seq<byte>, m: nat, d: nat, end: nat, e: nat, arg: seq<Text>)
    requires 6 <= m <= d <= end <= e <= |b|
    requires d - m == Uint16(b[2], b[3]) && end - d == Uint16(b[4], b[5])
    requires Short(arg) && |arg| == b[1] as nat && Lens(arg) == b[6..m] && Flat(arg) == b[end..e]
    ensures EncodeAuthorResponse(AuthorResponse(b[0], arg, b[m..d], b[d..end])) == b[..e]
  {
    ResponseHeadOf(b);
    Rejoin(b, 6, m, d, end, e);
    assert EncodeAuthorResponse(AuthorResponse(b[0], arg, b[m..d], b[d..end]))
        == b[..6] + b[6..m] + b[m..d] + b[d..end] + b[end..e];
  }

  lemma AuthorResponseCanonical(b: seq<byte>, a: AuthorResponse)
    requires DecodeAuthorResponse(b) == Some(a)
    ensures AuthorResponseProblem(a).None? && EncodeAuthorResponse(a) <= b
  {
    var m := 6 + b[1] as nat;
    var d := m + Uint16(b[2], b[3]);
    var end := d + Uint16(b[4], b[5]);
    var e := FlatPrefix(b[6..m], b, end);
    assert a == AuthorResponse(b[0], a.arg, b[m..d], b[d..end]);
    EncodeAuthorResponseOf(b, m, d, end, e, a.arg);
  }

  // ---------------------------------------------------------------- AcctRequest

  function AcctRequestProblem(a: AcctRequest): Option<MarshalError> {
    RequestProblem(a.user, a.port, a.remAddr, a.arg)
  }

  function EncodeAcctRequest(a: AcctRequest): seq<byte>
    requires AcctRequestProblem(a).None?
  {
    [a.flags, a.authenMethod, a.privLvl, a.authenType, a.authenService] + EncodeTail(a.user, a.port, a.remAddr, a.arg)
  }

  function DecodeAcctRequest(b: seq<byte>): Option<AcctRequest> {
    match DecodeTail(b, 5)
    case None => None
    case Some(t) => Some(AcctRequest(b[0], b[1], b[2], b[3], b[4], t.0, t.1, t.2, t.3))
  }

  method MarshalAcctRequest(a: AcctRequest, b: seq<byte>) returns (r: Result<seq<byte>, MarshalError>)
    ensures match AcctRequestProblem(a)
            case Some(e) => r == Err(e)
            case None => r == Ok(b + EncodeAcctRequest(a))
  {
    if |a.user| > MAX_UINT8 { return Err(UserTooLarge); }
    if |a.port| > MAX_UINT8 { return Err(PortTooLarge); }
    if |a.remAddr| > MAX_UINT8 { return Err(RemAddrTooLarge); }
    if |a.arg| > MAX_UINT8 { return Err(TooManyArgs); }
    var long := AnyArgTooLong(a.arg);
    if long { return Err(ArgTooLong); }
    var p := MarshalTail(b + [a.flags, a.authenMethod, a.privLvl, a.authenType, a.authenService],
                         a.user, a.port, a.remAddr, a.arg);
    assert p == b + EncodeAcctRequest(a);
    return Ok(p);
  }

  method UnmarshalAcctRequest(buf: seq<byte>) returns (r: Option<AcctRequest>)
    ensures r == DecodeAcctRequest(buf)
  {
    var b := new ReadBuf(buf);
    if |b.b| < 9 { return None; }
    var flags := b.Byte();
    var authenMethod, privLvl, authenType, authenService := b.FourBytes();
    var tail := UnmarshalTail(b);
    match tail {
      case None => return None;
      case Some(t) =>
        return Some(AcctRequest(flags, authenMethod, privLvl, authenType, authenService, t.0, t.1, t.2, t.3));
    }
  }

  lemma AcctRequestRoundTrip(a: AcctRequest, rest: seq<byte>)
    requires AcctRequestProblem(a).None?
    ensures DecodeAcctRequest(EncodeAcctRequest(a) + rest) == Some(a)
  {
    TailRoundTrip([a.flags, a.authenMethod, a.privLvl, a.authenType, a.authenService],
                  a.user, a.port, a.remAddr, a.arg, rest);
  }

  lemma AcctRequestCanonical(b: seq<byte>, a: AcctRequest)
    requires DecodeAcctRequest(b) == Some(a)
    ensures AcctRequestProblem(a).None? && EncodeAcctRequest(a) <= b
  {
    TailCanonical(b, 5, (a.user, a.port, a.remAddr, a.arg));
    assert b[..5] == [a.flags, a.authenMethod, a.privLvl, a.authenType, a.authenService];
  }

  // ---------------------------------------------------------------- AcctReply

  function AcctReplyProblem(a: AcctReply): Option<MarshalError> {
    if |a.serverMsg| > MAX_UINT16 then Some(ServerMsgTooLarge)
    else if |a.data| > MAX_UINT16 then Some(DataTooLarge)
    else None
  }

  function EncodeAcctReply(a: AcctReply): seq<byte>
    requires AcctReplyProblem(a).None?
  {
    FiveHead(|a.serverMsg|, |a.data|, a.status) + a.serverMsg + a.data
  }

  function DecodeAcctReply(b: seq<byte>): Option<AcctReply> {
    if |b| < 5 then None else
    var d := 5 + Uint16(b[0], b[1]);
    var end := d + Uint16(b[2], b[3]);
    if |b| < end then None
    else Some(AcctReply(b[4], b[5..d], b[d..end]))
  }

  method MarshalAcctReply(a: AcctReply, b: seq<byte>) returns (r: Result<seq<byte>, MarshalError>)
    ensures match AcctReplyProblem(a)
            case Some(e) => r == Err(e)
            case None => r == Ok(b + EncodeAcctReply(a))
  {
    if |a.serverMsg| > MAX_UINT16 { return Err(ServerMsgTooLarge); }
    if |a.data| > MAX_UINT16 { return Err(DataTooLarge); }
    var p := AppendUint16(b, |a.serverMsg|, |a.data|);
    p := p + [a.status];
    p := p + a.serverMsg + a.data;
    Appended4(b, FourBytes(|a.serverMsg|, |a.data|), [a.status], a.serverMsg, a.data);
    return Ok(p);
  }

  method UnmarshalAcctReply(buf: seq<byte>) returns (r: Option<AcctReply>)
    ensures r == DecodeAcctReply(buf)
  {
    var b := new ReadBuf(buf);
    if |b.b| < 5 { return None; }
    var sl := b.Uint16();
    var dl := b.Uint16();
    var status := b.Byte();
    if |b.b| < sl + dl { return None; }
    var serverMsg := b.Take(sl);
    var data := b.Take(dl);
    return Some(AcctReply(status, serverMsg, data));
  }

  lemma DecodeAcctReplyOf(h: seq<byte>, msg: Text, data: Text, rest: seq<byte>)
    requires |h| == 5 && Uint16(h[0], h[1]) == |msg| && Uint16(h[2], h[3]) == |data|
    ensures DecodeAcctReply(h + msg + data + rest) == Some(AcctReply(h[4], msg, data))
  {
    Cut4(h, msg, data, rest);
  }

  lemma AcctReplyRoundTrip(a: AcctReply, rest: seq<byte>)
    requires AcctReplyProblem(a).None?
    ensures DecodeAcctReply(EncodeAcctReply(a) + rest) == Some(a)
  {
    FiveHeadParts(|a.serverMsg|, |a.data|, a.status);
    DecodeAcctReplyOf(FiveHead(|a.serverMsg|, |a.data|, a.status), a.serverMsg, a.data, rest);
  }

  lemma FiveHeadOf(b: seq<byte>)
    requires |b| >= 5
    ensures FiveHead(Uint16(b[0], b[1]), Uint16(b[2], b[3]), b[4]) == b[..5]
  {
    FourBytesOf(b[0], b[1], b[2], b[3]);
  }

  lemma AcctReplyCanonical(b: seq<byte>, a: AcctReply)
    requires DecodeAcctReply(b) == Some(a)
    ensures AcctReplyProblem(a).None? && EncodeAcctReply(a) <= b
  {
    var d := 5 + Uint16(b[0], b[1]);
    var end := d + Uint16(b[2], b[3]);
    FiveHeadOf(b);
    Rejoin(b, 5, d, end, end, end);
    assert b[..5] + b[5..d] + b[d..end] == b[..end];
  }

  // ---------------------------------------------------------------- every body

  datatype Body =
    | Start(start: AuthenStart)
    | Reply(reply: AuthenReply)
    | Continue(cont: AuthenContinue)
    | AuthorReq(authorReq: AuthorRequest)
    | AuthorResp(authorResp: AuthorResponse)
    | AcctReq(acctReq: AcctRequest)
    | AcctRep(acctRep: AcctReply)

  function Problem(x: Body): Option<MarshalError> {
    match x
    case Start(a) => AuthenStartProblem(a)
    case Reply(a) => AuthenReplyProblem(a)
    case Continue(a) => AuthenContinueProblem(a)
    case AuthorReq(a) => AuthorRequestProblem(a)
    case AuthorResp(a) => AuthorResponseProblem(a)
    case AcctReq(a) => AcctRequestProblem(a)
    case AcctRep(a) => AcctReplyProblem(a)
  }

  function Encode(x: Body): seq<byte>
    requires Problem(x).None?
  {
    match x
    case Start(a) => EncodeAuthenStart(a)
    case Reply(a) => EncodeAuthenReply(a)
    case Continue(a) => EncodeAuthenContinue(a)
    case AuthorReq(a) => EncodeAuthorRequest(a)
    case AuthorResp(a) => EncodeAuthorResponse(a)
    case AcctReq(a) => EncodeAcctRequest(a)
    case AcctRep(a) => EncodeAcctReply(a)
  }

  /** Decode `b` as the kind of body that `like` is. */
  function DecodeLike(like: Body, b: seq<byte>): Option<Body> {
    match like
    case Start(_) => (match DecodeAuthenStart(b) case None => None case Some(a) => Some(Start(a)))
    case Reply(_) => (match DecodeAuthenReply(b) case None => None case Some(a) => Some(Reply(a)))
    case Continue(_) => (match DecodeAuthenContinue(b) case None => None case Some(a) => Some(Continue(a)))
    case AuthorReq(_) => (match DecodeAuthorRequest(b) case None => None case Some(a) => Some(AuthorReq(a)))
    case AuthorResp(_) => (match DecodeAuthorResponse(b) case None => None case Some(a) => Some(AuthorResp(a)))
    case AcctReq(_) => (match DecodeAcctRequest(b) case None => None case Some(a) => Some(AcctReq(a)))
    case AcctRep(_) => (match DecodeAcctReply(b) case None => None case Some(a) => Some(AcctRep(a)))
  }

  /** Whatever a marshaller accepts, the matching unmarshaller gives back, trailing bytes or not. */
  lemma RoundTrip(x: Body, rest: seq<byte>)
    requires Problem(x).None?
    ensures DecodeLike(x, Encode(x) + rest) == Some(x)
  {
    match x
    case Start(a) => AuthenStartRoundTrip(a, rest);
    case Reply(a) => AuthenReplyRoundTrip(a, rest);
    case Continue(a) => AuthenContinueRoundTrip(a, rest);
    case AuthorReq(a) => AuthorRequestRoundTrip(a, rest);
    case AuthorResp(a) => AuthorResponseRoundTrip(a, rest);
    case AcctReq(a) => AcctRequestRoundTrip(a, rest);
    case AcctRep(a) => AcctReplyRoundTrip(a, rest);
  }

  /** No marshalled body is longer than the size check of the reading side allows. */
  lemma BodyLength(x: Body)
    requires Problem(x).None?
    ensures |Encode(x)| <= MAX_BODY_LEN
  {
    match x
    case AuthorReq(a) => FlatLength(a.arg);
    case AuthorResp(a) => FlatLength(a.arg);
    case AcctReq(a) => FlatLength(a.arg);
    case _ =>
  }

  lemma {:induction false} FlatFull(arg: seq<Text>)
    requires Short(arg)
    ensures |Flat(arg)| == MAX_UINT8 * |arg| <==> forall i | 0 <= i < |arg| :: |arg[i]| == MAX_UINT8
  {
    if arg != [] {
      FlatFull(arg[1..]);
      FlatLength(arg[1..]);
      assert forall i | 0 <= i < |arg[1..]| :: arg[1..][i] == arg[i + 1];
      assert forall i | 0 < i < |arg| :: arg[i] == arg[1..][i - 1];
    }
  }

  /** The bound is met by the responses with 255 arguments of 255 bytes and both texts full, and by no other body. */
  lemma LongestBody(x: Body)
    requires Problem(x).None?
    ensures |Encode(x)| == MAX_BODY_LEN
       <==> x.AuthorResp? && |x.authorResp.serverMsg| == |x.authorResp.data| == MAX_UINT16
            && |x.authorResp.arg| == MAX_UINT8 && forall s | s in x.authorResp.arg :: |s| == MAX_UINT8
  {
    match x
    case AuthorReq(a) => FlatLength(a.arg);
    case AuthorResp(a) =>
      FlatLength(a.arg);
      FlatFull(a.arg);
      assert |Encode(x)| == 6 + |a.arg| + |a.serverMsg| + |a.data| + |Flat(a.arg)|;
    case AcctReq(a) => FlatLength(a.arg);
    case _ =>
  }
}
