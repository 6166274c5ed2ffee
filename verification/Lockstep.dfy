/**
A library client and a library server in conversation over one session, as a state machine.

A run is any list of actions; an action that is not possible in a state leaves it unchanged, so
every interleaving of the two ends and of the network is some list. Every check that either end
makes is a branch of `Step` that records a fault; the theorem is that no run records one.
*/
module Lockstep {
  import opened Bytes
  import opened Results
  import opened Packets
  import opened Sessions
  import Framing

  const HDR_LEN := 12

  const TYPE_AUTHEN: byte := 1
  const TYPE_AUTHOR: byte := 2
  const TYPE_ACCT: byte := 3

  datatype Fault = QueueFull | Refused(e: SeqError) | BadPacket | BadVersion | BadType | StrayAccepted

  /** `Waiting` for a reply, `Ready` to continue after a prompt. */
  datatype ClientPhase = Unstarted | Waiting | Ready | Closed

  /** `Reading` the next packet, `Holding` a decoded request that has not been answered. */
  datatype ServerPhase = NoSession | Reading | Holding | Done

  datatype Action =
    | Request(x: Body)
    | Answer(msg: Text)
    | GiveUp(reason: Text)
    | CloseClient
    | ServerNetwork
    | ServerRead
    | Respond(x: Body)
    | Quit
    | ClientNetwork
    | ClientRead

  /** A raw packet holds at least a header; what follows a header is built on the header alone. */
  type Raw = Framing.Raw
  type Header = p: seq<byte> | |p| == HDR_LEN witness NoHeader()

  function NoHeader(): seq<byte> {
    [0, 0, 0, 0, 0, 0, 0, 0, 0, 0, 0, 0]
  }

  /**
  How a body becomes a raw packet on top of a header, and how the packet that follows number `last` is
  checked and decoded by one end as a body of the kind of `like`.
  */
  datatype Codec = Codec(
    write: (Header, Body) -> Option<Raw>,
    read: (byte, bool, Raw, Body) -> Result<(Header, Body), Fault>)

  datatype Config = Config(codec: Codec, id: seq<byte>, clientFlags: byte, multiplexing: bool)

  predicate SameKind(x: Body, y: Body) {
    && x.Start? == y.Start? && x.Reply? == y.Reply? && x.Continue? == y.Continue?
    && x.AuthorReq? == y.AuthorReq? && x.AuthorResp? == y.AuthorResp?
    && x.AcctReq? == y.AcctReq? && x.AcctRep? == y.AcctRep?
  }

  /** The other end reads from `w` exactly the body x, on the header of w. */
  ghost predicate Readable(codec: Codec, last: byte, w: Raw, x: Body) {
    forall client, like | SameKind(like, x) && Odd(w[2]) != client ::
      codec.read(last, client, w, like) == Ok((w[..HDR_LEN], x))
  }

  ghost predicate Faithful(codec: Codec) {
    forall h: Header, x: Body :: codec.write(h, x).Some? ==>
      var w := codec.write(h, x).value;
      w[0] == h[0] && w[1] == h[1] && w[2] == Succ(h[2]) && Readable(codec, h[2], w, x)
  }

  ghost predicate ValidConfig(c: Config) {
    |c.id| == 4 && Faithful(c.codec)
  }

  // ---------------------------------------------------------------- the library's codec

  /** `marshal` and `writePacket`. */
  function Write(k: Secret, h: Header, x: Body): Option<Raw> {
    if Problem(x).Some? then None
    else
      BodyLength(x);
      Some(Outgoing(k, h + Encode(x)))
  }

  /** `readPacket` and `unmarshal`. */
  function Read(k: Secret, last: byte, client: bool, w: Raw, like: Body): Result<(Header, Body), Fault> {
    match Incoming(k, last, client, w)
    case Err(e) => Err(Refused(e))
    case Ok(p) =>
      match DecodeLike(like, p[HDR_LEN..])
      case None => Err(BadPacket)
      case Some(x) => Ok((p[..HDR_LEN], x))
  }

  function Library(k: Secret): Codec {
    Codec((h: Header, x: Body) => Write(k, h, x),
          (last: byte, client: bool, w: Raw, like: Body) => Read(k, last, client, w, like))
  }

  lemma DecodeLikeKind(like: Body, x: Body, b: seq<byte>)
    requires SameKind(like, x)
    ensures DecodeLike(like, b) == DecodeLike(x, b)
  {
  }

  lemma ReadOfWrite(k: Secret, h: Header, x: Body, client: bool, like: Body)
    requires Problem(x).None? && SameKind(like, x) && Odd(Succ(h[2])) != client
    ensures var w := Write(k, h, x).value;
            w[0] == h[0] && w[1] == h[1] && w[2] == Succ(h[2])
            && Read(k, h[2], client, w, like) == Ok((w[..HDR_LEN], x))
  {
    BodyLength(x);
    var body := Encode(x);
    var p := h + body;
    IncomingOfOutgoing(k, p, client);
    HeaderBytes(Outgoing(k, p), Stamp(p));
    assert p[HDR_LEN..] == body == body + [];
    RoundTrip(x, []);
    DecodeLikeKind(like, x, body);
  }

  lemma LibraryIsFaithful(k: Secret)
    ensures Faithful(Library(k))
  {
    forall h: Header, x: Body | Library(k).write(h, x).Some?
      ensures var w := Library(k).write(h, x).value;
              w[0] == h[0] && w[1] == h[1] && w[2] == Succ(h[2]) && Readable(Library(k), h[2], w, x)
    {
      var w := Write(k, h, x).value;
      ReadOfWrite(k, h, x, !Odd(Succ(h[2])), x);
      forall client, like | SameKind(like, x) && Odd(w[2]) != client
        ensures Library(k).read(h[2], client, w, like) == Ok((w[..HDR_LEN], x))
      {
        ReadOfWrite(k, h, x, client, like);
      }
    }
  }

  /** Whatever packets an end writes, the reading end cuts them out of the byte stream again, one by one. */
  lemma WrittenPacketsAreFramed(k: Secret, hs: seq<Header>, xs: seq<Body>, ws: seq<Raw>)
    requires |hs| == |xs| == |ws|
    requires forall i | 0 <= i < |ws| :: Framing.MajorVersionOk(hs[i][0]) && Write(k, hs[i], xs[i]) == Some(ws[i])
    ensures Framing.Frames(Framing.Concat(ws), Framing.EOF) == (ws, Framing.EOF)
  {
    forall i | 0 <= i < |ws| ensures Framing.WellFormed(ws[i]) {
      OutgoingWellFormed(k, hs[i], xs[i]);
    }
    Framing.FramesOfConcat(ws, [], [], Framing.EOF);
    assert Framing.Concat(ws) + [] == Framing.Concat(ws);
  }

  // ---------------------------------------------------------------- the state

  datatype State = State(
    cPhase: ClientPhase, cSeq: byte, cHdr: Header, cIn: seq<Raw>,
    sPhase: ServerPhase, sSeq: byte, sHdr: Header, sIn: seq<Raw>,
    toServer: seq<Raw>, toClient: seq<Raw>,
    // what was sent and what was decoded; of every packet in the order of writing its number, and whether the client
    // wrote it
    cSent: seq<Body>, sGot: seq<Body>, sSent: seq<Body>, cGot: seq<Body>, numbers: seq<byte>, byClient: seq<bool>,
    fault: Option<Fault>)

  function Init(): State {
    State(Unstarted, 0, NoHeader(), [], NoSession, 0, NoHeader(), [], [], [], [], [], [], [], [], [], None)
  }

  // ---------------------------------------------------------------- the client

  predicate IsRequest(x: Body) {
    x.Start? || x.AuthorReq? || x.AcctReq?
  }

  function TypeOf(x: Body): byte {
    match x
    case Start(_) => TYPE_AUTHEN
    case Reply(_) => TYPE_AUTHEN
    case Continue(_) => TYPE_AUTHEN
    case AuthorReq(_) => TYPE_AUTHOR
    case AuthorResp(_) => TYPE_AUTHOR
    case AcctReq(_) => TYPE_ACCT
    case AcctRep(_) => TYPE_ACCT
  }

  function VersionOf(x: Body): byte {
    if x.Start? then Version(x.start) else VER_DEFAULT
  }

  /** `startSession`: the header of the first packet, with sequence number and length still zero. */
  function FirstHeader(c: Config, x: Body): Header
    requires |c.id| == 4
  {
    [VersionOf(x), TypeOf(x), 0, c.clientFlags] + c.id + [0, 0, 0, 0]
  }

  /** `sendRequest`: the session is closed when the body cannot be marshalled. */
  function ClientSend(s: State, number: byte, x: Body, w: Option<Raw>, next: ClientPhase): State {
    match w
    case None => s.(cPhase := Closed)
    case Some(p) =>
      s.(cPhase := next, cSeq := number, toServer := s.toServer + [p], cSent := s.cSent + [x],
         numbers := s.numbers + [number], byClient := s.byClient + [true])
  }

  function ClientWrites(c: Config, s: State, h: Header, x: Body, next: ClientPhase): State {
    ClientSend(s, Succ(h[2]), x, c.codec.write(h, x), next)
  }

  /** `Abort` truncates its reason. */
  function AbortBody(reason: Text): Body {
    Continue(AuthenContinue(true, if |reason| > MAX_UINT16 then reason[..MAX_UINT16] else reason))
  }

  /** The reply a client decodes for a session of the given type. */
  function ReplyKind(t: byte): Body {
    if t == TYPE_AUTHEN then Reply(AuthenReply(0, false, [], []))
    else if t == TYPE_AUTHOR then AuthorResp(AuthorResponse(0, [], [], []))
    else AcctRep(AcctReply(0, [], []))
  }

  predicate EndsSession(x: Body) {
    !x.Reply? || Last(x.reply)
  }

  function ClientReads(s: State, r: Result<(Header, Body), Fault>): State {
    match r
    case Err(e) => s.(fault := Some(e))
    case Ok((h, x)) => s.(cPhase := if EndsSession(x) then Closed else Ready, cHdr := h, cGot := s.cGot + [x])
  }

  // ---------------------------------------------------------------- the server

  /** The first packet of a session is decoded by its type; later ones are answers. */
  function RequestKind(s: State, w: Raw): Option<Body> {
    if s.sGot != [] then Some(Continue(AuthenContinue(false, [])))
    else if w[1] == TYPE_AUTHEN then Some(Start(AuthenStart(0, 0, 0, 0, [], [], [], [])))
    else if w[1] == TYPE_AUTHOR then Some(AuthorReq(AuthorRequest(0, 0, 0, 0, [], [], [], [])))
    else if w[1] == TYPE_ACCT then Some(AcctReq(AcctRequest(0, 0, 0, 0, 0, [], [], [], [])))
    else None
  }

  /** A first packet must carry the version that goes with its body. */
  function ServerReads(s: State, r: Result<(Header, Body), Fault>): State {
    match r
    case Err(e) => s.(fault := Some(e))
    case Ok((h, x)) =>
      if IsRequest(x) && h[0] != VersionOf(x) then s.(fault := Some(BadVersion))
      else s.(sPhase := Holding, sHdr := h, sGot := s.sGot + [x])
  }

  /** `ServerSession.writePacket` masks the flags in the first reply. */
  function ReplyHeader(c: Config, hdr: Header): (r: Header)
    ensures r[0] == hdr[0] && r[1] == hdr[1] && r[2] == hdr[2]
  {
    if hdr[2] != 1 then hdr
    else hdr[3 := if c.multiplexing && SingleConnect(hdr[3]) then 4 else 0]
  }

  /** Bit 2 of the flags. */
  predicate SingleConnect(flags: byte) {
    if flags < 8 then flags >= 4 else SingleConnect(flags - 8)
  }

  // ---------------------------------------------------------------- the steps

  function ServerSends(s: State, number: byte, x: Body, w: Option<Raw>): State {
    match w
    case None => s
    case Some(p) =>
      s.(sPhase := if EndsSession(x) then Done else Reading, sSeq := number, toClient := s.toClient + [p],
         sSent := s.sSent + [x], numbers := s.numbers + [number], byClient := s.byClient + [false])
  }

  function Step(c: Config, s: State, a: Action): State
    requires |c.id| == 4
  {
    match a
    case Request(x) =>
      if s.cPhase == Unstarted && IsRequest(x) then ClientWrites(c, s, FirstHeader(c, x), x, Waiting) else s
    case Answer(msg) =>
      if s.cPhase != Ready then s
      // sequence number too large to continue
      else if s.cSeq >= 0xfe then ClientWrites(c, s, s.cHdr, AbortBody([]), Closed)
      else ClientWrites(c, s, s.cHdr, Continue(AuthenContinue(false, msg)), Waiting)
    case GiveUp(reason) =>
      if s.cPhase == Ready then ClientWrites(c, s, s.cHdr, AbortBody(reason), Closed) else s
    case CloseClient =>
      if s.cPhase == Ready then s.(cPhase := Closed) else s
    case ServerNetwork =>
      if s.toServer == [] then s else ServerQueues(s.(toServer := s.toServer[1..]), s.toServer[0])
    case ServerRead =>
      if s.sPhase != Reading || s.sIn == [] then s
      else
        var (w, t) := (s.sIn[0], s.(sIn := s.sIn[1..]));
        (match RequestKind(s, w)
         case None => t.(fault := Some(BadType))
         case Some(like) => ServerReads(t, c.codec.read(s.sSeq, false, w, like)))
    case Respond(x) =>
      if s.sPhase == Holding && !IsRequest(x) && !x.Continue? && TypeOf(x) == s.sHdr[1] then
        var h := ReplyHeader(c, s.sHdr);
        ServerSends(s, Succ(h[2]), x, c.codec.write(h, x))
      else s
    case Quit =>
      if s.sPhase == Holding then s.(sPhase := Done) else s
    case ClientNetwork =>
      if s.toClient == [] then s else ClientQueues(s.(toClient := s.toClient[1..]), s.toClient[0])
    case ClientRead =>
      if s.cPhase != Waiting || s.cIn == [] then s
      else
        var w := s.cIn[0];
        ClientReads(s.(cIn := s.cIn[1..]), c.codec.read(s.cSeq, true, w, ReplyKind(w[1])))
  }

  /** `processPacket` at the server: a packet for an unknown session opens one. */
  function ServerQueues(s: State, w: Raw): State {
    if s.sIn != [] then s.(fault := Some(QueueFull))
    else if s.sPhase == Done then s.(fault := Some(StrayAccepted))
    else s.(sIn := [w], sPhase := if s.sPhase == NoSession then Reading else s.sPhase)
  }

  /**
  `processPacket` at the client. When the session is gone, a new one is made for the packet, whose handler
  reads it and logs the error; a stray packet that passed the check would be accepted unnoticed.
  */
  function ClientQueues(s: State, w: Raw): State {
    if s.cPhase == Closed then
      if Check(0, true, w).None? then s.(fault := Some(StrayAccepted)) else s
    else if s.cIn != [] then s.(fault := Some(QueueFull))
    else s.(cIn := [w])
  }

  // ---------------------------------------------------------------- the invariant

  function Final<T>(xs: seq<T>): T
    requires xs != []
  {
    xs[|xs| - 1]
  }

  function ButFinal<T>(xs: seq<T>): seq<T>
    requires xs != []
  {
    xs[..|xs| - 1]
  }

  /** The raw packet `w` is number n of its session and carries the body x. */
  ghost predicate Carries(c: Config, w: Raw, x: Body, n: nat, first: Body) {
    n > 0 && Numbered(w, n, first) && Readable(c.codec, SeqNo(n - 1), w, x)
  }

  ghost predicate Numbered(h: Raw, n: nat, first: Body) {
    h[0] == VersionOf(first) && h[1] == TypeOf(first) && h[2] == SeqNo(n)
  }

  ghost predicate Quiet(s: State) {
    s.cIn == [] && s.sIn == [] && s.toServer == [] && s.toClient == []
  }

  ghost predicate Counted(numbers: seq<byte>) {
    forall i | 0 <= i < |numbers| :: numbers[i] == SeqNo(i + 1)
  }

  lemma CountedOneMore(numbers: seq<byte>)
    requires Counted(numbers)
    ensures Counted(numbers + [SeqNo(|numbers| + 1)])
  {
  }

  /** The client's packets carry odd numbers and the server's even ones. */
  ghost predicate OddByClient(numbers: seq<byte>, byClient: seq<bool>) {
    |byClient| == |numbers| && forall i | 0 <= i < |numbers| :: byClient[i] == Odd(numbers[i])
  }

  lemma OddOneMore(numbers: seq<byte>, byClient: seq<bool>, number: byte)
    requires OddByClient(numbers, byClient)
    ensures OddByClient(numbers + [number], byClient + [Odd(number)])
  {
  }

  /** A request, then answers. */
  ghost predicate Dialogue(sent: seq<Body>) {
    sent != [] ==> IsRequest(sent[0]) && forall i | 0 < i < |sent| :: sent[i].Continue?
  }

  lemma DialogueOneMore(sent: seq<Body>, x: Body)
    requires Dialogue(sent) && if sent == [] then IsRequest(x) else x.Continue?
    ensures Dialogue(sent + [x])
  {
  }

  ghost predicate Common(s: State) {
    && s.fault == None
    && |s.numbers| == |s.cSent| + |s.sSent|
    && Counted(s.numbers) && OddByClient(s.numbers, s.byClient) && Dialogue(s.cSent)
    && |s.numbers| <= (if s.cPhase == Closed then 258 else 256)
  }

  /** Nothing has been written yet, and perhaps never will be. */
  ghost predicate Silent(s: State) {
    && Quiet(s) && s.numbers == [] && s.cPhase in {Unstarted, Closed} && s.cSeq == 0
    && s.sPhase == NoSession && s.sSeq == 0 && s.sGot == [] && s.cGot == []
  }

  /** The client wrote last. */
  ghost predicate ClientSpoke(s: State) {
    && |s.cSent| == |s.sSent| + 1 && s.numbers != []
    && s.cPhase in {Waiting, Closed} && s.cSeq == SeqNo(|s.numbers|) && s.cGot == s.sSent
    && s.cIn == [] && s.toClient == []
    && s.sSeq == SeqNo(|s.numbers| - 1)
    && (s.sSent != [] ==> s.cSent[0].Start?)
  }

  ghost predicate TowardsServer(c: Config, s: State) {
    && ClientSpoke(s)
    && s.sGot == ButFinal(s.cSent)
    && var w := s.toServer + s.sIn;
       && |w| == 1 && Carries(c, w[0], Final(s.cSent), |s.numbers|, s.cSent[0])
       && s.sPhase == if s.sIn == [] && |s.cSent| == 1 then NoSession else Reading
  }

  ghost predicate AtServer(s: State) {
    && ClientSpoke(s) && Quiet(s) && s.sGot == s.cSent && s.sPhase in {Holding, Done}
    && Numbered(s.sHdr, |s.numbers|, s.cSent[0])
  }

  /** The server wrote last. */
  ghost predicate ServerSpoke(s: State) {
    && |s.cSent| == |s.sSent| != 0 && s.numbers != []
    && s.cSeq == SeqNo(|s.numbers| - 1) && s.sSeq == SeqNo(|s.numbers|) && s.sGot == s.cSent
    && s.sIn == [] && s.toServer == []
    && s.sPhase == (if EndsSession(Final(s.sSent)) then Done else Reading)
    && (!EndsSession(Final(s.sSent)) ==> s.cSent[0].Start?)
    && !IsRequest(Final(s.sSent)) && !Final(s.sSent).Continue? && TypeOf(Final(s.sSent)) == TypeOf(s.cSent[0])
  }

  ghost predicate TowardsClient(c: Config, s: State) {
    && ServerSpoke(s)
    && s.cPhase in {Waiting, Closed} && (s.cIn != [] ==> s.cPhase == Waiting)
    && s.cGot == ButFinal(s.sSent)
    && var w := s.toClient + s.cIn;
       |w| == 1 && Carries(c, w[0], Final(s.sSent), |s.numbers|, s.cSent[0])
  }

  ghost predicate AtClient(s: State) {
    && ServerSpoke(s) && Quiet(s) && s.cPhase in {Ready, Closed}
    && s.cGot <= s.sSent && (s.cPhase == Ready ==> s.cGot == s.sSent && !EndsSession(Final(s.sSent)))
    && (s.cPhase == Ready ==> Numbered(s.cHdr, |s.numbers|, s.cSent[0]))
  }

  ghost predicate Inv(c: Config, s: State) {
    && Common(s)
    && (Silent(s) || TowardsServer(c, s) || AtServer(s) || TowardsClient(c, s) || AtClient(s))
  }

  // ---------------------------------------------------------------- every action keeps the invariant

  lemma {:induction false} Parity(n: nat)
    ensures !Odd(SeqNo(2 * n)) && Odd(SeqNo(2 * n + 1))
  {
    if n != 0 {
      Parity(n - 1);
      SeqNoParity(2 * n - 1);
    }
    SeqNoParity(2 * n);
  }

  lemma ClientSendKeeps(c: Config, s: State, number: byte, x: Body, w: Option<Raw>, next: ClientPhase)
    requires Inv(c, s) && next in {Waiting, Closed} && number == SeqNo(|s.numbers| + 1)
    requires (Silent(s) && s.cPhase == Unstarted && IsRequest(x) && next == Waiting)
          || (AtClient(s) && s.cPhase == Ready && x.Continue? && (next == Waiting ==> |s.numbers| <= 254))
    requires w.Some? ==> Carries(c, w.value, x, |s.numbers| + 1, (s.cSent + [x])[0])
    ensures Inv(c, ClientSend(s, number, x, w, next))
  {
    if w.Some? {
      var t := ClientSend(s, number, x, w, next);
      CountedOneMore(s.numbers);
      Parity(|s.sSent|);
      OddOneMore(s.numbers, s.byClient, number);
      DialogueOneMore(s.cSent, x);
      assert t.toServer + t.sIn == [w.value];
      assert ButFinal(t.cSent) == s.cSent;
      assert TowardsServer(c, t);
    }
  }

  lemma ClientWritesKeeps(c: Config, s: State, h: Header, x: Body, next: ClientPhase)
    requires Inv(c, s) && ValidConfig(c) && next in {Waiting, Closed}
    requires (Silent(s) && s.cPhase == Unstarted && IsRequest(x) && h == FirstHeader(c, x) && next == Waiting)
          || (AtClient(s) && s.cPhase == Ready && h == s.cHdr && x.Continue? &&
              (next == Waiting ==> |s.numbers| <= 254))
    ensures Inv(c, ClientWrites(c, s, h, x, next))
  {
    assert Numbered(h, |s.numbers|, (s.cSent + [x])[0]);
    ClientSendKeeps(c, s, Succ(h[2]), x, c.codec.write(h, x), next);
  }

  lemma ClientActs(c: Config, s: State, a: Action)
    requires Inv(c, s) && ValidConfig(c) && (a.Request? || a.Answer? || a.GiveUp? || a.CloseClient?)
    ensures Inv(c, Step(c, s, a))
  {
    match a
    case Request(x) =>
      if s.cPhase == Unstarted && IsRequest(x) { ClientWritesKeeps(c, s, FirstHeader(c, x), x, Waiting); }
    case Answer(msg) =>
      if s.cPhase == Ready {
        SeqNoExact(|s.numbers| - 1);
        if s.cSeq >= 0xfe {
          ClientWritesKeeps(c, s, s.cHdr, AbortBody([]), Closed);
        } else {
          ClientWritesKeeps(c, s, s.cHdr, Continue(AuthenContinue(false, msg)), Waiting);
        }
      }
    case GiveUp(reason) =>
      if s.cPhase == Ready { ClientWritesKeeps(c, s, s.cHdr, AbortBody(reason), Closed); }
    case CloseClient =>
  }

  lemma ServerNetworkActs(c: Config, s: State)
    requires Inv(c, s) && |c.id| == 4 && s.toServer != []
    ensures Inv(c, Step(c, s, ServerNetwork))
  {
    assert TowardsServer(c, s);
    var t := ServerQueues(s.(toServer := s.toServer[1..]), s.toServer[0]);
    assert s.toServer == [s.toServer[0]] && s.sIn == [];
    assert t.toServer + t.sIn == s.toServer + s.sIn;
    assert TowardsServer(c, t);
  }

  lemma ClientNetworkActs(c: Config, s: State)
    requires Inv(c, s) && |c.id| == 4 && s.toClient != []
    ensures Inv(c, Step(c, s, ClientNetwork))
  {
    assert TowardsClient(c, s);
    var t := ClientQueues(s.(toClient := s.toClient[1..]), s.toClient[0]);
    assert s.toClient == [s.toClient[0]] && s.cIn == [];
    if s.cPhase == Closed {
      Parity(|s.sSent|);
      assert AtClient(t);
    } else {
      assert t.toClient + t.cIn == s.toClient + s.cIn;
      assert TowardsClient(c, t);
    }
  }

  /** What arrives is the packet that the other end wrote last. */
  lemma ArrivedIsFinal(c: Config, s: State)
    requires Inv(c, s)
    ensures s.sPhase == Reading && s.sIn != [] ==> TowardsServer(c, s) && |s.sIn| == 1 && s.toServer == []
    ensures s.cPhase == Waiting && s.cIn != [] ==> TowardsClient(c, s) && |s.cIn| == 1 && s.toClient == []
  {
    if s.sPhase == Reading && s.sIn != [] { assert |s.toServer + s.sIn| == 1; }
    if s.cPhase == Waiting && s.cIn != [] { assert |s.toClient + s.cIn| == 1; }
  }

  lemma ServerReadsFinal(c: Config, s: State)
    requires TowardsServer(c, s) && |c.id| == 4 && s.sPhase == Reading && |s.sIn| == 1 && s.toServer == []
    requires Dialogue(s.cSent) && |s.numbers| == |s.cSent| + |s.sSent|
    ensures Step(c, s, ServerRead) ==
      s.(sIn := [], sPhase := Holding, sHdr := s.sIn[0][..HDR_LEN], sGot := s.sGot + [Final(s.cSent)])
  {
    var w, x := s.sIn[0], Final(s.cSent);
    assert (s.toServer + s.sIn)[0] == w && s.sIn[1..] == [];
    Parity(|s.sSent|);
    assert SameKind(RequestKind(s, w).value, x);
  }

  lemma ServerReadActs(c: Config, s: State)
    requires Inv(c, s) && |c.id| == 4 && s.sPhase == Reading && s.sIn != []
    ensures Inv(c, Step(c, s, ServerRead))
  {
    ArrivedIsFinal(c, s);
    ServerReadsFinal(c, s);
    var t := Step(c, s, ServerRead);
    assert (s.toServer + s.sIn)[0] == s.sIn[0];
    assert t.sGot == s.cSent;
    assert AtServer(t);
  }

  lemma ClientReadsFinal(c: Config, s: State)
    requires TowardsClient(c, s) && |c.id| == 4 && s.cPhase == Waiting && |s.cIn| == 1 && s.toClient == []
    requires |s.numbers| == |s.cSent| + |s.sSent|
    ensures Step(c, s, ClientRead) == s.(cIn := [], cPhase := if EndsSession(Final(s.sSent)) then Closed else Ready,
                                         cHdr := s.cIn[0][..HDR_LEN], cGot := s.cGot + [Final(s.sSent)])
  {
    var w, x := s.cIn[0], Final(s.sSent);
    assert (s.toClient + s.cIn)[0] == w && s.cIn[1..] == [];
    Parity(|s.sSent|);
    assert SameKind(ReplyKind(w[1]), x);
  }

  lemma ClientReadActs(c: Config, s: State)
    requires Inv(c, s) && |c.id| == 4 && s.cPhase == Waiting && s.cIn != []
    ensures Inv(c, Step(c, s, ClientRead))
  {
    ArrivedIsFinal(c, s);
    ClientReadsFinal(c, s);
    var t := Step(c, s, ClientRead);
    assert (s.toClient + s.cIn)[0] == s.cIn[0];
    assert t.cGot == s.sSent;
    assert AtClient(t);
  }

  lemma ServerSendKeeps(c: Config, s: State, number: byte, x: Body, w: Raw)
    requires Inv(c, s) && AtServer(s) && s.sPhase == Holding && number == SeqNo(|s.numbers| + 1)
    requires !IsRequest(x) && !x.Continue? && TypeOf(x) == TypeOf(s.cSent[0])
    requires Carries(c, w, x, |s.numbers| + 1, s.cSent[0])
    ensures Inv(c, ServerSends(s, number, x, Some(w)))
  {
    var t := ServerSends(s, number, x, Some(w));
    CountedOneMore(s.numbers);
    Parity(|s.sSent| + 1);
    OddOneMore(s.numbers, s.byClient, number);
    assert t.toClient + t.cIn == [w];
    assert ButFinal(t.sSent) == s.sSent;
    assert TowardsClient(c, t);
  }

  lemma HoldingIsAtServer(c: Config, s: State)
    requires Inv(c, s) && s.sPhase == Holding
    ensures AtServer(s)
  {
  }

  lemma ReplyCarries(c: Config, h: Header, x: Body, n: nat, first: Body)
    requires ValidConfig(c) && Numbered(h, n, first) && n > 0 && TypeOf(x) == h[1]
    requires !IsRequest(x) && c.codec.write(h, x).Some?
    ensures Carries(c, c.codec.write(h, x).value, x, n + 1, first)
  {
  }

  lemma RespondStep(c: Config, s: State, x: Body)
    requires |c.id| == 4 && s.sPhase == Holding && !IsRequest(x) && !x.Continue? && TypeOf(x) == s.sHdr[1]
    ensures var h := ReplyHeader(c, s.sHdr);
      Step(c, s, Respond(x)) == ServerSends(s, Succ(h[2]), x, c.codec.write(h, x))
  {
  }

  lemma RespondActs(c: Config, s: State, x: Body)
    requires Inv(c, s) && ValidConfig(c)
    requires s.sPhase == Holding && !IsRequest(x) && !x.Continue? && TypeOf(x) == s.sHdr[1]
    ensures Inv(c, Step(c, s, Respond(x)))
  {
    HoldingIsAtServer(c, s);
    var h := ReplyHeader(c, s.sHdr);
    var n := |s.numbers|;
    RespondStep(c, s, x);
    var w := c.codec.write(h, x);
    if w.Some? {
      ReplyCarries(c, h, x, n, s.cSent[0]);
      ServerSendKeeps(c, s, Succ(h[2]), x, w.value);
    }
  }

  lemma StepKeepsInv(c: Config, s: State, a: Action)
    requires Inv(c, s) && ValidConfig(c)
    ensures Inv(c, Step(c, s, a))
  {
    match a
    case Request(_) => ClientActs(c, s, a);
    case Answer(_) => ClientActs(c, s, a);
    case GiveUp(_) => ClientActs(c, s, a);
    case CloseClient => ClientActs(c, s, a);
    case ServerNetwork => if s.toServer != [] { ServerNetworkActs(c, s); }
    case ClientNetwork => if s.toClient != [] { ClientNetworkActs(c, s); }
    case ServerRead => if s.sPhase == Reading && s.sIn != [] { ServerReadActs(c, s); }
    case ClientRead => if s.cPhase == Waiting && s.cIn != [] { ClientReadActs(c, s); }
    case Respond(x) =>
      if s.sPhase == Holding && !IsRequest(x) && !x.Continue? && TypeOf(x) == s.sHdr[1] { RespondActs(c, s, x); }
    case Quit =>
  }

  // ---------------------------------------------------------------- whole runs

  function Run(c: Config, acts: seq<Action>): State
    requires |c.id| == 4
  {
    if acts == [] then Init() else Step(c, Run(c, acts[..|acts| - 1]), acts[|acts| - 1])
  }

  lemma {:induction false} RunKeepsInv(c: Config, acts: seq<Action>)
    requires ValidConfig(c)
    ensures Inv(c, Run(c, acts))
  {
    if acts != [] {
      RunKeepsInv(c, acts[..|acts| - 1]);
      StepKeepsInv(c, Run(c, acts[..|acts| - 1]), acts[|acts| - 1]);
    }
  }

  /**
  No run records a fault: no sequence, parity, version or decoding check fails, no packet is refused or
  misdirected, and the one-slot queues are never full. The packets are numbered 1, 2, 3, ... in turn, the client's
  odd and the server's even, and each end has decoded exactly what the other sent, but for at most the packet now
  under way.
  */
  lemma Lockstep(c: Config, acts: seq<Action>)
    requires ValidConfig(c)
    ensures var s := Run(c, acts);
            && s.fault == None
            && |s.cIn| <= 1 && |s.sIn| <= 1 && |s.cIn + s.sIn + s.toServer + s.toClient| <= 1
            && Counted(s.numbers) && OddByClient(s.numbers, s.byClient)
            && |s.sSent| <= |s.cSent| <= |s.sSent| + 1
            && s.sGot <= s.cSent && |s.cSent| <= |s.sGot| + 1
            && s.cGot <= s.sSent && (s.cPhase != Closed ==> |s.sSent| <= |s.cGot| + 1)
  {
    RunKeepsInv(c, acts);
    var s := Run(c, acts);
    if TowardsServer(c, s) {
      assert |s.toServer + s.sIn| == 1;
    } else if TowardsClient(c, s) {
      assert |s.toClient + s.cIn| == 1;
    }
  }

  /**
  The client's refusal to continue bounds every session to 258 packets. Up to 255 packets the numbers are
  the plain counts 1, 2, 3, ...; the 256th, which is the server's 128th, is the first to start over at 0.
  */
  lemma SequenceNumbersWrap(c: Config, acts: seq<Action>)
    requires ValidConfig(c)
    ensures var s := Run(c, acts);
            && |s.numbers| <= 258
            && (|s.numbers| <= 255 <==> forall i | 0 <= i < |s.numbers| :: s.numbers[i] as nat == i + 1)
            && (|s.numbers| <= 255 <==> |s.sSent| <= 127)
  {
    RunKeepsInv(c, acts);
    NumbersAreCounts(Run(c, acts).numbers);
  }

  lemma NumbersAreCounts(numbers: seq<byte>)
    requires Counted(numbers)
    ensures |numbers| <= 255 <==> forall i | 0 <= i < |numbers| :: numbers[i] as nat == i + 1
  {
    forall i | 0 <= i < |numbers| && i < 255 ensures numbers[i] as nat == i + 1 {
      SeqNoExact(i + 1);
    }
    if |numbers| >= 256 {
      SeqNoExact(255);
      assert SeqNo(256) == Succ(SeqNo(255)) == 0;
      assert numbers[255] == 0;
    }
  }

  /** The library's own codec is a valid one, so both theorems hold of it, for every secret and configuration. */
  lemma LibraryRuns(k: Secret, id: seq<byte>, clientFlags: byte, multiplexing: bool, acts: seq<Action>)
    requires |id| == 4
    ensures var c := Config(Library(k), id, clientFlags, multiplexing);
            && ValidConfig(c)
            && Run(c, acts).fault == None
            && Run(c, acts).sGot <= Run(c, acts).cSent && Run(c, acts).cGot <= Run(c, acts).sSent
            && |Run(c, acts).numbers| <= 258
  {
    LibraryIsFaithful(k);
    var c := Config(Library(k), id, clientFlags, multiplexing);
    Lockstep(c, acts);
    SequenceNumbersWrap(c, acts);
  }

  // ---------------------------------------------------------------- reachable states

  ghost predicate Reached(c: Config, s: State)
    requires ValidConfig(c)
  {
    exists acts :: Run(c, acts) == s
  }

  lemma ReachedStep(c: Config, s: State, a: Action)
    requires ValidConfig(c) && Reached(c, s)
    ensures Reached(c, Step(c, s, a))
  {
    var acts :| Run(c, acts) == s;
    assert (acts + [a])[..|acts|] == acts;
    assert Run(c, acts + [a]) == Step(c, s, a);
  }

  lemma ReachedInv(c: Config, s: State)
    requires ValidConfig(c) && Reached(c, s)
    ensures Inv(c, s)
  {
    var acts :| Run(c, acts) == s;
    RunKeepsInv(c, acts);
  }
}
