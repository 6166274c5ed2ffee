/**
Many sessions of one client and one server over one connection: through the shared byte streams each goes on exactly as
it would alone.
*/
module Connection {
  import opened Bytes
  import opened Results
  import opened Packets
  import opened Sessions
  import opened Lockstep
  import opened Links
  import Framing

  // ---------------------------------------------------------------- what one session puts on the wire

  /**
  Written packets keep the session id of their header and are well formed; what is read comes on the header as it was.
  */
  ghost predicate Headed(codec: Codec) {
    (forall h: Header, x: Body :: codec.write(h, x).Some? ==>
       var w := codec.write(h, x).value;
       w[4..8] == h[4..8] && (Framing.MajorVersionOk(h[0]) ==> Framing.WellFormed(w))) &&
    forall last, client, w: Raw, like :: codec.read(last, client, w, like).Ok? ==>
      codec.read(last, client, w, like).value.0 == w[..HDR_LEN]
  }

  lemma LibraryWritesHeaded(k: Secret, h: Header, x: Body)
    requires Problem(x).None?
    ensures var w := Write(k, h, x).value;
      w[4..8] == h[4..8] && (Framing.MajorVersionOk(h[0]) ==> Framing.WellFormed(w))
  {
    BodyLength(x);
    var body := Encode(x);
    OutgoingKeepsId(k, h, body);
    if Framing.MajorVersionOk(h[0]) { OutgoingWellFormed(k, h, x); }
  }

  lemma OutgoingKeepsId(k: Secret, h: Header, body: seq<byte>)
    requires |h + body| < 0x1_0000_0000
    ensures Outgoing(k, h + body)[4..8] == h[4..8]
  {
    var p := h + body;
    HeaderBytes(Outgoing(k, p), Stamp(p));
    assert p[4..8] == h[4..8];
  }

  lemma LibraryReadsHeaded(k: Secret, last: byte, client: bool, w: Raw, like: Body)
    requires Read(k, last, client, w, like).Ok?
    ensures Read(k, last, client, w, like).value.0 == w[..HDR_LEN]
  {
  }

  lemma LibraryIsHeaded(k: Secret)
    ensures Headed(Library(k))
  {
    forall h: Header, x: Body | Library(k).write(h, x).Some?
      ensures var w := Library(k).write(h, x).value;
        w[4..8] == h[4..8] && (Framing.MajorVersionOk(h[0]) ==> Framing.WellFormed(w))
    {
      LibraryWritesHeaded(k, h, x);
    }
    forall last, client, w: Raw, like | Library(k).read(last, client, w, like).Ok?
      ensures Library(k).read(last, client, w, like).value.0 == w[..HDR_LEN]
    {
      LibraryReadsHeaded(k, last, client, w, like);
    }
  }

  predicate HeaderOf(id: seq<byte>, h: Raw) {
    Framing.MajorVersionOk(h[0]) && h[4..8] == id
  }

  /** All packets of the session carry its id, and so do the headers that the next ones are built on. */
  predicate Own(id: seq<byte>, s: State) {
    PacketsOf(id, s.cIn) && PacketsOf(id, s.sIn) && PacketsOf(id, s.toServer) && PacketsOf(id, s.toClient) &&
    (s.cPhase == Ready ==> HeaderOf(id, s.cHdr)) && (s.sPhase == Holding ==> HeaderOf(id, s.sHdr))
  }

  predicate LocalAction(a: Action) {
    !a.ServerNetwork? && !a.ClientNetwork?
  }

  lemma ClientWritesOwn(c: Config, s: State, h: Header, x: Body, next: ClientPhase)
    requires Headed(c.codec) && Own(c.id, s) && HeaderOf(c.id, h) && next != Ready
    ensures var t := ClientWrites(c, s, h, x, next);
      Own(c.id, t) && Grows(s.toServer, t.toServer) && t.toClient == s.toClient
  {
  }

  lemma FirstHeaderOwn(c: Config, x: Body)
    requires |c.id| == 4
    ensures HeaderOf(c.id, FirstHeader(c, x))
  {
  }

  lemma ServerSendsOwn(c: Config, s: State, x: Body)
    requires Headed(c.codec) && |c.id| == 4 && Own(c.id, s) && s.sPhase == Holding
    ensures var h := ReplyHeader(c, s.sHdr); var t := ServerSends(s, Succ(h[2]), x, c.codec.write(h, x));
      Own(c.id, t) && Grows(s.toClient, t.toClient) && t.toServer == s.toServer
  {
    var h := ReplyHeader(c, s.sHdr);
    assert h[4..8] == s.sHdr[4..8];
  }

  lemma HeadOwn(id: seq<byte>, w: Raw)
    requires Framing.WellFormed(w) && w[4..8] == id
    ensures HeaderOf(id, w[..HDR_LEN])
  {
    assert w[..HDR_LEN][4..8] == w[4..8];
  }

  lemma ClientReadOwn(c: Config, s: State)
    requires Headed(c.codec) && |c.id| == 4 && Own(c.id, s) && s.cPhase == Waiting && s.cIn != []
    ensures Own(c.id, Step(c, s, ClientRead))
  {
    HeadOwn(c.id, s.cIn[0]);
  }

  lemma ServerReadOwn(c: Config, s: State)
    requires Headed(c.codec) && |c.id| == 4 && Own(c.id, s) && s.sPhase == Reading && s.sIn != []
    ensures Own(c.id, Step(c, s, ServerRead))
  {
    HeadOwn(c.id, s.sIn[0]);
  }

  lemma LocalKeepsOwn(c: Config, s: State, a: Action)
    requires Headed(c.codec) && |c.id| == 4 && Own(c.id, s) && LocalAction(a)
    ensures var t := Step(c, s, a); Own(c.id, t) && Grows(s.toServer, t.toServer) && Grows(s.toClient, t.toClient)
  {
    match a
    case Request(x) =>
      if s.cPhase == Unstarted && IsRequest(x) {
        FirstHeaderOwn(c, x);
        ClientWritesOwn(c, s, FirstHeader(c, x), x, Waiting);
      }
    case Answer(msg) =>
      if s.cPhase == Ready {
        ClientWritesOwn(c, s, s.cHdr, AbortBody([]), Closed);
        ClientWritesOwn(c, s, s.cHdr, Continue(AuthenContinue(false, msg)), Waiting);
      }
    case GiveUp(reason) => if s.cPhase == Ready { ClientWritesOwn(c, s, s.cHdr, AbortBody(reason), Closed); }
    case CloseClient =>
    case ServerRead => if s.sPhase == Reading && s.sIn != [] { ServerReadOwn(c, s); }
    case Respond(x) => if s.sPhase == Holding { ServerSendsOwn(c, s, x); }
    case Quit =>
    case ClientRead => if s.cPhase == Waiting && s.cIn != [] { ClientReadOwn(c, s); }
  }

  lemma ServerNetworkOwn(c: Config, s: State)
    requires |c.id| == 4 && Own(c.id, s)
    ensures Own(c.id, Step(c, s, ServerNetwork))
  {
  }

  lemma ClientNetworkOwn(c: Config, s: State)
    requires |c.id| == 4 && Own(c.id, s)
    ensures Own(c.id, Step(c, s, ClientNetwork))
  {
  }

  // ---------------------------------------------------------------- the sessions of a connection

  /** What all sessions of a connection have in common. */
  datatype Peers = Peers(codec: Codec, clientFlags: byte, multiplexing: bool)

  function ConfigOf(f: Peers, id: seq<byte>): Config {
    Config(f.codec, id, f.clientFlags, f.multiplexing)
  }

  ghost predicate ValidPeers(f: Peers) {
    Faithful(f.codec) && Headed(f.codec)
  }

  /** A session is as some run of its own would leave it. */
  ghost predicate SessionOk(f: Peers, id: seq<byte>, s: State) {
    |id| == 4 && ValidPeers(f) && Reached(ConfigOf(f, id), s) && Own(id, s)
  }

  function Act(f: Peers, id: seq<byte>, s: State, a: Action): State {
    if |id| == 4 && LocalAction(a) then Step(ConfigOf(f, id), s, a) else s
  }

  function TakeUp(s: State, p: Raw): State {
    if s.toServer == [] then s else ServerQueues(s.(toServer := s.toServer[1..]), p)
  }

  function TakeDown(s: State, p: Raw): State {
    if s.toClient == [] then s else ClientQueues(s.(toClient := s.toClient[1..]), p)
  }

  ghost function SessionMachine(f: Peers): Machine<State, Action> {
    Machine(
      (id: seq<byte>, s: State, a: Action) => Act(f, id, s, a),
      (s: State) => s.toServer, (s: State) => s.toClient,
      (s: State, p: Raw) => TakeUp(s, p), (s: State, p: Raw) => TakeDown(s, p),
      (id: seq<byte>, s: State) => SessionOk(f, id, s))
  }

  lemma ActIsOk(f: Peers, id: seq<byte>, s: State, a: Action)
    requires SessionOk(f, id, s)
    ensures var t := Act(f, id, s, a);
      SessionOk(f, id, t) && Grows(s.toServer, t.toServer) && Grows(s.toClient, t.toClient) &&
      PacketsOf(id, t.toServer) && PacketsOf(id, t.toClient)
  {
    if LocalAction(a) {
      LocalKeepsOwn(ConfigOf(f, id), s, a);
      ReachedStep(ConfigOf(f, id), s, a);
    }
  }

  lemma TakeUpIsOk(f: Peers, id: seq<byte>, s: State)
    requires SessionOk(f, id, s) && s.toServer != []
    ensures var t := TakeUp(s, s.toServer[0]);
      SessionOk(f, id, t) && t.toServer == s.toServer[1..] && t.toClient == s.toClient
  {
    ServerNetworkOwn(ConfigOf(f, id), s);
    ReachedStep(ConfigOf(f, id), s, ServerNetwork);
    assert TakeUp(s, s.toServer[0]) == Step(ConfigOf(f, id), s, ServerNetwork);
  }

  lemma TakeDownIsOk(f: Peers, id: seq<byte>, s: State)
    requires SessionOk(f, id, s) && s.toClient != []
    ensures var t := TakeDown(s, s.toClient[0]);
      SessionOk(f, id, t) && t.toClient == s.toClient[1..] && t.toServer == s.toServer
  {
    ClientNetworkOwn(ConfigOf(f, id), s);
    ReachedStep(ConfigOf(f, id), s, ClientNetwork);
    assert TakeDown(s, s.toClient[0]) == Step(ConfigOf(f, id), s, ClientNetwork);
  }

  lemma SessionsAreGood(f: Peers)
    ensures Good(SessionMachine(f))
  {
    var m := SessionMachine(f);
    forall id, s, a ensures ActOk(m, id, s, a) {
      if SessionOk(f, id, s) { ActIsOk(f, id, s, a); }
    }
    forall id, s ensures TakeUpOk(m, id, s) {
      if SessionOk(f, id, s) && s.toServer != [] { TakeUpIsOk(f, id, s); }
    }
    forall id, s ensures TakeDownOk(m, id, s) {
      if SessionOk(f, id, s) && s.toClient != [] { TakeDownIsOk(f, id, s); }
    }
  }

  function NewSessions(ids: set<seq<byte>>): map<seq<byte>, State> {
    map id | id in ids :: Init()
  }

  lemma InitIsOk(f: Peers, id: seq<byte>)
    requires ValidPeers(f) && |id| == 4
    ensures SessionOk(f, id, Init())
  {
    assert Run(ConfigOf(f, id), []) == Init();
  }

  /**
  Whatever the ends of all sessions do and however the two streams are read in between: the streams never break, every
  packet reaches its session in order, and each session is as some run of its own would leave it. So no check of any
  session fails, and no one-slot queue is ever full.
  */
  lemma ManySessions(f: Peers, ids: set<seq<byte>>, acts: seq<LinkAction<Action>>)
    requires ValidPeers(f) && forall id | id in ids :: |id| == 4
    ensures var l := LinkRun(SessionMachine(f), Link(NewSessions(ids), [], [], false), acts);
      !l.broken && l.sessions.Keys == ids &&
      forall id | id in ids :: Reached(ConfigOf(f, id), l.sessions[id]) && l.sessions[id].fault == None
  {
    var m := SessionMachine(f);
    var l0 := Link(NewSessions(ids), [], [], false);
    SessionsAreGood(f);
    forall id | id in ids ensures m.ok(id, l0.sessions[id]) { InitIsOk(f, id); }
    FreshLink(m, l0.sessions);
    LinkRunKeepsInv(m, l0, acts);
    var l := LinkRun(m, l0, acts);
    forall id | id in ids ensures Reached(ConfigOf(f, id), l.sessions[id]) && l.sessions[id].fault == None {
      assert m.ok(id, l.sessions[id]);
      assert SessionOk(f, id, l.sessions[id]);
      ReachedInv(ConfigOf(f, id), l.sessions[id]);
    }
  }

  /** The library's client and server are such peers, for every secret and configuration. */
  lemma LibraryPeers(k: Secret, clientFlags: byte, multiplexing: bool)
    ensures ValidPeers(Peers(Library(k), clientFlags, multiplexing))
  {
    LibraryIsFaithful(k);
    LibraryIsHeaded(k);
  }
}
