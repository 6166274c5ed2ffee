/**
One connection for many sessions of any kind: in each direction the packets of all sessions go through one stream of
bytes, from which they are cut by their lengths and handed out by the session ids in their headers.
*/
module Links {
  import opened Bytes
  import opened Results
  import Framing

  // ---------------------------------------------------------------- streams

  /** The packets of a stream that belong to a session. */
  function OfSession(ps: seq<Framing.Raw>, id: seq<byte>): seq<Framing.Raw> {
    if ps == [] then [] else (if ps[0][4..8] == id then [ps[0]] else []) + OfSession(ps[1..], id)
  }

  lemma {:induction false} OfSessionAppend(ps: seq<Framing.Raw>, p: Framing.Raw, id: seq<byte>)
    ensures OfSession(ps + [p], id) == OfSession(ps, id) + if p[4..8] == id then [p] else []
  {
    if ps == [] {
      assert [p][1..] == [] && ps + [p] == [p];
    } else {
      OfSessionAppend(ps[1..], p, id);
      assert (ps + [p])[1..] == ps[1..] + [p];
    }
  }

  lemma {:induction false} ConcatAppend(ps: seq<Framing.Raw>, p: Framing.Raw)
    ensures Framing.Concat(ps + [p]) == Framing.Concat(ps) + p
  {
    if ps == [] {
      assert [p][1..] == [] && ps + [p] == [p];
    } else {
      ConcatAppend(ps[1..], p);
      assert (ps + [p])[1..] == ps[1..] + [p];
    }
  }

  type Queues = map<seq<byte>, seq<Framing.Raw>>

  /** The stream is these packets one after the other, and each session's packets in it are its queue, in order. */
  ghost predicate Holds(bytes: seq<byte>, ps: seq<Framing.Raw>, queues: Queues) {
    Framing.Concat(ps) == bytes &&
    (forall i | 0 <= i < |ps| :: Framing.WellFormed(ps[i]) && ps[i][4..8] in queues) &&
    forall id | id in queues :: OfSession(ps, id) == queues[id]
  }

  ghost predicate Stream(bytes: seq<byte>, queues: Queues) {
    exists ps :: Holds(bytes, ps, queues)
  }

  lemma Push(bytes: seq<byte>, queues: Queues, id: seq<byte>, p: Framing.Raw)
    requires Stream(bytes, queues) && id in queues && Framing.WellFormed(p) && p[4..8] == id
    ensures Stream(bytes + p, queues[id := queues[id] + [p]])
  {
    var ps :| Holds(bytes, ps, queues);
    ConcatAppend(ps, p);
    forall other | other in queues ensures OfSession(ps + [p], other) == queues[id := queues[id] + [p]][other] {
      OfSessionAppend(ps, p, other);
    }
    assert Holds(bytes + p, ps + [p], queues[id := queues[id] + [p]]);
  }

  // ---------------------------------------------------------------- sessions of any kind

  /**
  What a session of state `S` has under way in each direction, how its ends act, and how it takes a packet that
  arrives.
  */
  datatype Machine<!S, !A> = Machine(
    act: (seq<byte>, S, A) -> S,
    up: S -> seq<Framing.Raw>, down: S -> seq<Framing.Raw>,
    takeUp: (S, Framing.Raw) -> S, takeDown: (S, Framing.Raw) -> S,
    /** The states that a session of that id can be in. */
    ok: (seq<byte>, S) -> bool)

  predicate PacketsOf(id: seq<byte>, ps: seq<Framing.Raw>) {
    forall i | 0 <= i < |ps| :: Framing.WellFormed(ps[i]) && ps[i][4..8] == id
  }

  /** What an action adds to a queue: nothing, or one packet at the end. */
  predicate Grows(was: seq<Framing.Raw>, now: seq<Framing.Raw>) {
    now == was || (|now| == |was| + 1 && now[..|was|] == was)
  }

  ghost predicate ActOk<S, A>(m: Machine<S, A>, id: seq<byte>, s: S, a: A) {
    m.ok(id, s) ==>
      var t := m.act(id, s, a);
      m.ok(id, t) && Grows(m.up(s), m.up(t)) && Grows(m.down(s), m.down(t)) && PacketsOf(id, m.up(t)) &&
      PacketsOf(id, m.down(t))
  }

  ghost predicate TakeUpOk<S, A>(m: Machine<S, A>, id: seq<byte>, s: S) {
    m.ok(id, s) && m.up(s) != [] ==>
      var t := m.takeUp(s, m.up(s)[0]);
      m.ok(id, t) && m.up(t) == m.up(s)[1..] && m.down(t) == m.down(s)
  }

  ghost predicate TakeDownOk<S, A>(m: Machine<S, A>, id: seq<byte>, s: S) {
    m.ok(id, s) && m.down(s) != [] ==>
      var t := m.takeDown(s, m.down(s)[0]);
      m.ok(id, t) && m.down(t) == m.down(s)[1..] && m.up(t) == m.up(s)
  }

  /** Sessions put well-formed packets of their own id on the wire, and take them back in that order. */
  ghost predicate Good<S(!new), A(!new)>(m: Machine<S, A>) {
    (forall id, s, a :: ActOk(m, id, s, a)) && (forall id, s :: TakeUpOk(m, id, s)) &&
    forall id, s :: TakeDownOk(m, id, s)
  }

  // ---------------------------------------------------------------- the connection

  /** The sessions by id, and the bytes under way in each direction. */
  datatype Link<S> = Link(sessions: map<seq<byte>, S>, up: seq<byte>, down: seq<byte>, broken: bool)

  datatype LinkAction<A> = Local(id: seq<byte>, a: A) | Up | Down

  /** The write loop sends one packet after the other. */
  function Sent(was: seq<Framing.Raw>, now: seq<Framing.Raw>): seq<byte> {
    if |now| > |was| then now[|now| - 1] else []
  }

  /** The next packet of a stream; none if there are no bytes, an error if they do not begin with one. */
  function Cut(bytes: seq<byte>): Result<Option<(Framing.Raw, seq<byte>)>, Framing.ReadError> {
    if bytes == [] then Ok(None)
    else match Framing.NextPacket(bytes, Framing.EOF)
      case Err(e) => Err(e)
      case Ok((p, rest)) => Ok(Some((p, rest)))
  }

  /**
  An end acts for one of its sessions; or the read loop of one end cuts the next packet out of its stream and hands it
  to the session that its header names. A packet that cannot be cut out, or that its session has not under way, breaks
  the connection.
  */
  function LinkStep<S, A>(m: Machine<S, A>, l: Link<S>, a: LinkAction<A>): Link<S> {
    match a
    case Local(id, act) =>
      if id !in l.sessions then l
      else
        var s := l.sessions[id];
        var t := m.act(id, s, act);
        l.(sessions := l.sessions[id := t],
           up := l.up + Sent(m.up(s), m.up(t)),
           down := l.down + Sent(m.down(s), m.down(t)))
    case Up => Receive(l, Cut(l.up), m.takeUp, m.up, rest => l.(up := rest))
    case Down => Receive(l, Cut(l.down), m.takeDown, m.down, rest => l.(down := rest))
  }

  function Receive<S>(
      l: Link<S>, cut: Result<Option<(Framing.Raw, seq<byte>)>, Framing.ReadError>, take: (S, Framing.Raw) -> S,
      queue: S -> seq<Framing.Raw>,
      onward: seq<byte> -> Link<S>): Link<S>
  {
    match cut
    case Err(_) => l.(broken := true)
    case Ok(None) => l
    case Ok(Some((p, rest))) =>
      if p[4..8] !in l.sessions || queue(l.sessions[p[4..8]]) == [] then l.(broken := true)
      else onward(rest).(sessions := l.sessions[p[4..8] := take(l.sessions[p[4..8]], p)])
  }

  function QueuesOf<S>(sessions: map<seq<byte>, S>, queue: S -> seq<Framing.Raw>): Queues {
    map id | id in sessions :: queue(sessions[id])
  }

  ghost predicate LinkInv<S, A>(m: Machine<S, A>, l: Link<S>) {
    !l.broken && (forall id | id in l.sessions :: m.ok(id, l.sessions[id])) &&
    Stream(l.up, QueuesOf(l.sessions, m.up)) && Stream(l.down, QueuesOf(l.sessions, m.down))
  }

  lemma QueuesUpdated<S>(sessions: map<seq<byte>, S>, queue: S -> seq<Framing.Raw>, id: seq<byte>, t: S)
    requires id in sessions
    ensures QueuesOf(sessions[id := t], queue) == QueuesOf(sessions, queue)[id := queue(t)]
  {
  }

  lemma SameQueue(queues: Queues, id: seq<byte>)
    requires id in queues
    ensures queues[id := queues[id]] == queues
  {
  }

  /** What an action adds to a queue goes to the end of the stream. */
  lemma GrownStream(bytes: seq<byte>, queues: Queues, id: seq<byte>, now: seq<Framing.Raw>)
    requires Stream(bytes, queues) && id in queues && Grows(queues[id], now) && PacketsOf(id, now)
    ensures Stream(bytes + Sent(queues[id], now), queues[id := now])
  {
    if now == queues[id] {
      assert bytes + [] == bytes;
      SameQueue(queues, id);
    } else {
      var p := now[|now| - 1];
      Push(bytes, queues, id, p);
      assert queues[id] + [p] == now;
    }
  }

  lemma LocalKeepsLink<S(!new), A(!new)>(m: Machine<S, A>, l: Link<S>, id: seq<byte>, a: A)
    requires Good(m) && LinkInv(m, l) && id in l.sessions
    ensures LinkInv(m, LinkStep(m, l, Local(id, a)))
  {
    var s := l.sessions[id];
    var t := m.act(id, s, a);
    assert ActOk(m, id, s, a);
    GrownStream(l.up, QueuesOf(l.sessions, m.up), id, m.up(t));
    GrownStream(l.down, QueuesOf(l.sessions, m.down), id, m.down(t));
    QueuesUpdated(l.sessions, m.up, id, t);
    QueuesUpdated(l.sessions, m.down, id, t);
  }

  /** The next packet of a stream that is not empty is the next of its session's queue. */
  lemma Pop(bytes: seq<byte>, queues: Queues) returns (p: Framing.Raw, rest: seq<byte>)
    requires Stream(bytes, queues) && bytes != []
    ensures Cut(bytes) == Ok(Some((p, rest)))
    ensures p[4..8] in queues && queues[p[4..8]] != [] && queues[p[4..8]][0] == p
    ensures Stream(rest, queues[p[4..8] := queues[p[4..8]][1..]])
  {
    var ps :| Holds(bytes, ps, queues);
    p, rest := ps[0], Framing.Concat(ps[1..]);
    Framing.NextPacketOf(p, rest, Framing.EOF);
    var id := p[4..8];
    var after := queues[id := queues[id][1..]];
    forall other | other in queues ensures OfSession(ps[1..], other) == after[other] {
      assert OfSession(ps, other) == (if id == other then [p] else []) + OfSession(ps[1..], other);
    }
    assert Holds(rest, ps[1..], after);
  }

  lemma UpKeepsLink<S(!new), A(!new)>(m: Machine<S, A>, l: Link<S>)
    requires Good(m) && LinkInv(m, l)
    ensures LinkInv(m, LinkStep(m, l, Up)) && LinkStep(m, l, Up).sessions.Keys == l.sessions.Keys
  {
    if l.up != [] {
      var p, rest := Pop(l.up, QueuesOf(l.sessions, m.up));
      var id := p[4..8];
      var s := l.sessions[id];
      var t := m.takeUp(s, p);
      assert TakeUpOk(m, id, s);
      QueuesUpdated(l.sessions, m.up, id, t);
      QueuesUpdated(l.sessions, m.down, id, t);
      SameQueue(QueuesOf(l.sessions, m.down), id);
      assert LinkStep(m, l, Up) == l.(sessions := l.sessions[id := t], up := rest);
    }
  }

  lemma DownKeepsLink<S(!new), A(!new)>(m: Machine<S, A>, l: Link<S>)
    requires Good(m) && LinkInv(m, l)
    ensures LinkInv(m, LinkStep(m, l, Down)) && LinkStep(m, l, Down).sessions.Keys == l.sessions.Keys
  {
    if l.down != [] {
      var p, rest := Pop(l.down, QueuesOf(l.sessions, m.down));
      var id := p[4..8];
      var s := l.sessions[id];
      var t := m.takeDown(s, p);
      assert TakeDownOk(m, id, s);
      QueuesUpdated(l.sessions, m.up, id, t);
      QueuesUpdated(l.sessions, m.down, id, t);
      SameQueue(QueuesOf(l.sessions, m.up), id);
      assert LinkStep(m, l, Down) == l.(sessions := l.sessions[id := t], down := rest);
    }
  }

  lemma LinkStepKeepsInv<S(!new), A(!new)>(m: Machine<S, A>, l: Link<S>, a: LinkAction<A>)
    requires Good(m) && LinkInv(m, l)
    ensures LinkInv(m, LinkStep(m, l, a)) && LinkStep(m, l, a).sessions.Keys == l.sessions.Keys
  {
    match a
    case Local(id, act) => if id in l.sessions { LocalKeepsLink(m, l, id, act); }
    case Up => UpKeepsLink(m, l);
    case Down => DownKeepsLink(m, l);
  }

  function LinkRun<S, A>(m: Machine<S, A>, l: Link<S>, acts: seq<LinkAction<A>>): Link<S>
    decreases |acts|
  {
    if acts == [] then l else LinkRun(m, LinkStep(m, l, acts[0]), acts[1..])
  }

  lemma {:induction false} LinkRunKeepsInv<S(!new), A(!new)>(m: Machine<S, A>, l: Link<S>, acts: seq<LinkAction<A>>)
    requires Good(m) && LinkInv(m, l)
    ensures LinkInv(m, LinkRun(m, l, acts)) && LinkRun(m, l, acts).sessions.Keys == l.sessions.Keys
    decreases |acts|
  {
    if acts != [] {
      LinkStepKeepsInv(m, l, acts[0]);
      LinkRunKeepsInv(m, LinkStep(m, l, acts[0]), acts[1..]);
    }
  }

  /** A new connection for sessions that have nothing under way. */
  lemma FreshLink<S, A>(m: Machine<S, A>, sessions: map<seq<byte>, S>)
    requires forall id | id in sessions ::
        m.ok(id, sessions[id]) && m.up(sessions[id]) == [] && m.down(sessions[id]) == []
    ensures LinkInv(m, Link(sessions, [], [], false))
  {
    assert Holds([], [], QueuesOf(sessions, m.up));
    assert Holds([], [], QueuesOf(sessions, m.down));
  }
}
