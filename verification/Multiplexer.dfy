/**
The serving loop of a connection (RFC 8907 section 4.3): it alone owns the session map, and turns
packets, close requests and create requests into sends and closes on the sessions' channels.

Closing a closed channel and sending on one are panics; here they are preconditions, so that the
proofs of the methods are the proofs that neither happens.
*/
module Multiplexer {
  import opened Results

  datatype Packet = Packet(id: nat, singleConnect: bool)

  datatype SessionError = Multiplexing | IdInUse | ConnectionClosed

  /** `done` and the buffered `in` channel, which has room for one packet. */
  class Session {
    const id: nat
    var doneClosed: bool
    var inClosed: bool
    var queue: seq<Packet>

    constructor (id: nat)
      ensures this.id == id && !doneClosed && !inClosed && queue == []
    {
      this.id, doneClosed, inClosed, queue := id, false, false, [];
    }

    method CloseDone()
      requires !doneClosed
      modifies this`doneClosed
      ensures doneClosed
    {
      doneClosed := true;
    }

    method CloseIn()
      requires !inClosed
      modifies this`inClosed
      ensures inClosed
    {
      inClosed := true;
    }

    /** `select { case s.in <- p: default: }` */
    method TrySend(p: Packet) returns (ok: bool)
      requires !inClosed && |queue| <= 1
      modifies this`queue
      ensures ok == (old(queue) == []) && queue == if ok then [p] else old(queue)
    {
      ok := queue == [];
      if ok { queue := [p]; }
    }

    ghost predicate Open()
      reads this
    {
      !doneClosed && !inClosed && |queue| <= 1
    }

    ghost predicate Shut()
      reads this
    {
      doneClosed && inClosed && |queue| <= 1
    }
  }

  datatype Timer = NoTimer | Armed | Stopped | Fired

  /** One thing the serving loop can see, or that happens beside it, in any order. */
  datatype Event =
    | Arrives(p: Packet)
    | CloseRequest(k: nat)
    | CreateRequest(id: nat)
    | HandlerReads(k: nat)
    | TimerFires
    | TimerCloses
    | CloseConnection
    | SeesDone

  class Conn {
    const legacyMux: bool
    const idleTimeout: bool
    var sess: map<nat, Session>
    var mux: bool
    var checkMux: bool
    var idle: Timer
    var done: bool
    /** Every session there has been, in the order of creation. */
    var registered: seq<Session>

    ghost function Sessions(): set<Session>
      reads this
    {
      set s | s in registered
    }

    /** A session is open exactly while it is in the map, and closed for good once it is not. */
    ghost predicate SessionsValid()
      reads this, registered
    {
      && (forall s | s in registered :: if InMap(s) then s.Open() else s.Shut())
      && (forall id | id in sess :: sess[id].id == id && sess[id] in registered)
    }

    ghost predicate InMap(s: Session)
      reads this
    {
      s.id in sess && sess[s.id] == s
    }

    /** The idle timer runs, or has run out, only while there are no sessions. */
    ghost predicate TimerValid()
      reads this
    {
      && (idle in {Armed, Fired} ==> sess == map[])
      && (idle == Stopped ==> sess != map[])
      && (idle != NoTimer ==> mux && idleTimeout)
      && (checkMux ==> !mux)
    }

    ghost predicate Valid()
      reads this, registered
    {
      SessionsValid() && TimerValid()
    }

    constructor (legacyMux: bool, negotiate: bool, idleTimeout: bool)
      ensures Valid() && registered == [] && sess == map[] && !done && idle == NoTimer
      ensures mux == legacyMux && checkMux == (!legacyMux && negotiate)
    {
      this.legacyMux, this.idleTimeout := legacyMux, idleTimeout;
      sess, mux, checkMux := map[], legacyMux, !legacyMux && negotiate;
      idle, done, registered := NoTimer, false, [];
    }

    /** `len(c.sess) == 0 && c.idleT != nil && !c.idleT.Stop()`: the timer can no longer be stopped. */
    method IdleExpired() returns (expired: bool)
      requires Valid()
      modifies this`idle
      ensures expired == (old(idle) == Fired)
      ensures idle == if sess == map[] && old(idle) == Armed then Stopped else old(idle)
    {
      expired := false;
      if |sess| == 0 && idle != NoTimer {
        // Stop reports whether it stopped a running timer
        expired := idle != Armed;
        if idle == Armed { idle := Stopped; }
      }
    }

    /** Register a new session; the caller has made sure that the timer is not running. */
    method Register(id: nat) returns (s: Session)
      requires SessionsValid() && id !in sess && idle in {NoTimer, Stopped}
      requires (idle != NoTimer ==> mux && idleTimeout) && (checkMux ==> !mux)
      modifies this`sess, this`registered
      ensures Valid() && registered == old(registered) + [s] && fresh(s)
      ensures sess == old(sess)[id := s] && s.id == id && s.Open() && s.queue == []
    {
      s := new Session(id);
      sess := sess[id := s];
      registered := registered + [s];
      assert id in sess;
    }

    /** The session of a packet, made if there is none; no session if the connection is idle-closing. */
    method SessionFor(id: nat) returns (r: Option<Session>)
      requires Valid()
      modifies this`sess, this`registered, this`idle
      ensures Valid()
      ensures match r
              case None => old(idle) == Fired && Unchanged(old(sess), old(registered)) && idle == Fired
              case Some(s) =>
                && InMap(s) && s in registered && s.Open() && s.id == id
                && if id in old(sess) then Unchanged(old(sess), old(registered)) && s == old(sess)[id]
                   else Created(old(sess), old(registered), s) && fresh(s) && s.queue == [] && old(idle) != Fired
    {
      if id in sess {
        return Some(sess[id]);
      }
      var expired := IdleExpired();
      if expired {
        return None;
      }
      var s := Register(id);
      return Some(s);
    }

    ghost predicate Unchanged(sess0: map<nat, Session>, registered0: seq<Session>)
      reads this
    {
      sess == sess0 && registered == registered0
    }

    ghost predicate Created(sess0: map<nat, Session>, registered0: seq<Session>, s: Session)
      reads this
    {
      s.id !in sess0 && sess == sess0[s.id := s] && registered == registered0 + [s]
    }

    method ProcessPacket(p: Packet)
      requires Valid()
      modifies this`sess, this`registered, this`mux, this`checkMux, this`idle, Sessions()
      ensures Valid() && (old(idle) == Fired ==> idle == Fired)
      ensures mux == (if old(checkMux) then p.singleConnect else old(mux)) && !checkMux
      // a packet for a session with a free slot, or for a new session, is delivered
      ensures if p.id in old(sess) then
                var s := old(sess)[p.id];
                registered == old(registered)
                && if old(s.queue) == [] then sess == old(sess) && s.queue == [p]
                   else sess == old(sess) - {p.id} && s.Shut()
              else if old(idle) == Fired then Unchanged(old(sess), old(registered))
              else registered != [] && var s := registered[|registered| - 1];
                   fresh(s) && s.id == p.id && Created(old(sess), old(registered), s) && s.queue == [p]
    {
      if checkMux {
        mux := p.singleConnect;
        checkMux := false;
      }
      var found := SessionFor(p.id);
      match found {
        case None => return;
        case Some(s) => Deliver(s, p);
      }
    }

    /** Queue the packet; a full queue closes the session. */
    method Deliver(s: Session, p: Packet)
      requires Valid() && InMap(s) && s in registered
      modifies this`sess, this`idle, s
      ensures Valid() && (old(idle) == Fired ==> idle == Fired)
      ensures if old(s.queue) == [] then sess == old(sess) && s.queue == [p]
              else sess == old(sess) - {s.id} && s.Shut()
    {
      assert s.Open();
      var ok := s.TrySend(p);
      if !ok {
        CloseSession(s);
      }
    }

    method NewSession(id: nat) returns (r: Result<Session, SessionError>)
      requires Valid()
      modifies this`sess, this`registered, this`idle
      ensures Valid()
      ensures match r
              case Err(e) =>
                && Unchanged(old(sess), old(registered)) && idle == old(idle)
                && (if !mux && sess != map[] then e == Multiplexing
                    else if id in sess then e == IdInUse
                    else e == ConnectionClosed && idle == Fired)
              case Ok(s) =>
                && (mux || old(sess) == map[]) && id !in old(sess) && old(idle) != Fired
                && fresh(s) && s.id == id && Created(old(sess), old(registered), s) && s.Open()
    {
      if !mux && |sess| > 0 {
        assert sess != map[];
        return Err(Multiplexing);
      }
      if id in sess {
        return Err(IdInUse);
      }
      var expired := IdleExpired();
      if expired {
        return Err(ConnectionClosed);
      }
      var s := Register(id);
      return Ok(s);
    }

    method CloseSession(s: Session)
      requires Valid() && s in registered
      modifies this`sess, this`idle, s
      ensures Valid() && !InMap(s) && s.Shut()
      ensures sess == if old(InMap(s)) then old(sess) - {s.id} else old(sess)
      ensures old(idle) == Fired ==> idle == Fired
      ensures idle == Armed && old(idle) != Armed ==> sess == map[] && mux && idleTimeout
    {
      if s.id !in sess || sess[s.id] != s {
        return;
      }
      sess := sess - {s.id};
      s.CloseDone();
      s.CloseIn();
      if |sess| == 0 && mux && idleTimeout {
        idle := Armed;
      }
    }

    /** A session handler takes a packet from its queue. */
    method HandlerReads(s: Session)
      requires Valid() && s in registered
      modifies s`queue
      ensures Valid()
    {
      if s.queue != [] { s.queue := []; }
    }

    /** The idle timer runs out; from here on it can no longer be stopped. */
    method TimerFires()
      requires Valid()
      modifies this`idle
      ensures Valid() && idle == if old(idle) == Armed then Fired else old(idle)
    {
      if idle == Armed { idle := Fired; }
    }

    /** Some time later its function closes the connection, in its own goroutine. */
    method TimerCloses()
      requires Valid()
      modifies this`done
      ensures Valid() && done == (old(done) || idle == Fired)
    {
      if idle == Fired { done := true; }
    }

    /** Runs once, when `serve` returns: every session still in the map is closed. */
    method Cleanup()
      requires Valid()
      modifies this`done, this`idle, Sessions()
      ensures done && (forall s | s in registered :: s.Shut())
      ensures idle == if old(idle) == Armed then Stopped else old(idle)
    {
      done := true;
      var rest := sess.Keys;
      while rest != {}
        invariant rest <= sess.Keys
        invariant forall s | s in registered :: if InMap(s) && s.id in rest then s.Open() else s.Shut()
        decreases rest
        modifies Sessions()
      {
        var id :| id in rest;
        var s := sess[id];
        assert InMap(s);
        s.CloseDone();
        s.CloseIn();
        rest := rest - {id};
      }
      if idle == Armed { idle := Stopped; }
    }

    /** What happens beside the loop. */
    method Beside(e: Event)
      requires Valid()
      modifies this`idle, this`done, Sessions()
      ensures Valid() && (old(idle) == Fired ==> idle == Fired)
      ensures done ==> old(done) || e == CloseConnection || old(idle) == Fired
    {
      match e {
        case HandlerReads(k) => if k < |registered| { HandlerReads(registered[k]); }
        case TimerFires => TimerFires();
        case TimerCloses => TimerCloses();
        case CloseConnection => done := true;
        case _ =>
      }
    }

    /** What the loop does about a packet or a request. */
    method Turn(e: Event)
      requires Valid() && (e.Arrives? || e.CloseRequest? || e.CreateRequest?)
      modifies this`sess, this`registered, this`mux, this`checkMux, this`idle, Sessions()
      ensures Valid() && Grown(old(registered)) && (old(idle) == Fired ==> idle == Fired)
      ensures forall i | |old(registered)| <= i < |registered| :: fresh(registered[i])
      ensures forall s | s in old(registered) && old(InMap(s)) :: Leaves(e, old(registered), s) ==> InMap(s)
    {
      match e {
        case Arrives(p) => ProcessPacket(p);
        case CloseRequest(k) =>
          if k < |registered| { CloseSession(registered[k]); }
        case CreateRequest(id) =>
          var r := NewSession(id);
      }
    }

    predicate Grown(registered0: seq<Session>)
      reads this
    {
      registered0 <= registered
    }

    /** One turn of the loop, or one thing beside it; `stop` when the loop sees the connection closed. */
    method Handle(e: Event) returns (stop: bool)
      requires Valid()
      modifies this`sess, this`registered, this`mux, this`checkMux, this`idle, this`done, Sessions()
      ensures Valid() && Grown(old(registered)) && (old(idle) == Fired ==> idle == Fired)
      ensures forall i | |old(registered)| <= i < |registered| :: fresh(registered[i])
      ensures forall s | s in old(registered) && old(InMap(s)) :: Leaves(e, old(registered), s) ==> InMap(s)
      ensures stop ==> done || (sess == map[] && !mux)
      ensures done ==> old(done) || e == CloseConnection || old(idle) == Fired
    {
      if e == SeesDone { return done; }
      if !e.Arrives? && !e.CloseRequest? && !e.CreateRequest? {
        Beside(e);
        return false;
      }
      Turn(e);
      // close non-mux connections with no sessions
      assert |sess| == 0 ==> sess == map[];
      return |sess| == 0 && !mux;
    }

    /** The event neither asks for the session to be closed nor brings another packet for it. */
    ghost predicate Leaves(e: Event, registered: seq<Session>, s: Session) {
      match e
      case CloseRequest(k) => k < |registered| ==> registered[k] != s
      case Arrives(p) => p.id != s.id
      case _ => true
    }

    /** What the handlers and the network can do while nothing closes the session with number `k` in the list. */
    predicate Spares(e: Event, k: nat, id: nat) {
      e != CloseRequest(k) && (e.Arrives? ==> e.p.id != id)
    }

    /**
    A packet for no session, such as a late reply for one that has been closed, opens a session. At a client nothing
    asks for it to be closed: then it stays, the idle timer is never armed again, and only a close of the connection
    ends the loop.
    */
    method ServeStray(p: Packet, events: seq<Event>) returns (returned: bool, ghost stray: Session)
      requires Valid() && p.id !in sess && idle != Fired
      requires forall e | e in events :: Spares(e, |registered|, p.id)
      modifies this, Sessions()
      ensures Valid() && stray.id == p.id && InMap(stray) && idle in {NoTimer, Stopped}
      ensures returned ==> old(done) || CloseConnection in events
    {
      ghost var k := |registered|;
      ProcessPacket(p);
      stray := registered[k];
      returned := false;
      for i := 0 to |events|
        invariant Valid() && fresh(Sessions() - old(Sessions()))
        invariant k < |registered| && registered[k] == stray && InMap(stray) && stray.id == p.id
        invariant forall j | 0 <= j < |registered| && j != k :: registered[j] != stray
        invariant done ==> old(done) || CloseConnection in events
      {
        assert Spares(events[i], k, p.id);
        returned := Handle(events[i]);
        if returned { return; }
      }
    }

    /**
    `serve`, for any order of events. When it returns, every session that was ever registered is closed;
    if the idle timer had fired, there was no open session that this could have cut off.
    */
    method Serve(events: seq<Event>) returns (returned: bool, open: nat)
      requires Valid()
      modifies this, Sessions()
      ensures !returned ==> Valid()
      ensures returned ==> done && idle != Armed && (forall s | s in registered :: s.Shut())
      ensures returned && idle == Fired ==> open == 0
    {
      for i := 0 to |events|
        invariant Valid() && fresh(Sessions() - old(Sessions()))
      {
        var stop := Handle(events[i]);
        if stop {
          open := |sess|;
          Cleanup();
          return true, open;
        }
      }
      return false, |sess|;
    }
  }
}
