/**
The optimistic refresh of a client's snapshot of a database that others write at any time.

A poll takes the version vector, reads the tables one by one, takes the vector again, and publishes only if the
two agree. A write bumps its counter in the same step (a trigger) or leaves the bump to a later step of its writer.
*/
module Refresh {
  import opened Results
  import opened MetaVersion

  /** How a snapshot `M` is read from tables `T`, with `R` for what has been read so far. */
  datatype Reader<!T, !R, M> = Reader(
    begin: R,
    read: (R, T) -> R,
    result: R -> Option<M>,
    /** The snapshot of tables that stand still. */
    build: T -> M,
    /**
    The result that reading on would have, if the tables stood still from here on, and how many reads it would take.
    */
    finish: (R, T) -> M,
    left: (R, T) -> nat)

  ghost predicate ReadOk<T(!new), R(!new), M(!new)>(reader: Reader<T, R, M>, r: R, t: T) {
    match reader.result(r)
    case Some(m) => reader.finish(r, t) == m && reader.left(r, t) == 0
    case None =>
      var next := reader.read(r, t);
      reader.finish(next, t) == reader.finish(r, t) && reader.left(next, t) + 1 == reader.left(r, t)
  }

  ghost predicate Faithful<T(!new), R(!new), M(!new)>(reader: Reader<T, R, M>) {
    (forall r, t :: ReadOk(reader, r, t)) && forall t :: reader.finish(reader.begin, t) == reader.build(t)
  }

  type Key = k: string | k in KEYS witness KEYS[0]

  datatype Action<T> =
    | Change(tables: T, key: Key, triggered: bool)
    | OwedBump(key: Key)
    /** One key of an administrator's full refresh. */
    | ExtraBump(key: Key)
    /** The five-minute timer forgets the acknowledged version. */
    | Clear
    | PollStep

  /** Where the poll stands; `Gather` ends with the second look at the versions. */
  datatype Poll<R, M> =
    | Idle
    | Compare(v: Versions)
    | Gather(v: Versions, got: R)
    | Publish(v: Versions, users: M)
    | Acknowledge(v: Versions)

  /** `owed` holds the bumps that writers have yet to make; `settled` says that no write came after the last bump. */
  datatype State<T, R, M> = State(
    tables: T, versions: Versions, owed: multiset<Key>, settled: bool, ack: string, users: M, poll: Poll<R, M>)

  function StepPoll<T, R, M>(reader: Reader<T, R, M>, s: State<T, R, M>): State<T, R, M> {
    match s.poll
    case Idle => s.(poll := Compare(s.versions))
    case Compare(v) => s.(poll := if s.ack == VersionString(v) then Idle else Gather(v, reader.begin))
    case Gather(v, got) => (
      match reader.result(got)
      case None => s.(poll := Gather(v, reader.read(got, s.tables)))
      case Some(m) => s.(poll := if VersionString(s.versions) != VersionString(v) then Idle else Publish(v, m)))
    case Publish(v, users) => s.(users := users, poll := Acknowledge(v))
    case Acknowledge(v) => s.(ack := VersionString(v), poll := Idle)
  }

  function Step<T, R, M>(reader: Reader<T, R, M>, s: State<T, R, M>, a: Action<T>): State<T, R, M> {
    match a
    case Change(t, k, triggered) =>
      if triggered then s.(tables := t, versions := Bump(s.versions, k), settled := true)
      else s.(tables := t, owed := s.owed + multiset{k}, settled := false)
    case OwedBump(k) =>
      if k in s.owed then s.(versions := Bump(s.versions, k), owed := s.owed - multiset{k}, settled := true) else s
    case ExtraBump(k) => s.(versions := Bump(s.versions, k), settled := true)
    case Clear => s.(ack := "")
    case PollStep => StepPoll(reader, s)
  }

  function Run<T, R, M>(reader: Reader<T, R, M>, s: State<T, R, M>, actions: seq<Action<T>>): State<T, R, M>
    decreases |actions|
  {
    if actions == [] then s else Run(reader, Step(reader, s, actions[0]), actions[1..])
  }

  // ---------------------------------------------------------------- acknowledged versions

  predicate AtMost(v: Versions, w: Versions) {
    forall k | k in KEYS :: At(v, k) <= At(w, k)
  }

  lemma BumpAbove(v: Versions, w: Versions, k: Key)
    requires AtMost(v, w)
    ensures AtMost(v, Bump(w, k)) && !SameVersions(v, Bump(w, k))
  {
    assert At(v, k) < At(Bump(w, k), k);
  }

  /** The acknowledged string, if any, was that of some vector no later than `v`. */
  ghost predicate AckedBy(ack: string, v: Versions) {
    ack == "" || exists w :: AtMost(w, v) && ack == VersionString(w)
  }

  lemma AckedUpTo(ack: string, v: Versions, w: Versions)
    requires AckedBy(ack, v) && AtMost(v, w)
    ensures AckedBy(ack, w)
  {
    if ack != "" {
      var u :| AtMost(u, v) && ack == VersionString(u);
      forall k | k in KEYS ensures At(u, k) <= At(w, k) {
        assert At(u, k) <= At(v, k) <= At(w, k);
      }
    }
  }

  /** A bump outdates whatever was acknowledged. */
  lemma AckedLater(ack: string, v: Versions, k: Key)
    requires AckedBy(ack, v)
    ensures AckedBy(ack, Bump(v, k)) && ack != VersionString(Bump(v, k))
  {
    if ack == "" {
      VersionStringNonempty(Bump(v, k));
    } else {
      var w :| AtMost(w, v) && ack == VersionString(w);
      BumpAbove(w, v, k);
      VersionStringExact(w, Bump(v, k));
    }
  }

  /** What is behind `v` is behind everything after `v`. */
  lemma AckedBefore(ack: string, v: Versions, later: Versions)
    requires AckedBy(ack, v) && ack != VersionString(v) && AtMost(v, later)
    ensures ack != VersionString(later)
  {
    if ack == "" {
      VersionStringNonempty(later);
    } else {
      var w :| AtMost(w, v) && ack == VersionString(w);
      VersionStringExact(w, v);
      VersionStringExact(w, later);
      var k :| k in KEYS && At(w, k) != At(v, k);
      assert At(w, k) < At(v, k) <= At(later, k);
    }
  }

  // ---------------------------------------------------------------- the invariant

  ghost predicate OwedInv<T, R, M>(s: State<T, R, M>) {
    s.settled || s.owed != multiset{}
  }

  /** A poll in progress is heading for the present tables, unless a bump has overtaken it or is to come. */
  ghost predicate PollInv<T, R, M>(reader: Reader<T, R, M>, s: State<T, R, M>) {
    var current := !s.poll.Idle? && SameVersions(s.poll.v, s.versions) && s.settled;
    match s.poll
    case Idle => true
    case Compare(v) => AtMost(v, s.versions)
    case Gather(v, got) =>
      AtMost(v, s.versions) && s.ack != VersionString(v) &&
      (current ==> reader.finish(got, s.tables) == reader.build(s.tables))
    case Publish(v, users) =>
      AtMost(v, s.versions) && s.ack != VersionString(v) &&
      (current ==> users == reader.build(s.tables))
    case Acknowledge(v) =>
      AtMost(v, s.versions) && s.ack != VersionString(v) &&
      (current ==> s.users == reader.build(s.tables))
  }

  ghost predicate AckInv<T, R, M>(reader: Reader<T, R, M>, s: State<T, R, M>) {
    AckedBy(s.ack, if s.poll.Idle? then s.versions else s.poll.v) &&
    (s.ack == VersionString(s.versions) && s.settled ==> s.users == reader.build(s.tables))
  }

  ghost predicate Inv<T, R, M>(reader: Reader<T, R, M>, s: State<T, R, M>) {
    OwedInv(s) && PollInv(reader, s) && AckInv(reader, s)
  }

  /** A change of tables that comes with a bump keeps the invariant, whoever makes it and whenever. */
  lemma BumpKeepsInv<T, R, M>(reader: Reader<T, R, M>, s: State<T, R, M>, t: T, k: Key, owed: multiset<Key>)
    requires Inv(reader, s)
    ensures Inv(reader, s.(tables := t, versions := Bump(s.versions, k), owed := owed, settled := true))
  {
    if s.poll.Idle? {
      AckedLater(s.ack, s.versions, k);
    } else {
      BumpAbove(s.poll.v, s.versions, k);
      AckedUpTo(s.ack, s.poll.v, s.versions);
      AckedLater(s.ack, s.versions, k);
    }
  }

  lemma GatherKeepsInv<T(!new), R(!new), M(!new)>(reader: Reader<T, R, M>, s: State<T, R, M>)
    requires Faithful(reader) && Inv(reader, s) && s.poll.Gather?
    ensures Inv(reader, StepPoll(reader, s))
  {
    assert ReadOk(reader, s.poll.got, s.tables);
    AckedUpTo(s.ack, s.poll.v, s.versions);
  }

  lemma PollKeepsInv<T(!new), R(!new), M(!new)>(reader: Reader<T, R, M>, s: State<T, R, M>)
    requires Faithful(reader) && Inv(reader, s)
    ensures Inv(reader, StepPoll(reader, s))
  {
    match s.poll
    case Idle =>
    case Compare(v) => AckedUpTo(s.ack, v, s.versions);
    case Gather(_, _) => GatherKeepsInv(reader, s);
    case Publish(v, _) => AckedBefore(s.ack, v, s.versions);
    case Acknowledge(v) => VersionStringExact(v, s.versions);
  }

  lemma StepKeepsInv<T(!new), R(!new), M(!new)>(reader: Reader<T, R, M>, s: State<T, R, M>, a: Action<T>)
    requires Faithful(reader) && Inv(reader, s)
    ensures Inv(reader, Step(reader, s, a))
  {
    match a
    case Change(t, k, triggered) =>
      if triggered { BumpKeepsInv(reader, s, t, k, s.owed); } else { assert k in s.owed + multiset{k}; }
    case OwedBump(k) => if k in s.owed { BumpKeepsInv(reader, s, s.tables, k, s.owed - multiset{k}); }
    case ExtraBump(k) => BumpKeepsInv(reader, s, s.tables, k, s.owed);
    case Clear =>
      VersionStringNonempty(s.versions);
      if !s.poll.Idle? { VersionStringNonempty(s.poll.v); }
    case PollStep => PollKeepsInv(reader, s);
  }

  lemma {:induction false} RunKeepsInv<T(!new), R(!new), M(!new)>(
      reader: Reader<T, R, M>, s: State<T, R, M>, actions: seq<Action<T>>)
    requires Faithful(reader) && Inv(reader, s)
    ensures Inv(reader, Run(reader, s, actions))
    decreases |actions|
  {
    if actions != [] {
      StepKeepsInv(reader, s, actions[0]);
      RunKeepsInv(reader, Step(reader, s, actions[0]), actions[1..]);
    }
  }

  /** A client that has just started, beside a database in any state. */
  ghost predicate Start<T, R, M>(s: State<T, R, M>) {
    s.ack == "" && s.poll.Idle? && OwedInv(s)
  }

  lemma HeldIsCurrent<T(!new), R(!new), M(!new)>(reader: Reader<T, R, M>, s: State<T, R, M>, actions: seq<Action<T>>)
    requires Faithful(reader) && Start(s)
    ensures var r := Run(reader, s, actions);
      Inv(reader, r) &&
      (r.ack == VersionString(r.versions) && (r.settled || r.owed == multiset{}) ==> r.users == reader.build(r.tables))
  {
    VersionStringNonempty(s.versions);
    RunKeepsInv(reader, s, actions);
  }

  // ---------------------------------------------------------------- a poll that nothing disturbs

  function PollSteps<T, R, M>(reader: Reader<T, R, M>, s: State<T, R, M>, n: nat): State<T, R, M>
    decreases n
  {
    if n == 0 then s else PollSteps(reader, StepPoll(reader, s), n - 1)
  }

  lemma PublishCompletes<T, R, M>(reader: Reader<T, R, M>, s: State<T, R, M>)
    requires s.poll.Publish? && SameVersions(s.poll.v, s.versions)
    ensures PollSteps(reader, s, 2) == s.(users := s.poll.users, ack := VersionString(s.versions), poll := Idle)
  {
    VersionStringExact(s.poll.v, s.versions);
    var s1 := StepPoll(reader, s);
    var s2 := StepPoll(reader, s1);
    assert PollSteps(reader, s2, 0) == s2;
    assert PollSteps(reader, s1, 1) == s2;
  }

  lemma {:induction false} GatherCompletes<T(!new), R(!new), M(!new)>(reader: Reader<T, R, M>, s: State<T, R, M>)
    requires Faithful(reader) && s.poll.Gather? && SameVersions(s.poll.v, s.versions)
    ensures var m := reader.finish(s.poll.got, s.tables);
      PollSteps(reader, s, reader.left(s.poll.got, s.tables) + 3) ==
        s.(users := m, ack := VersionString(s.versions), poll := Idle)
    decreases reader.left(s.poll.got, s.tables)
  {
    assert ReadOk(reader, s.poll.got, s.tables);
    var next := StepPoll(reader, s);
    if reader.result(s.poll.got).None? {
      GatherCompletes(reader, next);
    } else {
      VersionStringExact(s.poll.v, s.versions);
      PublishCompletes(reader, next);
      assert PollSteps(reader, s, 3) == PollSteps(reader, next, 2);
    }
  }

  lemma PollBegins<T, R, M>(reader: Reader<T, R, M>, s: State<T, R, M>, n: nat)
    requires s.poll.Idle? && s.ack != VersionString(s.versions)
    ensures PollSteps(reader, s, n + 2) == PollSteps(reader, s.(poll := Gather(s.versions, reader.begin)), n)
  {
    var s1 := s.(poll := Compare(s.versions));
    assert StepPoll(reader, s) == s1;
    assert PollSteps(reader, s, n + 2) == PollSteps(reader, s1, n + 1);
    assert StepPoll(reader, s1) == s.(poll := Gather(s.versions, reader.begin));
  }

  /**
  A poll that runs undisturbed from a client that does not hold the present string - as after a reset - publishes
  the present tables and acknowledges them, even if the bump for the last write never came.
  */
  lemma UndisturbedPoll<T(!new), R(!new), M(!new)>(reader: Reader<T, R, M>, s: State<T, R, M>)
    requires Faithful(reader) && s.poll.Idle? && s.ack != VersionString(s.versions)
    ensures PollSteps(reader, s, reader.left(reader.begin, s.tables) + 5)
         == s.(users := reader.build(s.tables), ack := VersionString(s.versions))
  {
    var s2 := s.(poll := Gather(s.versions, reader.begin));
    PollBegins(reader, s, reader.left(reader.begin, s.tables) + 3);
    GatherCompletes(reader, s2);
  }

  lemma {:induction false} ReadsComplete<T(!new), R(!new), M(!new)>(
      reader: Reader<T, R, M>, s: State<T, R, M>) returns (got: R)
    requires Faithful(reader) && s.poll.Gather?
    ensures PollSteps(reader, s, reader.left(s.poll.got, s.tables)) == s.(poll := Gather(s.poll.v, got))
    ensures reader.result(got) == Some(reader.finish(s.poll.got, s.tables))
    decreases reader.left(s.poll.got, s.tables)
  {
    got := s.poll.got;
    assert ReadOk(reader, got, s.tables);
    if reader.result(got).None? {
      got := ReadsComplete(reader, StepPoll(reader, s));
    }
  }

  lemma RecheckCompletes<T, R, M>(reader: Reader<T, R, M>, s: State<T, R, M>)
    requires s.poll.Gather? && s.poll.v == s.versions && reader.result(s.poll.got).Some?
    ensures PollSteps(reader, s, 3) ==
      s.(users := reader.result(s.poll.got).value, ack := VersionString(s.versions), poll := Idle)
  {
    PublishCompletes(reader, StepPoll(reader, s));
  }

  /**
  The bump cannot be left out of the main result: a write that comes after the last read and leaves its bump for
  later is acknowledged with a snapshot that lacks it, for every two contents that compile differently.
  */
  lemma StaleUntilBumped<T(!new), R(!new), M(!new)>(reader: Reader<T, R, M>, s: State<T, R, M>, t: T, k: Key)
    requires Faithful(reader) && s.poll.Idle? && s.ack != VersionString(s.versions)
    requires reader.build(t) != reader.build(s.tables)
    ensures var read := PollSteps(reader, s, reader.left(reader.begin, s.tables) + 2);
      var r := PollSteps(reader, Step(reader, read, Change(t, k, false)), 3);
      r.ack == VersionString(r.versions) && !r.settled && r.users != reader.build(r.tables)
  {
    var got := ReadsComplete(reader, s.(poll := Gather(s.versions, reader.begin)));
    PollBegins(reader, s, reader.left(reader.begin, s.tables));
    var read := s.(poll := Gather(s.versions, got));
    RecheckCompletes(reader, Step(reader, read, Change(t, k, false)));
  }
}
