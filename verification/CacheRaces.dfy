/**
Requests that overlap a refresh. A request loads its user and looks in the cache of the moment; if nothing is there, it
loads the cache once more, looks again, and later writes its verdict into that cache. A refresh stores the users and, in
a later step, an empty cache. Exactly which orders of these steps are safe.
*/
module CacheRaces {
  import opened Results
  import opened Strings
  import opened UserCache
  import opened Authorization
  import opened CacheKeys
  import opened MemoCaches
  import opened CacheExactness

  /** A step of a refresh or of the request with that number. */
  datatype Move = StoreUsers | StoreCache | Load(i: nat) | Peek(i: nat) | Look(i: nat) | Put(i: nat)

  // ---------------------------------------------------------------- the order of steps alone

  /** How far a request has come, with the number of the users it has loaded and of the cache it has looked in. */
  datatype Stage = AtLoad(n: nat) | AtLook(n: nat, c: nat) | AtPut(n: nat, c: nat)

  /**
  How many users and caches have been stored, and whether some request has looked in a cache after a request of other
  users has written there. Before the first store there are no users, and nobody gets as far as a cache.
  */
  datatype Order = Order(users: nat, caches: nat, stages: map<nat, Stage>, mixed: bool)

  predicate MixesWith(o: Order, i: nat, n: nat) {
    i in o.stages && o.stages[i].AtPut? && o.stages[i].c == o.caches && o.stages[i].n != n && n >= 1 &&
    o.stages[i].n >= 1
  }

  predicate Mixes(o: Order, n: nat) {
    exists i | i in o.stages :: MixesWith(o, i, n)
  }

  /** A request may peek before it looks, and takes each of its other steps once. */
  function Advance(o: Order, m: Move): Order {
    match m
    case StoreUsers => o.(users := o.users + 1)
    case StoreCache => o.(caches := o.caches + 1)
    case Load(i) => if i in o.stages then o else o.(stages := o.stages[i := AtLoad(o.users)])
    case Peek(i) =>
      if i in o.stages && o.stages[i].AtLoad? then o.(mixed := o.mixed || Mixes(o, o.stages[i].n)) else o
    case Look(i) =>
      if i in o.stages && o.stages[i].AtLoad? then
        var n := o.stages[i].n;
        o.(stages := o.stages[i := AtLook(n, o.caches)], mixed := o.mixed || Mixes(o, n))
      else o
    case Put(i) =>
      if i in o.stages && o.stages[i].AtLook? then
        o.(stages := o.stages[i := AtPut(o.stages[i].n, o.stages[i].c)])
      else o
  }

  // ---------------------------------------------------------------- with caches and verdicts

  /**
  What each request answers by the users with a given number and from a cache, and what it has to write into that cache;
  which answers are right; and which entries that request would write.
  */
  datatype Asking = Asking(
    answer: (nat, nat, Verdicts) -> (bool, Option<(string, Verdict)>),
    right: (nat, nat, bool) -> bool,
    written: (nat, nat, string, Verdict) -> bool)

  /** The entry comes from a request of the users with number `n`, or does not matter to them. */
  ghost predicate EntryFor(a: Asking, n: nat, key: string, v: Verdict) {
    exists i: nat, n': nat :: a.written(i, n', key, v) && (n' == n || n' == 0 || n == 0)
  }

  ghost predicate CacheFor(a: Asking, n: nat, cache: Verdicts) {
    forall key | key in cache :: EntryFor(a, n, key, cache[key])
  }

  ghost predicate AnswersWell(a: Asking, i: nat, n: nat, cache: Verdicts) {
    var (isPass, put) := a.answer(i, n, cache);
    a.right(i, n, isPass) && (put.Some? ==> a.written(i, n, put.value.0, put.value.1))
  }

  /** From a cache that requests of the same users have written, every answer is right. */
  ghost predicate Reliable(a: Asking) {
    forall i, n, cache | CacheFor(a, n, cache) :: AnswersWell(a, i, n, cache)
  }

  /** `puts` holds what a request is about to write, `answers` what it answers. */
  datatype State = State(
    order: Order, caches: map<nat, Verdicts>, puts: map<nat, (string, Verdict)>, answers: map<nat, bool>)

  function Init(): State {
    State(Order(0, 0, map[], false), map[], map[], map[])
  }

  /** A cache that nobody has written to is empty. */
  function CacheAt(caches: map<nat, Verdicts>, c: nat): Verdicts {
    if c in caches then caches[c] else map[]
  }

  function LookUp(a: Asking, s: State, i: nat, n: nat): State {
    var (isPass, put) := a.answer(i, n, CacheAt(s.caches, s.order.caches));
    var t := s.(answers := s.answers[i := isPass]);
    match put
    case None => t
    case Some(p) => t.(puts := s.puts[i := p])
  }

  /** A peek answers only what needs no entry. */
  function PeekAt(a: Asking, s: State, i: nat, n: nat): State {
    var (isPass, put) := a.answer(i, n, CacheAt(s.caches, s.order.caches));
    if put == None then s.(answers := s.answers[i := isPass]) else s
  }

  function Write(s: State, i: nat, c: nat): State {
    if i in s.puts then s.(caches := s.caches[c := CacheAt(s.caches, c)[s.puts[i].0 := s.puts[i].1]]) else s
  }

  predicate Waits(s: State, i: nat) {
    i in s.order.stages && s.order.stages[i].AtLoad? && i !in s.answers
  }

  /** A request that has been answered at a peek does nothing in its further steps. */
  function Step(a: Asking, s: State, m: Move): State {
    var o := s.order;
    var t :=
      if m.Peek? && Waits(s, m.i) then PeekAt(a, s, m.i, o.stages[m.i].n)
      else if m.Look? && Waits(s, m.i) then LookUp(a, s, m.i, o.stages[m.i].n)
      else if m.Put? && m.i in o.stages && o.stages[m.i].AtLook? then Write(s, m.i, o.stages[m.i].c)
      else s;
    t.(order := Advance(o, m))
  }

  function Run(a: Asking, moves: seq<Move>): State {
    if moves == [] then Init() else Step(a, Run(a, moves[..|moves| - 1]), moves[|moves| - 1])
  }

  function OrderOf(moves: seq<Move>): Order {
    if moves == [] then Order(0, 0, map[], false) else Advance(OrderOf(moves[..|moves| - 1]), moves[|moves| - 1])
  }

  /** The order does not depend on what is asked and answered. */
  lemma {:induction false} RunOrder(a: Asking, moves: seq<Move>)
    ensures Run(a, moves).order == OrderOf(moves)
  {
    if moves != [] { RunOrder(a, moves[..|moves| - 1]); }
  }

  /** Every answer is what the users that its request has loaded call for. */
  ghost predicate Right(a: Asking, s: State) {
    forall i | i in s.answers :: i in s.order.stages && a.right(i, s.order.stages[i].n, s.answers[i])
  }

  // ---------------------------------------------------------------- orders that are safe

  ghost predicate PutBy(a: Asking, s: State, i: nat, c: nat, key: string) {
    i in s.order.stages && s.order.stages[i].AtPut? && s.order.stages[i].c == c && key in CacheAt(s.caches, c) &&
    a.written(i, s.order.stages[i].n, key, CacheAt(s.caches, c)[key])
  }

  ghost predicate CachesExplained(a: Asking, s: State) {
    forall c: nat, key | key in CacheAt(s.caches, c) :: exists i :: PutBy(a, s, i, c, key)
  }

  ghost predicate PutsExplained(a: Asking, s: State) {
    forall i | i in s.puts ::
      i in s.order.stages && !s.order.stages[i].AtLoad? &&
      a.written(i, s.order.stages[i].n, s.puts[i].0, s.puts[i].1)
  }

  ghost predicate SafeInv(a: Asking, s: State) {
    CachesExplained(a, s) && PutsExplained(a, s) && Right(a, s)
  }

  lemma CacheIsFor(a: Asking, s: State, n: nat)
    requires CachesExplained(a, s) && !Mixes(s.order, n)
    ensures CacheFor(a, n, CacheAt(s.caches, s.order.caches))
  {
    var cache := CacheAt(s.caches, s.order.caches);
    forall key | key in cache ensures EntryFor(a, n, key, cache[key]) {
      var i :| PutBy(a, s, i, s.order.caches, key);
      assert !MixesWith(s.order, i, n);
    }
  }

  lemma PeekKeeps(a: Asking, s: State, j: nat)
    requires Reliable(a) && SafeInv(a, s) && Waits(s, j) && !Mixes(s.order, s.order.stages[j].n)
    ensures SafeInv(a, Step(a, s, Peek(j)))
  {
    var t := Step(a, s, Peek(j));
    CacheIsFor(a, s, s.order.stages[j].n);
    assert AnswersWell(a, j, s.order.stages[j].n, CacheAt(s.caches, s.order.caches));
    forall c: nat, key | key in CacheAt(t.caches, c) ensures exists i :: PutBy(a, t, i, c, key) {
      var i :| PutBy(a, s, i, c, key);
      assert PutBy(a, t, i, c, key);
    }
  }

  lemma LookKeeps(a: Asking, s: State, j: nat)
    requires Reliable(a) && SafeInv(a, s) && Waits(s, j) && !Mixes(s.order, s.order.stages[j].n)
    ensures SafeInv(a, Step(a, s, Look(j)))
  {
    var t := Step(a, s, Look(j));
    CacheIsFor(a, s, s.order.stages[j].n);
    assert AnswersWell(a, j, s.order.stages[j].n, CacheAt(s.caches, s.order.caches));
    forall c: nat, key | key in CacheAt(t.caches, c) ensures exists i :: PutBy(a, t, i, c, key) {
      var i :| PutBy(a, s, i, c, key);
      assert PutBy(a, t, i, c, key);
    }
    assert j !in s.puts;
    forall i | i in t.puts
      ensures i in t.order.stages && !t.order.stages[i].AtLoad? &&
        a.written(i, t.order.stages[i].n, t.puts[i].0, t.puts[i].1)
    {
      if i == j {
        var put := a.answer(j, s.order.stages[j].n, CacheAt(s.caches, s.order.caches)).1;
        assert put == Some(t.puts[j]);
      } else {
        assert i in s.puts && t.puts[i] == s.puts[i] && t.order.stages[i] == s.order.stages[i];
      }
    }
  }

  lemma WrittenCache(s: State, j: nat, c: nat, other: nat, key: string)
    ensures var t := Write(s, j, c);
      var was, now := CacheAt(s.caches, other), CacheAt(t.caches, other);
      if j in s.puts && other == c && key == s.puts[j].0 then key in now && now[key] == s.puts[j].1
      else (key in now <==> key in was) && (key in now ==> now[key] == was[key])
  {
  }

  lemma PutKeeps(a: Asking, s: State, j: nat)
    requires SafeInv(a, s) && j in s.order.stages && s.order.stages[j].AtLook?
    ensures SafeInv(a, Step(a, s, Put(j)))
  {
    var t := Step(a, s, Put(j));
    forall c: nat, key | key in CacheAt(t.caches, c) ensures exists i :: PutBy(a, t, i, c, key) {
      WrittenCache(s, j, s.order.stages[j].c, c, key);
      if j in s.puts && c == s.order.stages[j].c && key == s.puts[j].0 {
        assert PutBy(a, t, j, c, key);
      } else {
        var i :| PutBy(a, s, i, c, key);
        assert PutBy(a, t, i, c, key);
      }
    }
  }

  /** Any other step changes no answer and no entry. */
  lemma OtherKeeps(a: Asking, s: State, m: Move)
    requires SafeInv(a, s) && (m.Peek? || m.Look? ==> !Waits(s, m.i))
    requires m.Put? ==> !(m.i in s.order.stages && s.order.stages[m.i].AtLook?)
    ensures SafeInv(a, Step(a, s, m))
  {
    var t := Step(a, s, m);
    forall c: nat, key | key in CacheAt(t.caches, c) ensures exists i :: PutBy(a, t, i, c, key) {
      var i :| PutBy(a, s, i, c, key);
      assert PutBy(a, t, i, c, key);
    }
  }

  lemma {:induction false} UnmixedIsSafe(a: Asking, moves: seq<Move>)
    requires Reliable(a) && !OrderOf(moves).mixed
    ensures SafeInv(a, Run(a, moves))
  {
    if moves != [] {
      var s, m := Run(a, moves[..|moves| - 1]), moves[|moves| - 1];
      RunOrder(a, moves[..|moves| - 1]);
      UnmixedIsSafe(a, moves[..|moves| - 1]);
      if m.Peek? && Waits(s, m.i) {
        PeekKeeps(a, s, m.i);
      } else if m.Look? && Waits(s, m.i) {
        LookKeeps(a, s, m.i);
      } else if m.Put? && m.i in s.order.stages && s.order.stages[m.i].AtLook? {
        PutKeeps(a, s, m.i);
      } else {
        OtherKeeps(a, s, m);
      }
    }
  }

  // ---------------------------------------------------------------- orders that are not

  /**
  Two requests share one key and are the only ones that get as far as a cache; each is granted by the users with one
  number alone.
  */
  ghost predicate Telltale(a: Asking, i: nat, j: nat, only: nat, key: string) {
    (forall k: nat, n: nat, cache: Verdicts :: TellsAt(a, i, j, k, n, only, key, cache)) &&
    forall n: nat, isPass | n >= 1 && a.right(j, n, isPass) :: isPass == (n == only)
  }

  ghost predicate TellsAt(a: Asking, i: nat, j: nat, k: nat, n: nat, only: nat, key: string, cache: Verdicts) {
    var (isPass, put) := a.answer(k, n, cache);
    if (k != i && k != j) || n == 0 then put == None
    else if key in cache then isPass == cache[key].isPass && put == None
    else put.Some? && put.value.0 == key && put.value.1.isPass == (n == only)
  }

  predicate NotPastLoad(o: Order, j: nat) {
    j in o.stages ==> o.stages[j].AtLoad?
  }

  /** Until the second of the two looks, only the first has anything in a cache, and so nothing else answers a peek. */
  ghost predicate OnlyFirst(s: State, i: nat, j: nat, only: nat, key: string) {
    PeeksOfTwo(s, i, j, only) &&
    (forall k | k in s.puts ::
       k == i && i in s.order.stages && !s.order.stages[i].AtLoad? && s.puts[i].0 == key &&
       s.puts[i].1.isPass == (s.order.stages[i].n == only)) &&
    (i in s.order.stages && s.order.stages[i].AtLook? && s.order.stages[i].n >= 1 ==> i in s.puts) &&
    (i in s.order.stages && s.order.stages[i].AtPut? && s.order.stages[i].n >= 1 ==>
       key in CacheAt(s.caches, s.order.stages[i].c)) &&
    forall c: nat, k | k in CacheAt(s.caches, c) :: EntryOfFirst(s, i, only, key, c, k)
  }

  ghost predicate PeeksOfTwo(s: State, i: nat, j: nat, only: nat) {
    (i in s.order.stages && s.order.stages[i].AtLoad? && i in s.answers ==> s.order.stages[i].n == 0) &&
    (forall k | k in s.answers :: k in s.order.stages) &&
    (j in s.answers && s.order.stages[j].n >= 1 ==>
       i in s.order.stages && s.answers[j] == (s.order.stages[i].n == only))
  }

  ghost predicate EntryOfFirst(s: State, i: nat, only: nat, key: string, c: nat, k: string)
    requires k in CacheAt(s.caches, c)
  {
    i in s.order.stages && s.order.stages[i].AtPut? && s.order.stages[i].c == c && k == key &&
    CacheAt(s.caches, c)[k].isPass == (s.order.stages[i].n == only)
  }

  lemma OnlyFirstPeeks(a: Asking, s: State, i: nat, j: nat, only: nat, key: string, k: nat)
    requires Telltale(a, i, j, only, key) && OnlyFirst(s, i, j, only, key) && i != j && Waits(s, k)
    ensures OnlyFirst(Step(a, s, Peek(k)), i, j, only, key)
  {
    var t := Step(a, s, Peek(k));
    var n, cache := s.order.stages[k].n, CacheAt(s.caches, s.order.caches);
    assert TellsAt(a, i, j, k, n, only, key, cache);
    assert forall x | x in cache :: EntryOfFirst(s, i, only, key, s.order.caches, x);
    forall c: nat, x | x in CacheAt(t.caches, c) ensures EntryOfFirst(t, i, only, key, c, x) {
      assert EntryOfFirst(s, i, only, key, c, x);
    }
  }

  lemma OnlyFirstLooks(a: Asking, s: State, i: nat, j: nat, only: nat, key: string, k: nat)
    requires Telltale(a, i, j, only, key) && OnlyFirst(s, i, j, only, key)
    requires k != j && Waits(s, k)
    ensures OnlyFirst(Step(a, s, Look(k)), i, j, only, key)
  {
    var t := Step(a, s, Look(k));
    var n, cache := s.order.stages[k].n, CacheAt(s.caches, s.order.caches);
    assert TellsAt(a, i, j, k, n, only, key, cache);
    if k == i {
      assert i !in s.puts;
      assert forall x | x in cache :: EntryOfFirst(s, i, only, key, s.order.caches, x);
      assert key !in cache;
    }
    forall c: nat, x | x in CacheAt(t.caches, c) ensures EntryOfFirst(t, i, only, key, c, x) {
      assert EntryOfFirst(s, i, only, key, c, x);
    }
  }

  lemma OnlyFirstPuts(a: Asking, s: State, i: nat, j: nat, only: nat, key: string, k: nat)
    requires OnlyFirst(s, i, j, only, key) && k in s.order.stages && s.order.stages[k].AtLook?
    ensures OnlyFirst(Step(a, s, Put(k)), i, j, only, key)
  {
    var t := Step(a, s, Put(k));
    var c0 := s.order.stages[k].c;
    forall c: nat, x | x in CacheAt(t.caches, c) ensures EntryOfFirst(t, i, only, key, c, x) {
      WrittenCache(s, k, c0, c, x);
      if x in CacheAt(s.caches, c) { assert EntryOfFirst(s, i, only, key, c, x); }
    }
    if k == i && s.order.stages[i].n >= 1 { WrittenCache(s, i, c0, c0, key); }
    if i in s.order.stages && s.order.stages[i].AtPut? { WrittenCache(s, k, c0, s.order.stages[i].c, key); }
  }

  lemma OnlyFirstElse(a: Asking, s: State, i: nat, j: nat, only: nat, key: string, m: Move)
    requires OnlyFirst(s, i, j, only, key) && (m.Peek? || m.Look? ==> !Waits(s, m.i))
    requires m.Put? ==> !(m.i in s.order.stages && s.order.stages[m.i].AtLook?)
    ensures OnlyFirst(Step(a, s, m), i, j, only, key)
  {
    var t := Step(a, s, m);
    forall c: nat, x | x in CacheAt(t.caches, c) ensures EntryOfFirst(t, i, only, key, c, x) {
      assert EntryOfFirst(s, i, only, key, c, x);
    }
  }

  lemma {:induction false} OnlyFirstHolds(a: Asking, i: nat, j: nat, only: nat, key: string, moves: seq<Move>)
    requires Telltale(a, i, j, only, key) && i != j && NotPastLoad(OrderOf(moves), j)
    ensures OnlyFirst(Run(a, moves), i, j, only, key)
  {
    if moves != [] {
      var before, m := moves[..|moves| - 1], moves[|moves| - 1];
      var s := Run(a, before);
      RunOrder(a, before);
      OnlyFirstHolds(a, i, j, only, key, before);
      if m.Peek? && Waits(s, m.i) {
        OnlyFirstPeeks(a, s, i, j, only, key, m.i);
      } else if m.Look? && Waits(s, m.i) {
        OnlyFirstLooks(a, s, i, j, only, key, m.i);
      } else if m.Put? && m.i in s.order.stages && s.order.stages[m.i].AtLook? {
        OnlyFirstPuts(a, s, i, j, only, key, m.i);
      } else {
        OnlyFirstElse(a, s, i, j, only, key, m);
      }
    }
  }

  /** The request with number `j` has its answer, and it is wrong. */
  ghost predicate Wrong(a: Asking, s: State, j: nat) {
    j in s.order.stages && j in s.answers && !a.right(j, s.order.stages[j].n, s.answers[j])
  }

  lemma WrongStays(a: Asking, s: State, j: nat, m: Move)
    requires Wrong(a, s, j)
    ensures Wrong(a, Step(a, s, m), j)
  {
  }

  /** The step at which a request looks in a cache that a request of other users has written to. */
  predicate MixedAt(moves: seq<Move>, at: nat, i: nat, j: nat) {
    at < |moves| && (moves[at] == Peek(j) || moves[at] == Look(j)) && i != j &&
    var o := OrderOf(moves[..at]);
    j in o.stages && o.stages[j].AtLoad? && MixesWith(o, i, o.stages[j].n)
  }

  lemma {:induction false} MixedSomewhere(moves: seq<Move>) returns (at: nat, i: nat, j: nat)
    requires OrderOf(moves).mixed
    ensures MixedAt(moves, at, i, j)
  {
    var before := moves[..|moves| - 1];
    if OrderOf(before).mixed {
      at, i, j := MixedSomewhere(before);
      assert moves[..at] == before[..at];
    } else {
      at := |moves| - 1;
      j := moves[at].i;
      var o := OrderOf(before);
      i :| i in o.stages && MixesWith(o, i, o.stages[j].n);
    }
  }

  lemma MixedAnswer(a: Asking, s: State, i: nat, j: nat, key: string, m: Move)
    requires i != j && j in s.order.stages && s.order.stages[j].AtLoad? && MixesWith(s.order, i, s.order.stages[j].n)
    requires Telltale(a, i, j, s.order.stages[i].n, key) && OnlyFirst(s, i, j, s.order.stages[i].n, key)
    requires m == Peek(j) || m == Look(j)
    ensures Wrong(a, Step(a, s, m), j)
  {
    var only, n, cache := s.order.stages[i].n, s.order.stages[j].n, CacheAt(s.caches, s.order.caches);
    assert TellsAt(a, i, j, j, n, only, key, cache);
    assert EntryOfFirst(s, i, only, key, s.order.caches, key);
  }

  lemma {:induction false} MixedIsWrong(a: Asking, moves: seq<Move>, at: nat, i: nat, j: nat, key: string)
    requires MixedAt(moves, at, i, j) && Telltale(a, i, j, OrderOf(moves[..at]).stages[i].n, key)
    ensures Wrong(a, Run(a, moves), j)
  {
    var before := moves[..|moves| - 1];
    if at == |moves| - 1 {
      RunOrder(a, before);
      OnlyFirstHolds(a, i, j, OrderOf(before).stages[i].n, key, before);
      MixedAnswer(a, Run(a, before), i, j, key, moves[at]);
    } else {
      assert before[..at] == moves[..at];
      MixedIsWrong(a, before, at, i, j, key);
      WrongStays(a, Run(a, before), j, moves[|moves| - 1]);
    }
  }

  // ---------------------------------------------------------------- refreshes and requests

  /** The tables of each refresh, counted from 1, and what each request asks. */
  datatype Data = Data(lib: Library, tables: nat -> Tables, request: nat -> Request)

  function UsersAt(d: Data, n: nat): UserMap {
    if n == 0 then map[] else Build(d.lib, d.tables(n))
  }

  ghost function Answer(lib: Library, users: UserMap, cache: Verdicts, r: Request): (bool, Option<(string, Verdict)>) {
    if r.user !in users then (false, None)
    else
      var u := users[r.user];
      if u.isOnDuty then (true, None)
      else if u.roles == [] then (false, None)
      else
        var key := CommandKey(r.cmd, r.server, u.rolesKey);
        if key in cache then (cache[key].isPass, None)
        else
          var v := Evaluated(lib, r.cmd, r.server, u.roles);
          (v.isPass, Some((key, v)))
  }

  /** Looking and writing at once is a request in one step. */
  lemma AnswerIsDecided(lib: Library, users: UserMap, cache: Verdicts, r: Request)
    ensures var (isPass, put) := Answer(lib, users, cache, r);
      Decided(lib, users, cache, r) ==
        (isPass, if put.Some? then cache[put.value.0 := put.value.1] else cache)
  {
  }

  /** An entry that a request writes for one of those users. */
  ghost predicate Entry(lib: Library, users: UserMap, r: Request, key: string, v: Verdict) {
    r.user in users && users[r.user].roles != [] && key == CommandKey(r.cmd, r.server, users[r.user].rolesKey) &&
    v.isPass == SomeMatches(lib, r.cmd, r.server, users[r.user].roles)
  }

  ghost function AskingOf(d: Data): Asking {
    Asking(
      (i: nat, n: nat, cache: Verdicts) => Answer(d.lib, UsersAt(d, n), cache, d.request(i)),
      (i: nat, n: nat, isPass: bool) => isPass == Permitted(d.lib, UsersAt(d, n), d.request(i)),
      (i: nat, n: nat, key: string, v: Verdict) => Entry(d.lib, UsersAt(d, n), d.request(i), key, v))
  }

  ghost predicate DataWithin(d: Data, servers: iset<string>, names: iset<string>) {
    (forall n :: NamesWithin(d.tables(n), names)) && forall i :: d.request(i).server in servers
  }

  lemma SnapshotAt(d: Data, servers: iset<string>, names: iset<string>, n: nat)
    requires DataWithin(d, servers, names)
    ensures SnapshotOk(d.lib, names, if n == 0 then map[] else InfoFrom(d.tables(n)), UsersAt(d, n))
  {
    if n != 0 { BuildOk(d.lib, names, d.tables(n)); }
  }

  /** What a request of the same users has written is right for whoever finds it. */
  lemma FoundIsRight(
      lib: Library, servers: iset<string>, names: iset<string>, info: RoleInfo, users: UserMap, q: Request, r: Request,
      key: string, v: Verdict)
    requires SnapshotOk(lib, names, info, users) && Apart(servers, names) && q.server in servers && r.server in servers
    requires Entry(lib, users, q, key, v) && r.user in users && users[r.user].roles != []
    requires key == CommandKey(r.cmd, r.server, users[r.user].rolesKey)
    ensures v.isPass == SomeMatches(lib, r.cmd, r.server, users[r.user].roles)
  {
    KeyDeterminesVerdict(lib, servers, names, info, users, q.cmd, q.server, q.user, r.cmd, r.server, r.user);
  }

  lemma EntryAt(d: Data, n: nat, cache: Verdicts, key: string) returns (q: Request)
    requires CacheFor(AskingOf(d), n, cache) && key in cache && n >= 1
    ensures Entry(d.lib, UsersAt(d, n), q, key, cache[key]) && exists i: nat :: q == d.request(i)
  {
    var a := AskingOf(d);
    assert EntryFor(a, n, key, cache[key]);
    var i: nat, n': nat :| a.written(i, n', key, cache[key]) && (n' == n || n' == 0 || n == 0);
    q := d.request(i);
    assert Entry(d.lib, UsersAt(d, n'), q, key, cache[key]);
  }

  lemma AnswerIsRight(d: Data, servers: iset<string>, names: iset<string>, i: nat, n: nat, cache: Verdicts)
    requires Apart(servers, names) && DataWithin(d, servers, names) && CacheFor(AskingOf(d), n, cache)
    ensures AnswersWell(AskingOf(d), i, n, cache)
  {
    var users, r := UsersAt(d, n), d.request(i);
    if r.user in users && users[r.user].roles != [] {
      var key := CommandKey(r.cmd, r.server, users[r.user].rolesKey);
      if key in cache {
        var q := EntryAt(d, n, cache, key);
        SnapshotAt(d, servers, names, n);
        FoundIsRight(d.lib, servers, names, InfoFrom(d.tables(n)), users, q, r, key, cache[key]);
      }
    }
  }

  lemma DataReliable(d: Data, servers: iset<string>, names: iset<string>)
    requires Apart(servers, names) && DataWithin(d, servers, names)
    ensures Reliable(AskingOf(d))
  {
    forall i, n, cache | CacheFor(AskingOf(d), n, cache) ensures AnswersWell(AskingOf(d), i, n, cache) {
      AnswerIsRight(d, servers, names, i, n, cache);
    }
  }

  /** Two requests for the same, which only the tables with one number grant, and otherwise requests of nobody. */
  function TellingData(s: string, x: string, i: nat, j: nat, only: nat): Data {
    Data(OnlyCommand("x"),
         (n: nat) => TwoUsers([x], [x], if n == only then "p" else "q", [s]),
         (k: nat) => Request(if k == i || k == j then "u" else "w", "x", s))
  }

  /** Of these users one is granted the command exactly if `granted`, and one is not there. */
  ghost predicate Telling(lib: Library, users: UserMap, s: string, x: string, granted: bool) {
    "w" !in users && "u" in users && !users["u"].isOnDuty && users["u"].roles != [] &&
    users["u"].rolesKey == KeyOf([x]) && (SomeMatches(lib, "x", s, users["u"].roles) <==> granted)
  }

  lemma NobodyElse(lib: Library, x: string, pattern: string, s: string)
    ensures "w" !in Build(lib, TwoUsers([x], [x], pattern, [s]))
  {
    var t := TwoUsers([x], [x], pattern, [s]);
    CompiledUsers(lib, InfoFrom(t), t.users, t.onDuty, "w");
  }

  lemma TellingUsers(x: string, pattern: string, s: string)
    requires x != "" && ',' !in x
    ensures Telling(OnlyCommand("x"), Build(OnlyCommand("x"), TwoUsers([x], [x], pattern, [s])), s, x, pattern == "p")
  {
    var lib := OnlyCommand("x");
    var users := Build(lib, TwoUsers([x], [x], pattern, [s]));
    NobodyElse(lib, x, pattern, s);
    TwoUsersBuilt(lib, [x], [x], pattern, [s]);
    CompiledMatches("x", users["u"], [x], pattern, [s], "x", s);
    assert x in [x] && s in [s];
  }

  lemma TellingAnswer(lib: Library, users: UserMap, s: string, x: string, granted: bool, cache: Verdicts)
    requires Telling(lib, users, s, x, granted)
    ensures var key := CommandKey("x", s, KeyOf([x]));
      var (isPass, put) := Answer(lib, users, cache, Request("u", "x", s));
      if key in cache then isPass == cache[key].isPass && put == None
      else put.Some? && put.value.0 == key && put.value.1.isPass == granted
    ensures Permitted(lib, users, Request("u", "x", s)) == granted
  {
  }

  lemma TellingAt(s: string, x: string, i: nat, j: nat, only: nat, n: nat)
    requires x != "" && ',' !in x && n >= 1
    ensures var d := TellingData(s, x, i, j, only); Telling(d.lib, UsersAt(d, n), s, x, n == only)
  {
    TellingUsers(x, if n == only then "p" else "q", s);
  }

  lemma TellingTells(s: string, x: string, i: nat, j: nat, only: nat)
    requires x != "" && ',' !in x
    ensures Telltale(AskingOf(TellingData(s, x, i, j, only)), i, j, only, CommandKey("x", s, KeyOf([x])))
  {
    var d := TellingData(s, x, i, j, only);
    var key := CommandKey("x", s, KeyOf([x]));
    forall k: nat, n: nat, cache: Verdicts ensures TellsAt(AskingOf(d), i, j, k, n, only, key, cache) {
      assert AskingOf(d).answer(k, n, cache) == Answer(d.lib, UsersAt(d, n), cache, d.request(k));
      if n >= 1 {
        TellingAt(s, x, i, j, only, n);
        TellingAnswer(d.lib, UsersAt(d, n), s, x, n == only, cache);
      }
    }
    forall n: nat, isPass | n >= 1 && AskingOf(d).right(j, n, isPass) ensures isPass == (n == only) {
      TellingAt(s, x, i, j, only, n);
      TellingAnswer(d.lib, UsersAt(d, n), s, x, n == only, map[]);
    }
  }

  lemma TellingWithin(servers: iset<string>, names: iset<string>, s: string, x: string, i: nat, j: nat, only: nat)
    requires s in servers && x in names
    ensures DataWithin(TellingData(s, x, i, j, only), servers, names)
  {
    var d := TellingData(s, x, i, j, only);
    TemplatesWithin([x] + [x], names);
    forall n: nat ensures NamesWithin(d.tables(n), names) {
      assert d.tables(n) == TwoUsers([x], [x], if n == only then "p" else "q", [s]);
    }
    forall k: nat ensures d.request(k).server in servers {
      assert d.request(k).server == s;
    }
  }

  ghost predicate RightForAll(servers: iset<string>, names: iset<string>, moves: seq<Move>) {
    forall d | DataWithin(d, servers, names) :: Right(AskingOf(d), Run(AskingOf(d), moves))
  }

  /**
  For servers and names that command keys tell apart: an order of steps gives every request the answer of the users it
  has loaded, whatever is published and asked, exactly when no request looks in a cache after a request of other users
  has written there.
  */
  lemma OrderExact(servers: iset<string>, names: iset<string>, s: string, x: string, moves: seq<Move>)
    requires Apart(servers, names) && s in servers && x in names && x != "" && ',' !in x
    ensures RightForAll(servers, names, moves) <==> !OrderOf(moves).mixed
  {
    if OrderOf(moves).mixed {
      var at, i, j := MixedSomewhere(moves);
      var only := OrderOf(moves[..at]).stages[i].n;
      var d := TellingData(s, x, i, j, only);
      TellingTells(s, x, i, j, only);
      TellingWithin(servers, names, s, x, i, j, only);
      MixedIsWrong(AskingOf(d), moves, at, i, j, CommandKey("x", s, KeyOf([x])));
      assert !Right(AskingOf(d), Run(AskingOf(d), moves));
    } else {
      forall d | DataWithin(d, servers, names) ensures Right(AskingOf(d), Run(AskingOf(d), moves)) {
        DataReliable(d, servers, names);
        UnmixedIsSafe(AskingOf(d), moves);
      }
    }
  }

  // ---------------------------------------------------------------- which requests mix

  /** Every request peeks and looks in the cache that was stored with its users. */
  predicate Paired(moves: seq<Move>) {
    moves == [] ||
    var before, m := moves[..|moves| - 1], moves[|moves| - 1];
    var o := OrderOf(before);
    Paired(before) &&
    ((m.Peek? || m.Look?) && m.i in o.stages && o.stages[m.i].AtLoad? ==> o.stages[m.i].n == o.caches)
  }

  predicate StagesPaired(o: Order) {
    forall i | i in o.stages && !o.stages[i].AtLoad? :: o.stages[i].n == o.stages[i].c
  }

  /** If no request spans a refresh, the order is safe. */
  lemma {:induction false} PairedIsUnmixed(moves: seq<Move>)
    requires Paired(moves)
    ensures !OrderOf(moves).mixed && StagesPaired(OrderOf(moves))
  {
    if moves != [] {
      PairedIsUnmixed(moves[..|moves| - 1]);
    }
  }

  lemma Next(moves: seq<Move>, m: Move)
    ensures OrderOf(moves + [m]) == Advance(OrderOf(moves), m)
  {
    assert (moves + [m])[..|moves|] == moves;
  }

  /** A request that spans a refresh leaves the old verdict in the new cache, where the next request finds it. */
  lemma SpanningMixes(moves: seq<Move>, i: nat, j: nat)
    requires i != j && i !in OrderOf(moves).stages && j !in OrderOf(moves).stages && OrderOf(moves).users >= 1
    ensures var all := moves + [Load(i)] + [StoreUsers] + [StoreCache] + [Look(i)] + [Put(i)] + [Load(j)] + [Look(j)];
      OrderOf(all).mixed
  {
    var m1 := moves + [Load(i)] + [StoreUsers] + [StoreCache];
    var m2 := m1 + [Look(i)] + [Put(i)];
    Next(moves, Load(i));
    Next(moves + [Load(i)], StoreUsers);
    Next(moves + [Load(i)] + [StoreUsers], StoreCache);
    Next(m1, Look(i));
    Next(m1 + [Look(i)], Put(i));
    Next(m2, Load(j));
    Next(m2 + [Load(j)], Look(j));
    assert MixesWith(OrderOf(m2 + [Load(j)]), i, OrderOf(moves).users + 1);
  }
}
