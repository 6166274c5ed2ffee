/** The client's published snapshot with its two memo caches, and the requests that are answered from them. */
module MemoCaches {
  import opened Strings
  import opened UserCache
  import opened Authorization
  import opened CacheKeys

  type Verdicts = map<string, Verdict>

  /** What one command check answers and leaves in the cache. */
  ghost function Cached(
      lib: Library, commands: Verdicts, cmd: string, server: string, rolesKey: string,
      roles: seq<RoleAcl>): (Verdict, Verdicts)
  {
    if roles == [] then (Verdict(false, "role is nil"), commands)
    else
      var key := CommandKey(cmd, server, rolesKey);
      if key in commands then (commands[key], commands)
      else
        var v := Evaluated(lib, cmd, server, roles);
        (v, commands[key := v])
  }

  datatype Request = Request(user: string, cmd: string, server: string)

  ghost function Decided(lib: Library, users: UserMap, commands: Verdicts, r: Request): (bool, Verdicts) {
    if r.user !in users then (false, commands)
    else
      var u := users[r.user];
      if u.isOnDuty then (true, commands)
      else
        var (v, after) := Cached(lib, commands, r.cmd, r.server, u.rolesKey, u.roles);
        (v.isPass, after)
  }

  class Client {
    var users: UserMap
    var passwords: map<string, bool>
    var commands: Verdicts

    constructor ()
      ensures users == map[] && passwords == map[] && commands == map[]
    {
      users, passwords, commands := map[], map[], map[];
    }

    /** A new snapshot comes with empty caches. */
    method UpdateTacacsUserInfoAndCache(newUsers: UserMap)
      modifies this
      ensures users == newUsers && passwords == map[] && commands == map[]
    {
      users := newUsers;
      passwords := map[];
      commands := map[];
    }

    method CheckUserPassword(check: (string, string) -> bool, password: string, hash: string) returns (ok: bool)
      modifies this`passwords
      ensures (ok, passwords) == Checked(check, old(passwords), (password, hash))
    {
      var key := PairKey(password, hash);
      if key in passwords { return passwords[key]; }
      ok := check(password, hash);
      passwords := passwords[key := ok];
    }

    method CheckCmdAndServerInRole(
        lib: Library, cmd: string, server: string, rolesKey: string, roles: seq<RoleAcl>) returns (v: Verdict)
      modifies this`commands
      ensures (v, commands) == Cached(lib, old(commands), cmd, server, rolesKey, roles)
    {
      if |roles| == 0 { return Verdict(false, "role is nil"); }
      var key := CommandKey(cmd, server, rolesKey);
      if key in commands { return commands[key]; }
      v := Evaluate(lib, cmd, server, roles);
      commands := commands[key := v];
    }

    /** The decision, with the arguments added to a granted request. */
    method HandleAuthorRequest(lib: Library, r: Request) returns (isPass: bool, args: seq<string>)
      modifies this`commands
      ensures (isPass, commands) == Decided(lib, users, old(commands), r)
      ensures isPass ==> r.user in users && args == users[r.user].args
      ensures !isPass ==> args == []
    {
      args := [];
      if r.user !in users { return false, args; }
      var u := users[r.user];
      if u.isOnDuty { return true, u.args; }
      var v := CheckCmdAndServerInRole(lib, r.cmd, r.server, u.rolesKey, u.roles);
      isPass := v.isPass;
      if isPass { args := u.args; }
    }
  }

  // ---------------------------------------------------------------- requests and refreshes

  datatype Event = Publish(t: Tables) | Ask(r: Request)

  /** The answers that the client gives, starting from a snapshot and what is cached for it. */
  ghost function Answers(lib: Library, users: UserMap, commands: Verdicts, events: seq<Event>): (r: seq<bool>)
    ensures |r| <= |events|
    ensures events != [] && events[0].Ask? ==> r != []
    decreases |events|
  {
    if events == [] then []
    else match events[0]
      case Publish(t) => Answers(lib, Build(lib, t), map[], events[1..])
      case Ask(r) =>
        var (isPass, after) := Decided(lib, users, commands, r);
        [isPass] + Answers(lib, users, after, events[1..])
  }

  ghost predicate Permitted(lib: Library, users: UserMap, r: Request) {
    r.user in users && (users[r.user].isOnDuty || SomeMatches(lib, r.cmd, r.server, users[r.user].roles))
  }

  /** The answers without any cache. */
  ghost function Direct(lib: Library, users: UserMap, events: seq<Event>): (r: seq<bool>)
    ensures |r| <= |events|
    ensures events != [] && events[0].Ask? ==> r != []
    decreases |events|
  {
    if events == [] then []
    else match events[0]
      case Publish(t) => Direct(lib, Build(lib, t), events[1..])
      case Ask(r) => [Permitted(lib, users, r)] + Direct(lib, users, events[1..])
  }

  ghost predicate Explained(lib: Library, users: UserMap, servers: iset<string>, key: string, isPass: bool) {
    exists cmd, server, u ::
      server in servers && u in users && users[u].roles != [] && key == CommandKey(cmd, server, users[u].rolesKey) &&
      isPass == SomeMatches(lib, cmd, server, users[u].roles)
  }

  ghost predicate CacheInv(lib: Library, users: UserMap, servers: iset<string>, commands: Verdicts) {
    forall key | key in commands :: Explained(lib, users, servers, key, commands[key].isPass)
  }

  /** A verdict found under a key is the verdict of whoever asks with that key. */
  lemma HitIsRight(
      lib: Library, servers: iset<string>, names: iset<string>, info: RoleInfo, users: UserMap, isPass: bool,
      r: Request)
    requires SnapshotOk(lib, names, info, users) && Apart(servers, names) && r.server in servers
    requires r.user in users && users[r.user].roles != []
    requires Explained(lib, users, servers, CommandKey(r.cmd, r.server, users[r.user].rolesKey), isPass)
    ensures isPass == SomeMatches(lib, r.cmd, r.server, users[r.user].roles)
  {
    var key := CommandKey(r.cmd, r.server, users[r.user].rolesKey);
    var cmd, server, u :|
      server in servers && u in users && users[u].roles != [] && key == CommandKey(cmd, server, users[u].rolesKey) &&
      isPass == SomeMatches(lib, cmd, server, users[u].roles);
    KeyDeterminesVerdict(lib, servers, names, info, users, cmd, server, u, r.cmd, r.server, r.user);
  }

  lemma MissIsExplained(lib: Library, users: UserMap, servers: iset<string>, commands: Verdicts, r: Request)
    requires CacheInv(lib, users, servers, commands) && r.server in servers
    requires r.user in users && users[r.user].roles != []
    ensures var u := users[r.user];
      var v := Evaluated(lib, r.cmd, r.server, u.roles);
      CacheInv(lib, users, servers, commands[CommandKey(r.cmd, r.server, u.rolesKey) := v])
  {
    var u := users[r.user];
    var v := Evaluated(lib, r.cmd, r.server, u.roles);
    assert Explained(lib, users, servers, CommandKey(r.cmd, r.server, u.rolesKey), v.isPass);
  }

  lemma AskIsRight(
      lib: Library, servers: iset<string>, names: iset<string>, info: RoleInfo, users: UserMap, commands: Verdicts,
      r: Request)
    requires SnapshotOk(lib, names, info, users) && Apart(servers, names) && r.server in servers
    requires CacheInv(lib, users, servers, commands)
    ensures var (isPass, after) := Decided(lib, users, commands, r);
      isPass == Permitted(lib, users, r) && CacheInv(lib, users, servers, after)
  {
    if r.user in users && users[r.user].roles != [] {
      var key := CommandKey(r.cmd, r.server, users[r.user].rolesKey);
      if key in commands {
        HitIsRight(lib, servers, names, info, users, commands[key].isPass, r);
      } else {
        MissIsExplained(lib, users, servers, commands, r);
      }
    }
  }

  /** Requests name servers of one set, and published role templates have names of another. */
  ghost predicate Within(servers: iset<string>, names: iset<string>, e: Event) {
    match e
    case Publish(t) => NamesWithin(t, names)
    case Ask(r) => r.server in servers
  }

  lemma {:induction false} AnswersAreDirect(
      lib: Library, servers: iset<string>, names: iset<string>, info: RoleInfo, users: UserMap, commands: Verdicts,
      events: seq<Event>)
    requires SnapshotOk(lib, names, info, users) && Apart(servers, names) && CacheInv(lib, users, servers, commands)
    requires forall e | e in events :: Within(servers, names, e)
    ensures Answers(lib, users, commands, events) == Direct(lib, users, events)
    decreases |events|
  {
    if events != [] {
      assert Within(servers, names, events[0]);
      match events[0]
      case Publish(t) =>
        BuildOk(lib, names, t);
        AnswersAreDirect(lib, servers, names, InfoFrom(t), Build(lib, t), map[], events[1..]);
      case Ask(r) =>
        AskIsRight(lib, servers, names, info, users, commands, r);
        AnswersAreDirect(lib, servers, names, info, users, Decided(lib, users, commands, r).1, events[1..]);
    }
  }

  /**
  Over every sequence of requests for those servers and refreshes with roles of those names, each of them one step,
  the cached verdicts are those of the present snapshot, if the command keys tell the servers and names apart.
  Commands may hold anything.
  */
  lemma CachedIsDirect(lib: Library, servers: iset<string>, names: iset<string>, events: seq<Event>)
    requires Apart(servers, names) && forall e | e in events :: Within(servers, names, e)
    ensures Answers(lib, map[], map[], events) == Direct(lib, map[], events)
  {
    AnswersAreDirect(lib, servers, names, map[], map[], map[], events);
  }

  /** Two requests with one key, decided differently: the second is answered with the verdict of the first. */
  lemma CollidingRequests(lib: Library, users: UserMap, r1: Request, r2: Request)
    requires r1.user in users && !users[r1.user].isOnDuty && users[r1.user].roles != []
    requires r2.user in users && !users[r2.user].isOnDuty && users[r2.user].roles != []
    requires CommandKey(r1.cmd, r1.server, users[r1.user].rolesKey) ==
      CommandKey(r2.cmd, r2.server, users[r2.user].rolesKey)
    requires Permitted(lib, users, r1) != Permitted(lib, users, r2)
    ensures Answers(lib, users, map[], [Ask(r1), Ask(r2)]) != Direct(lib, users, [Ask(r1), Ask(r2)])
  {
    var (p1, c1) := Decided(lib, users, map[], r1);
    var (p2, c2) := Decided(lib, users, c1, r2);
    assert p1 == Permitted(lib, users, r1) && p2 == p1;
    TwoAnswers(lib, users, r1, r2);
    assert [p1, p2][1] != [Permitted(lib, users, r1), Permitted(lib, users, r2)][1];
  }

  /**
  In particular, whenever moving a newline from the server into the command makes a difference, the second request is
  answered with the verdict of the first.
  */
  lemma CollidingServers(lib: Library, users: UserMap, u: string, cmd: string, head: string, server: string)
    requires u in users && !users[u].isOnDuty && users[u].roles != []
    requires SomeMatches(lib, cmd, PairKey(head, server), users[u].roles)
      != SomeMatches(lib, PairKey(cmd, head), server, users[u].roles)
    ensures var events := [Ask(Request(u, cmd, PairKey(head, server))), Ask(Request(u, PairKey(cmd, head), server))];
      Answers(lib, users, map[], events) != Direct(lib, users, events)
  {
    var r1, r2 := Request(u, cmd, PairKey(head, server)), Request(u, PairKey(cmd, head), server);
    assert PairKey(r1.cmd, r1.server) == PairKey(r2.cmd, r2.server);
    CollidingRequests(lib, users, r1, r2);
  }

  lemma TwoAnswers(lib: Library, users: UserMap, r1: Request, r2: Request)
    ensures var (p1, c1) := Decided(lib, users, map[], r1);
      Answers(lib, users, map[], [Ask(r1), Ask(r2)]) == [p1, Decided(lib, users, c1, r2).0]
    ensures Direct(lib, users, [Ask(r1), Ask(r2)]) == [Permitted(lib, users, r1), Permitted(lib, users, r2)]
  {
    var events := [Ask(r1), Ask(r2)];
    var (p1, c1) := Decided(lib, users, map[], r1);
    var (p2, c2) := Decided(lib, users, c1, r2);
    assert events[1..] == [Ask(r2)] && events[1..][1..] == [];
    assert Answers(lib, users, c1, [Ask(r2)]) == [p2] + Answers(lib, users, c2, []);
    assert Direct(lib, users, [Ask(r2)]) == [Permitted(lib, users, r2)] + Direct(lib, users, []);
  }

  // ---------------------------------------------------------------- passwords

  ghost function Checked(
      check: (string, string) -> bool, cache: map<string, bool>, q: (string, string)): (bool, map<string, bool>)
  {
    var key := PairKey(q.0, q.1);
    if key in cache then (cache[key], cache) else (check(q.0, q.1), cache[key := check(q.0, q.1)])
  }

  ghost function Checks(
      check: (string, string) -> bool, cache: map<string, bool>, qs: seq<(string, string)>): (r: seq<bool>)
    ensures |r| == |qs|
    decreases |qs|
  {
    if qs == [] then []
    else
      var (ok, after) := Checked(check, cache, qs[0]);
      [ok] + Checks(check, after, qs[1..])
  }

  /** No check disagrees with what an earlier check of the same key must have left in the cache. */
  ghost predicate KeysDecide(check: (string, string) -> bool, qs: seq<(string, string)>) {
    forall i, j | 0 <= i < j < |qs| :: PairKey(qs[i].0, qs[i].1) == PairKey(qs[j].0, qs[j].1) ==>
      check(qs[i].0, qs[i].1) == check(qs[j].0, qs[j].1)
  }

  lemma {:induction false} HitsStay(
      check: (string, string) -> bool, cache: map<string, bool>, qs: seq<(string, string)>, j: nat)
    requires j < |qs| && PairKey(qs[j].0, qs[j].1) in cache
    ensures Checks(check, cache, qs)[j] == cache[PairKey(qs[j].0, qs[j].1)]
    decreases j
  {
    if j > 0 { HitsStay(check, Checked(check, cache, qs[0]).1, qs[1..], j - 1); }
  }

  lemma {:induction false} SameKeySameAnswer(
      check: (string, string) -> bool, cache: map<string, bool>, qs: seq<(string, string)>, i: nat, j: nat)
    requires i < j < |qs| && PairKey(qs[i].0, qs[i].1) == PairKey(qs[j].0, qs[j].1)
    ensures Checks(check, cache, qs)[i] == Checks(check, cache, qs)[j]
    decreases i
  {
    var after := Checked(check, cache, qs[0]).1;
    if i > 0 {
      SameKeySameAnswer(check, after, qs[1..], i - 1, j - 1);
    } else {
      HitsStay(check, after, qs[1..], j - 1);
    }
  }

  ghost predicate CacheAgrees(check: (string, string) -> bool, cache: map<string, bool>, qs: seq<(string, string)>) {
    forall j | 0 <= j < |qs| :: PairKey(qs[j].0, qs[j].1) in cache ==>
      cache[PairKey(qs[j].0, qs[j].1)] == check(qs[j].0, qs[j].1)
  }

  lemma {:induction false} AgreeingChecks(
      check: (string, string) -> bool, cache: map<string, bool>, qs: seq<(string, string)>, j: nat)
    requires CacheAgrees(check, cache, qs) && KeysDecide(check, qs) && j < |qs|
    ensures Checks(check, cache, qs)[j] == check(qs[j].0, qs[j].1)
    decreases j
  {
    if j > 0 {
      var after := Checked(check, cache, qs[0]).1;
      assert CacheAgrees(check, after, qs[1..]);
      AgreeingChecks(check, after, qs[1..], j - 1);
    }
  }

  /** The cached password checks are right exactly when no two of them share a key and differ in truth. */
  lemma PasswordChecksExact(check: (string, string) -> bool, qs: seq<(string, string)>)
    ensures (forall j | 0 <= j < |qs| :: Checks(check, map[], qs)[j] == check(qs[j].0, qs[j].1)) <==>
      KeysDecide(check, qs)
  {
    if KeysDecide(check, qs) {
      forall j | 0 <= j < |qs| ensures Checks(check, map[], qs)[j] == check(qs[j].0, qs[j].1) {
        AgreeingChecks(check, map[], qs, j);
      }
    }
    if forall j | 0 <= j < |qs| :: Checks(check, map[], qs)[j] == check(qs[j].0, qs[j].1) {
      forall i, j | 0 <= i < j < |qs| && PairKey(qs[i].0, qs[i].1) == PairKey(qs[j].0, qs[j].1)
        ensures check(qs[i].0, qs[i].1) == check(qs[j].0, qs[j].1)
      {
        SameKeySameAnswer(check, map[], qs, i, j);
      }
    }
  }

  /** Hashes without newlines, as bcrypt writes them, are enough; passwords may hold anything. */
  lemma PlainHashesDecide(check: (string, string) -> bool, qs: seq<(string, string)>)
    requires forall q | q in qs :: '\n' !in q.1
    ensures KeysDecide(check, qs)
  {
    forall i, j | 0 <= i < j < |qs| && PairKey(qs[i].0, qs[i].1) == PairKey(qs[j].0, qs[j].1)
      ensures check(qs[i].0, qs[i].1) == check(qs[j].0, qs[j].1)
    {
      assert qs[i] in qs && qs[j] in qs;
      if EndsWith(qs[i].1, "\n" + qs[j].1) { EndsWithNewline(qs[i].1, qs[j].1); }
      if EndsWith(qs[j].1, "\n" + qs[i].1) { EndsWithNewline(qs[j].1, qs[i].1); }
      PairKeyExact(qs[i].0, qs[i].1, qs[j].0, qs[j].1);
    }
  }
}
