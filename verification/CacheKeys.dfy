/**
The keys under which verdicts are cached: command, newline, server, newline, sorted role names. What such a key tells
apart, and what it decides.
*/
module CacheKeys {
  import opened Strings
  import opened Sorting
  import opened UserCache
  import opened Authorization

  // ---------------------------------------------------------------- keys

  function PairKey(a: string, b: string): string {
    a + "\n" + b
  }

  function CommandKey(cmd: string, server: string, rolesKey: string): string {
    PairKey(PairKey(cmd, server), rolesKey)
  }

  predicate EndsWith(a: string, b: string) {
    |b| <= |a| && a[|a| - |b|..] == b
  }

  /** Two pairs have one key only if the second half of one ends with a newline and the second half of the other. */
  lemma PairKeyParts(a: string, b: string, c: string, d: string)
    requires PairKey(a, b) == PairKey(c, d) && |b| >= |d|
    ensures (a == c && b == d) || EndsWith(b, "\n" + d)
  {
    var k := PairKey(a, b);
    assert k[|a| + 1..] == b && k[|c| + 1..] == d;
    assert k[..|a|] == a && k[..|c|] == c;
    if |b| > |d| {
      var n := |b| - |d| - 1;
      assert k[|c|..] == "\n" + d;
      assert b[n..] == k[|a| + 1..][n..] == k[|a| + 1 + n..];
    }
  }

  lemma PairKeyExact(a: string, b: string, c: string, d: string)
    requires PairKey(a, b) == PairKey(c, d)
    requires !EndsWith(b, "\n" + d) && !EndsWith(d, "\n" + b)
    ensures a == c && b == d
  {
    if |b| >= |d| { PairKeyParts(a, b, c, d); } else { PairKeyParts(c, d, a, b); }
  }

  lemma EndsWithNewline(a: string, b: string)
    requires EndsWith(a, "\n" + b)
    ensures '\n' in a
  {
    assert a[|a| - |b| - 1..][0] == '\n';
  }

  /** No server is the tail of another after a newline; true of any servers without newlines. */
  ghost predicate Separate(servers: iset<string>) {
    forall a, b | a in servers && b in servers :: !EndsWith(a, "\n" + b)
  }

  lemma NewlineFreeSeparate(servers: iset<string>)
    requires forall a | a in servers :: '\n' !in a
    ensures Separate(servers)
  {
    forall a, b | a in servers && b in servers ensures !EndsWith(a, "\n" + b) {
      if EndsWith(a, "\n" + b) { EndsWithNewline(a, b); }
    }
  }

  lemma CommandKeyExact(
      servers: iset<string>, cmd: string, server: string, key: string, cmd': string, server': string, key': string)
    requires Separate(servers) && server in servers && server' in servers
    requires '\n' !in key && '\n' !in key'
    requires CommandKey(cmd, server, key) == CommandKey(cmd', server', key')
    ensures cmd == cmd' && server == server' && key == key'
  {
    if EndsWith(key, "\n" + key') { EndsWithNewline(key, key'); }
    if EndsWith(key', "\n" + key) { EndsWithNewline(key', key); }
    PairKeyExact(PairKey(cmd, server), key, PairKey(cmd', server'), key');
    PairKeyExact(cmd, server, cmd', server');
  }

  // ---------------------------------------------------------------- role lists and servers

  /** The names of the roles of a user, in the order of listing; a name with a comma cannot be listed. */
  predicate RoleList(names: iset<string>, xs: seq<string>) {
    xs != [] && forall x | x in xs :: x in names && ',' !in x
  }

  function KeyOf(xs: seq<string>): string {
    Join(Sort(xs), ',')
  }

  /** What a command key holds after the command. */
  function Tail(server: string, xs: seq<string>): string {
    PairKey(server, KeyOf(xs))
  }

  lemma CommandThenTail(cmd: string, server: string, xs: seq<string>)
    ensures CommandKey(cmd, server, KeyOf(xs)) == PairKey(cmd, Tail(server, xs))
  {
    assert (cmd + "\n" + server) + "\n" + KeyOf(xs) == cmd + "\n" + (server + "\n" + KeyOf(xs));
  }

  /** Some role of the list has a name: one without never matches. */
  predicate Named(xs: seq<string>) {
    exists x | x in xs :: x != ""
  }

  /** Two servers with two role lists, of which one has a name: their tails do not run into each other. */
  predicate ToldApart(s: string, xs: seq<string>, s': string, xs': seq<string>) {
    Named(xs) || Named(xs') ==>
      !EndsWith(Tail(s', xs'), "\n" + Tail(s, xs)) && (Tail(s', xs') == Tail(s, xs) ==> s' == s)
  }

  /** Any two requests for those servers, by users with roles of those names, are told apart by their command keys. */
  ghost predicate Apart(servers: iset<string>, names: iset<string>) {
    forall s, s', xs, xs' | s in servers && s' in servers && RoleList(names, xs) && RoleList(names, xs') ::
      ToldApart(s, xs, s', xs')
  }

  lemma ApartKeys(
      servers: iset<string>, names: iset<string>,
      cmd: string, s: string, xs: seq<string>, cmd': string, s': string, xs': seq<string>)
    requires Apart(servers, names) && s in servers && s' in servers && RoleList(names, xs) && RoleList(names, xs')
    requires Named(xs) || Named(xs')
    requires CommandKey(cmd, s, KeyOf(xs)) == CommandKey(cmd', s', KeyOf(xs'))
    ensures cmd == cmd' && s == s' && KeyOf(xs) == KeyOf(xs')
  {
    assert ToldApart(s, xs, s', xs') && ToldApart(s', xs', s, xs);
    CommandThenTail(cmd, s, xs);
    CommandThenTail(cmd', s', xs');
    PairKeyExact(cmd, Tail(s, xs), cmd', Tail(s', xs'));
    assert Tail(s, xs)[|s| + 1..] == KeyOf(xs) && Tail(s', xs')[|s'| + 1..] == KeyOf(xs');
  }

  // ---------------------------------------------------------------- what the role key decides

  /** A user as one snapshot has it: every role is what the snapshot's templates make of that name. */
  ghost predicate InfoOk(lib: Library, info: RoleInfo, u: UserInfo) {
    u.rolesKey == RoleKey(u.roles) &&
    forall r | r in u.roles :: r.name in info && r == Acl(lib, r.name, info[r.name]) && ',' !in r.name
  }

  lemma SortedNames(a: seq<RoleAcl>)
    requires forall r | r in a :: ',' !in r.name
    ensures forall x :: x in Sort(AclNames(a)) <==> x in AclNames(a)
    ensures Without(Sort(AclNames(a)), ',') && |Sort(AclNames(a))| == |a|
  {
    var names := AclNames(a);
    var s := Sort(names);
    SameElements(s, names);
    forall i | 0 <= i < |s| ensures ',' !in s[i] {
      assert s[i] in names;
      var j :| 0 <= j < |names| && names[j] == s[i];
      assert a[j] in a;
    }
  }

  lemma KeyGivesNames(a: seq<RoleAcl>, b: seq<RoleAcl>)
    requires a != [] && b != [] && RoleKey(a) == RoleKey(b)
    requires (forall r | r in a :: ',' !in r.name) && forall r | r in b :: ',' !in r.name
    ensures forall x :: x in AclNames(a) <==> x in AclNames(b)
  {
    SortedNames(a);
    SortedNames(b);
    JoinInjective(Sort(AclNames(a)), Sort(AclNames(b)), ',');
  }

  lemma SomeMatchesUnder(lib: Library, info: RoleInfo, cmd: string, server: string, a: UserInfo, b: UserInfo)
    requires InfoOk(lib, info, a) && InfoOk(lib, info, b)
    requires forall x | x in AclNames(a.roles) :: x in AclNames(b.roles)
    ensures SomeMatches(lib, cmd, server, a.roles) ==> SomeMatches(lib, cmd, server, b.roles)
  {
    if SomeMatches(lib, cmd, server, a.roles) {
      var i :| 0 <= i < |a.roles| && RoleMatches(lib, cmd, server, a.roles[i]);
      assert AclNames(a.roles)[i] in AclNames(b.roles);
      var j :| 0 <= j < |b.roles| && AclNames(b.roles)[j] == a.roles[i].name;
      assert b.roles[j] in b.roles && a.roles[i] in a.roles;
    }
  }

  /** Users whose role keys agree are decided alike, in whatever order they list their roles. */
  lemma KeyDecides(lib: Library, info: RoleInfo, cmd: string, server: string, a: UserInfo, b: UserInfo)
    requires InfoOk(lib, info, a) && InfoOk(lib, info, b)
    requires a.roles != [] && b.roles != [] && a.rolesKey == b.rolesKey
    ensures SomeMatches(lib, cmd, server, a.roles) <==> SomeMatches(lib, cmd, server, b.roles)
  {
    KeyGivesNames(a.roles, b.roles);
    SomeMatchesUnder(lib, info, cmd, server, a, b);
    SomeMatchesUnder(lib, info, cmd, server, b, a);
  }

  // ---------------------------------------------------------------- snapshots

  /** Every user of the map is sound, under templates of those names. */
  ghost predicate SnapshotOk(lib: Library, names: iset<string>, info: RoleInfo, users: UserMap) {
    (forall n | n in info :: n in names) && forall u | u in users :: InfoOk(lib, info, users[u])
  }

  lemma {:induction false} AclsOk(lib: Library, info: RoleInfo, names: seq<string>)
    requires Without(names, ',')
    ensures forall r | r in Acls(lib, info, names) ::
        r.name in info && r == Acl(lib, r.name, info[r.name]) && ',' !in r.name
  {
    if names != [] { AclsOk(lib, info, names[..|names| - 1]); }
  }

  lemma {:induction false} CompileOk(lib: Library, info: RoleInfo, rows: seq<UserRow>, onDuty: seq<string>)
    ensures forall u | u in Compile(lib, info, rows, onDuty) :: InfoOk(lib, info, Compile(lib, info, rows, onDuty)[u])
  {
    if rows != [] {
      CompileOk(lib, info, rows[..|rows| - 1], onDuty);
      var names := Split(rows[|rows| - 1].role, ',');
      SplitPieces(rows[|rows| - 1].role, ',');
      AclsOk(lib, info, names);
    }
  }

  lemma {:induction false} ReadRolesNames(todo: seq<string>, info: RoleInfo, t: Tables)
    ensures forall n | n in ReadRoles(todo, info, t) :: n in info || n in todo
    decreases |todo|
  {
    if todo != [] {
      var row := RoleByTemplate(t.roles, todo[0]);
      ReadRolesNames(todo[1..], if row.id == 0 then info else info[todo[0] := ListsOf(row, t)], t);
    }
  }

  /** Every role template has one of those names. */
  ghost predicate NamesWithin(t: Tables, names: iset<string>) {
    forall row | row in t.roles :: row.template in names
  }

  function InfoFrom(t: Tables): RoleInfo {
    ReadRoles(Names(t.roles), map[], t)
  }

  lemma BuildOk(lib: Library, names: iset<string>, t: Tables)
    requires NamesWithin(t, names)
    ensures SnapshotOk(lib, names, InfoFrom(t), Build(lib, t))
  {
    CompileOk(lib, InfoFrom(t), t.users, t.onDuty);
    ReadRolesNames(Names(t.roles), map[], t);
    forall n | n in InfoFrom(t) ensures n in names {
      var i :| 0 <= i < |t.roles| && Names(t.roles)[i] == n;
      assert t.roles[i] in t.roles;
    }
  }

  /** The roles of a user of a snapshot are such a list, and the key is that of the list. */
  lemma RolesListed(lib: Library, names: iset<string>, info: RoleInfo, users: UserMap, u: string)
    requires SnapshotOk(lib, names, info, users) && u in users && users[u].roles != []
    ensures RoleList(names, AclNames(users[u].roles)) && users[u].rolesKey == KeyOf(AclNames(users[u].roles))
  {
    var roles := users[u].roles;
    var xs := AclNames(roles);
    assert InfoOk(lib, info, users[u]);
    forall x | x in xs ensures x in names && ',' !in x {
      var i :| 0 <= i < |xs| && xs[i] == x;
      assert roles[i] in roles;
    }
  }

  lemma NamelessNeverMatch(lib: Library, cmd: string, server: string, roles: seq<RoleAcl>)
    requires !Named(AclNames(roles))
    ensures !SomeMatches(lib, cmd, server, roles)
  {
    forall i | 0 <= i < |roles| ensures !RoleMatches(lib, cmd, server, roles[i]) {
      assert AclNames(roles)[i] in AclNames(roles);
    }
  }

  /** One key, one verdict: for servers and names that are told apart. */
  lemma KeyDeterminesVerdict(
      lib: Library, servers: iset<string>, names: iset<string>, info: RoleInfo, users: UserMap,
      cmd: string, server: string, u: string, cmd': string, server': string, u': string)
    requires SnapshotOk(lib, names, info, users) && Apart(servers, names)
    requires server in servers && u in users && users[u].roles != []
    requires server' in servers && u' in users && users[u'].roles != []
    requires CommandKey(cmd, server, users[u].rolesKey) == CommandKey(cmd', server', users[u'].rolesKey)
    ensures SomeMatches(lib, cmd, server, users[u].roles) <==> SomeMatches(lib, cmd', server', users[u'].roles)
  {
    var xs, xs' := AclNames(users[u].roles), AclNames(users[u'].roles);
    RolesListed(lib, names, info, users, u);
    RolesListed(lib, names, info, users, u');
    if Named(xs) || Named(xs') {
      ApartKeys(servers, names, cmd, server, xs, cmd', server', xs');
      KeyDecides(lib, info, cmd, server, users[u], users[u']);
    } else {
      NamelessNeverMatch(lib, cmd, server, users[u].roles);
      NamelessNeverMatch(lib, cmd', server', users[u'].roles);
    }
  }

  // ---------------------------------------------------------------- names without newlines

  ghost function PlainNames(): iset<string> {
    iset n: string | '\n' !in n
  }

  lemma {:induction false} JoinPlain(parts: seq<string>, c: char)
    requires c != ',' && Without(parts, c)
    ensures c !in Join(parts, ',')
  {
    if |parts| > 1 { JoinPlain(parts[1..], c); }
  }

  lemma KeyPlain(xs: seq<string>)
    requires RoleList(PlainNames(), xs)
    ensures '\n' !in KeyOf(xs)
  {
    var sorted := Sort(xs);
    SameElements(sorted, xs);
    forall i | 0 <= i < |sorted| ensures '\n' !in sorted[i] {
      assert sorted[i] in xs;
    }
    JoinPlain(sorted, '\n');
  }

  /** For names without newlines only the servers matter. */
  lemma ApartOfPlainNames(servers: iset<string>)
    ensures Apart(servers, PlainNames()) <==> Separate(servers)
  {
    if Separate(servers) {
      forall s, s', xs, xs' | s in servers && s' in servers && RoleList(PlainNames(), xs) && RoleList(PlainNames(), xs')
        ensures ToldApart(s, xs, s', xs')
      {
        SeparateToldApart(servers, s, xs, s', xs');
      }
    } else {
      var a, b :| a in servers && b in servers && EndsWith(a, "\n" + b);
      assert "r" in ["r"];
      assert RoleList(PlainNames(), ["r"]) && Named(["r"]);
      TailsRunOn(a, b, ["r"]);
      assert !ToldApart(b, ["r"], a, ["r"]);
    }
  }

  lemma TailsRunOn(a: string, b: string, xs: seq<string>)
    requires EndsWith(a, "\n" + b)
    ensures EndsWith(Tail(a, xs), "\n" + Tail(b, xs))
  {
    var n := |a| - |b| - 1;
    var k := KeyOf(xs);
    assert a == a[..n] + ("\n" + b);
    assert Tail(a, xs) == a[..n] + ("\n" + (b + "\n" + k));
  }

  lemma SeparateToldApart(servers: iset<string>, s: string, xs: seq<string>, s': string, xs': seq<string>)
    requires Separate(servers) && s in servers && s' in servers
    requires RoleList(PlainNames(), xs) && RoleList(PlainNames(), xs')
    ensures ToldApart(s, xs, s', xs')
  {
    KeyPlain(xs);
    KeyPlain(xs');
    var t, t' := Tail(s, xs), Tail(s', xs');
    if EndsWith(t', "\n" + t) {
      var head := t'[..|t'| - |t| - 1];
      assert t' == PairKey(head, t);
      CommandThenTail(PairKey("x", head), s, xs);
      CommandThenTail("x", s', xs');
      assert PairKey("x", PairKey(head, t)) == PairKey(PairKey("x", head), t);
      CommandKeyExact(servers, "x", s', KeyOf(xs'), PairKey("x", head), s, KeyOf(xs));
    }
    if t' == t {
      CommandThenTail("", s, xs);
      CommandThenTail("", s', xs');
      CommandKeyExact(servers, "", s', KeyOf(xs'), "", s, KeyOf(xs));
    }
  }
}
