/** Exactly when the cached verdicts are right: servers and role names that the command keys tell apart. */
module CacheExactness {
  import opened Strings
  import opened Sorting
  import opened UserCache
  import opened Authorization
  import opened CacheKeys
  import opened MemoCaches

  /**
  The verdicts are right for every library and every sequence of requests for those servers and refreshes with role
  templates of those names, each of them one step.
  */
  ghost predicate AlwaysDirect(servers: iset<string>, names: iset<string>) {
    forall lib: Library, events: seq<Event> | (forall e | e in events :: Within(servers, names, e)) ::
      Answers(lib, map[], map[], events) == Direct(lib, map[], events)
  }

  // ---------------------------------------------------------------- tables with two users

  /** The pattern "p" matches that command, other patterns match nothing, and every server is an address. */
  function OnlyCommand(only: string): Library {
    Library(_ => true, (c, cmd) => c == "p" && cmd == only, _ => true, _ => false, _ => false, (n, server) => false)
  }

  /** Templates of those names, all with the same lists. */
  function Templates(names: seq<string>): seq<RoleRow> {
    if names == [] then [] else [RoleRow(1, names[0], "s", "c")] + Templates(names[1..])
  }

  function Permits(servers: seq<string>): seq<Entry> {
    if servers == [] then [] else [Entry("s", servers[0])] + Permits(servers[1..])
  }

  /** One user with the roles `xs`, one with the roles `ys`, and the same pattern and servers for every role. */
  function TwoUsers(xs: seq<string>, ys: seq<string>, pattern: string, permitted: seq<string>): Tables {
    Tables(Templates(xs + ys), Permits(permitted), [Entry("c", pattern)],
           [UserRow("u", Join(xs, ','), "", "1"), UserRow("v", Join(ys, ','), "", "1")], [])
  }

  lemma {:induction false} TemplateOf(all: seq<string>, n: string)
    ensures n in all ==> RoleByTemplate(Templates(all), n) == RoleRow(1, n, "s", "c")
  {
    if all != [] {
      TemplateOf(all[1..], n);
      assert Templates(all)[1..] == Templates(all[1..]);
    }
  }

  lemma {:induction false} NamesOfTemplates(all: seq<string>)
    ensures Names(Templates(all)) == all
  {
    if all != [] {
      NamesOfTemplates(all[1..]);
      assert Templates(all)[1..] == Templates(all[1..]);
    }
  }

  lemma {:induction false} ValuesOfPermits(servers: seq<string>)
    ensures Values(Permits(servers), "s") == servers
  {
    if servers != [] {
      ValuesOfPermits(servers[1..]);
      assert Permits(servers)[1..] == Permits(servers[1..]);
    }
  }

  lemma OneList(rows: seq<Entry>, name: string)
    requires ',' !in name && !Blank(name)
    ensures ReadLists(Split(name, ','), [], rows) == Values(rows, name)
  {
    SplitOfPiece(name, ',');
    assert [name][1..] == [];
  }

  function ListsFor(pattern: string, permitted: seq<string>): Lists {
    Lists([pattern], permitted)
  }

  lemma TemplateLists(n: string, t: Tables, pattern: string, permitted: seq<string>)
    requires t.servers == Permits(permitted) && t.commands == [Entry("c", pattern)]
    ensures ListsOf(RoleRow(1, n, "s", "c"), t) == ListsFor(pattern, permitted)
  {
    assert 's' in "s" && 'c' in "c" && 's' !in SPACES && 'c' !in SPACES;
    OneList(t.servers, "s");
    OneList(t.commands, "c");
    ValuesOfPermits(permitted);
    assert t.commands[1..] == [];
  }

  /** Every template read gets the same lists. */
  ghost predicate Uniform(info: RoleInfo, l: Lists) {
    forall n | n in info :: info[n] == l
  }

  lemma {:induction false} ReadUniform(
      todo: seq<string>, all: seq<string>, info: RoleInfo, t: Tables, pattern: string, permitted: seq<string>)
    requires t.roles == Templates(all) && t.servers == Permits(permitted) && t.commands == [Entry("c", pattern)]
    requires (forall n | n in todo :: n in all) && Uniform(info, ListsFor(pattern, permitted))
    ensures var r := ReadRoles(todo, info, t);
      Uniform(r, ListsFor(pattern, permitted)) && (forall n | n in info :: n in r) && forall n | n in todo :: n in r
    decreases |todo|
  {
    if todo != [] {
      TemplateOf(all, todo[0]);
      TemplateLists(todo[0], t, pattern, permitted);
      ReadUniform(todo[1..], all, info[todo[0] := ListsFor(pattern, permitted)], t, pattern, permitted);
      assert forall n | n in todo :: n == todo[0] || n in todo[1..];
    }
  }

  lemma {:induction false} AclsOfAll(lib: Library, info: RoleInfo, xs: seq<string>, l: Lists)
    requires Uniform(info, l) && forall x | x in xs :: x in info
    ensures |Acls(lib, info, xs)| == |xs|
    ensures forall i | 0 <= i < |xs| :: Acls(lib, info, xs)[i] == Acl(lib, xs[i], l)
  {
    if xs != [] {
      var n := |xs| - 1;
      AclsOfAll(lib, info, xs[..n], l);
      assert xs[n] in info;
    }
  }

  /** A user of those tables, compiled with a library that takes every pattern and every address. */
  ghost predicate CompiledWith(lib: Library, u: UserInfo, xs: seq<string>, pattern: string, permitted: seq<string>) {
    !u.isOnDuty && u.rolesKey == KeyOf(xs) && |u.roles| == |xs| &&
    forall i | 0 <= i < |xs| :: u.roles[i] == Acl(lib, xs[i], ListsFor(pattern, permitted))
  }

  lemma UserCompiled(
      lib: Library, info: RoleInfo, row: UserRow, xs: seq<string>, pattern: string, permitted: seq<string>)
    requires Uniform(info, ListsFor(pattern, permitted)) && (forall x | x in xs :: x in info && ',' !in x) && xs != []
    requires row.role == Join(xs, ',')
    ensures CompiledWith(lib, InfoOf(lib, info, row, []), xs, pattern, permitted)
  {
    SplitJoin(xs, ',');
    AclsOfAll(lib, info, xs, ListsFor(pattern, permitted));
    var roles := Acls(lib, info, xs);
    assert AclNames(roles) == xs;
  }

  lemma TwoUsersInfo(xs: seq<string>, ys: seq<string>, pattern: string, permitted: seq<string>)
    ensures var info := InfoFrom(TwoUsers(xs, ys, pattern, permitted));
      Uniform(info, ListsFor(pattern, permitted)) && (forall x | x in xs :: x in info) &&
      forall y | y in ys :: y in info
  {
    var all := xs + ys;
    NamesOfTemplates(all);
    ReadUniform(all, all, map[], TwoUsers(xs, ys, pattern, permitted), pattern, permitted);
    assert (forall x | x in xs :: x in all) && forall y | y in ys :: y in all;
  }

  lemma OneUserBuilt(
      lib: Library, info: RoleInfo, rows: seq<UserRow>, i: nat, xs: seq<string>, pattern: string,
      permitted: seq<string>)
    requires i < |rows| && LastOf(rows, i) && rows[i].role == Join(xs, ',') && xs != []
    requires Uniform(info, ListsFor(pattern, permitted)) && forall x | x in xs :: x in info && ',' !in x
    ensures var users := Compile(lib, info, rows, []);
      rows[i].user in users && CompiledWith(lib, users[rows[i].user], xs, pattern, permitted)
  {
    UserCompiled(lib, info, rows[i], xs, pattern, permitted);
    CompiledAsLast(lib, info, rows, [], i);
  }

  lemma TwoUsersBuilt(lib: Library, xs: seq<string>, ys: seq<string>, pattern: string, permitted: seq<string>)
    requires xs != [] && ys != [] && (forall x | x in xs :: ',' !in x) && forall y | y in ys :: ',' !in y
    ensures var users := Build(lib, TwoUsers(xs, ys, pattern, permitted));
      "u" in users && CompiledWith(lib, users["u"], xs, pattern, permitted) &&
      "v" in users && CompiledWith(lib, users["v"], ys, pattern, permitted)
  {
    var t := TwoUsers(xs, ys, pattern, permitted);
    var info := InfoFrom(t);
    TwoUsersInfo(xs, ys, pattern, permitted);
    assert t.users[0].user == "u" && t.users[1].user == "v";
    OneUserBuilt(lib, info, t.users, 0, xs, pattern, permitted);
    OneUserBuilt(lib, info, t.users, 1, ys, pattern, permitted);
  }

  /** What such a user may do. */
  predicate May(
      xs: seq<string>, only: string, pattern: string, permitted: seq<string>, cmd: string, server: string)
  {
    Named(xs) && pattern == "p" && cmd == only && (server == "" || server in permitted)
  }

  lemma CompiledMatches(
      only: string, u: UserInfo, xs: seq<string>, pattern: string, permitted: seq<string>, cmd: string, server: string)
    requires CompiledWith(OnlyCommand(only), u, xs, pattern, permitted) && cmd != ""
    ensures SomeMatches(OnlyCommand(only), cmd, server, u.roles) <==> May(xs, only, pattern, permitted, cmd, server)
  {
    var lib := OnlyCommand(only);
    var may := pattern == "p" && cmd == only && (server == "" || server in permitted);
    forall i | 0 <= i < |xs| ensures RoleMatches(lib, cmd, server, u.roles[i]) <==> xs[i] != "" && may {
      AclMatches(only, xs[i], pattern, permitted, cmd, server);
    }
    if Named(xs) && may {
      var i :| 0 <= i < |xs| && xs[i] != "";
      assert u.roles[i] in u.roles;
    }
    if SomeMatches(lib, cmd, server, u.roles) {
      var i :| 0 <= i < |u.roles| && RoleMatches(lib, cmd, server, u.roles[i]);
      assert xs[i] in xs;
    }
  }

  lemma AclMatches(only: string, n: string, pattern: string, permitted: seq<string>, cmd: string, server: string)
    requires cmd != ""
    ensures RoleMatches(OnlyCommand(only), cmd, server, Acl(OnlyCommand(only), n, ListsFor(pattern, permitted)))
      <==> n != "" && pattern == "p" && cmd == only && (server == "" || server in permitted)
  {
    var lib := OnlyCommand(only);
    var role := Acl(lib, n, ListsFor(pattern, permitted));
    assert forall c :: c in role.commands <==> c in [pattern];
    assert pattern in [pattern];
    assert forall x :: x in role.ips <==> x in permitted;
    assert !lib.parses(server);
  }

  // ---------------------------------------------------------------- two requests with one key

  lemma AfterPublish(lib: Library, t: Tables, r1: Request, r2: Request)
    ensures Answers(lib, map[], map[], [Publish(t), Ask(r1), Ask(r2)])
      == Answers(lib, Build(lib, t), map[], [Ask(r1), Ask(r2)])
    ensures Direct(lib, map[], [Publish(t), Ask(r1), Ask(r2)]) == Direct(lib, Build(lib, t), [Ask(r1), Ask(r2)])
  {
    assert [Publish(t), Ask(r1), Ask(r2)][1..] == [Ask(r1), Ask(r2)];
  }

  lemma {:induction false} TemplatesWithin(all: seq<string>, names: iset<string>)
    requires forall n | n in all :: n in names
    ensures forall row | row in Templates(all) :: row.template in names
  {
    if all != [] { TemplatesWithin(all[1..], names); }
  }

  /** First the user `v` asks, then the user `u`, with one key and different verdicts. */
  lemma Confused(
      servers: iset<string>, names: iset<string>, xs: seq<string>, ys: seq<string>, only: string,
      permitted: seq<string>, cmd: string, server: string, cmd': string, server': string)
    requires RoleList(names, xs) && RoleList(names, ys) && server in servers && server' in servers
    requires cmd != "" && cmd' != ""
    requires CommandKey(cmd', server', KeyOf(ys)) == CommandKey(cmd, server, KeyOf(xs))
    requires May(ys, only, "p", permitted, cmd', server') != May(xs, only, "p", permitted, cmd, server)
    ensures !AlwaysDirect(servers, names)
  {
    var lib, t := OnlyCommand(only), TwoUsers(xs, ys, "p", permitted);
    var r1, r2 := Request("v", cmd', server'), Request("u", cmd, server);
    TwoUsersBuilt(lib, xs, ys, "p", permitted);
    var users := Build(lib, t);
    CompiledMatches(only, users["v"], ys, "p", permitted, cmd', server');
    CompiledMatches(only, users["u"], xs, "p", permitted, cmd, server);
    CollidingRequests(lib, users, r1, r2);
    AfterPublish(lib, t, r1, r2);
    TemplatesWithin(xs + ys, names);
    NotAlways(servers, names, lib, t, r1, r2);
  }

  lemma NotAlways(servers: iset<string>, names: iset<string>, lib: Library, t: Tables, r1: Request, r2: Request)
    requires NamesWithin(t, names) && r1.server in servers && r2.server in servers
    requires Answers(lib, map[], map[], [Publish(t), Ask(r1), Ask(r2)])
      != Direct(lib, map[], [Publish(t), Ask(r1), Ask(r2)])
    ensures !AlwaysDirect(servers, names)
  {
    var events := [Publish(t), Ask(r1), Ask(r2)];
    assert forall e | e in events :: Within(servers, names, e);
  }

  /** Servers and roles that are not told apart are confused in a run of one refresh and two requests. */
  lemma NotApartConfused(
      servers: iset<string>, names: iset<string>, s: string, xs: seq<string>, s': string, ys: seq<string>)
    requires s in servers && s' in servers && RoleList(names, xs) && RoleList(names, ys) && !ToldApart(s, xs, s', ys)
    ensures !AlwaysDirect(servers, names)
  {
    var t, t' := Tail(s, xs), Tail(s', ys);
    CommandThenTail("x", s', ys);
    if EndsWith(t', "\n" + t) {
      var head := t'[..|t'| - |t| - 1];
      assert t' == PairKey(head, t);
      var cmd := PairKey("x", head);
      CommandThenTail(cmd, s, xs);
      assert PairKey("x", PairKey(head, t)) == PairKey(cmd, t);
      assert |cmd| > 1;
      Confused(servers, names, xs, ys, if Named(ys) then "x" else cmd, [s, s'], cmd, s, "x", s');
    } else {
      CommandThenTail("x", s, xs);
      var permitted :=
        if !Named(ys) then [s] else if !Named(xs) then [s'] else if s == "" || s' == "" then [] else [s];
      Confused(servers, names, xs, ys, "x", permitted, "x", s, "x", s');
    }
  }

  // ---------------------------------------------------------------- the exact condition

  /**
  With every request and every refresh one step: the cached verdicts are right for every library and every run with
  those servers and those names of role templates exactly when the command keys tell them apart.
  */
  lemma ApartExact(servers: iset<string>, names: iset<string>)
    ensures AlwaysDirect(servers, names) <==> Apart(servers, names)
  {
    if Apart(servers, names) {
      forall lib: Library, events: seq<Event> | forall e | e in events :: Within(servers, names, e)
        ensures Answers(lib, map[], map[], events) == Direct(lib, map[], events)
      {
        CachedIsDirect(lib, servers, names, events);
      }
    } else {
      var s, s', xs, ys :| s in servers && s' in servers && RoleList(names, xs) && RoleList(names, ys) &&
        !ToldApart(s, xs, s', ys);
      NotApartConfused(servers, names, s, xs, s', ys);
    }
  }

  /**
  If no name of a role template holds a newline, that is when no server is the tail of another after a newline.
  */
  lemma SeparateExact(servers: iset<string>)
    ensures AlwaysDirect(servers, PlainNames()) <==> Separate(servers)
  {
    ApartExact(servers, PlainNames());
    ApartOfPlainNames(servers);
  }

  /** In particular they are right if neither servers nor names of role templates hold a newline. */
  lemma PlainServersDirect(servers: iset<string>)
    requires forall a | a in servers :: '\n' !in a
    ensures AlwaysDirect(servers, PlainNames())
  {
    NewlineFreeSeparate(servers);
    SeparateExact(servers);
  }

  /** Servers without newlines are not enough: with two role names, of which one holds a newline, they are confused. */
  lemma NamesMatter()
    ensures Separate(iset{"s", "a"}) && !AlwaysDirect(iset{"s", "a"}, iset{"b", "a\nb"})
  {
    NewlineFreeSeparate(iset{"s", "a"});
    var xs, ys := ["b"], ["a\nb"];
    assert "b" in xs && "a\nb" in ys;
    OneKey("b");
    OneKey("a\nb");
    assert Tail("s", ys) == "s" + ("\n" + Tail("a", xs));
    assert EndsWith(Tail("s", ys), "\n" + Tail("a", xs));
    NotApartConfused(iset{"s", "a"}, iset{"b", "a\nb"}, "a", xs, "s", ys);
  }

  lemma OneKey(x: string)
    ensures KeyOf([x]) == x
  {
    assert [x][1..] == [];
    assert Sort([x]) == [x];
  }
}
