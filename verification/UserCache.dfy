/**
How the client turns the database tables into its user map, and how it decides that the map is current:
read the version vector, read the tables one by one, read the vector again, publish if it is the same.
*/
module UserCache {
  import opened Strings
  import opened Sorting
  import opened MetaVersion
  import opened Results
  import opened Refresh

  // ---------------------------------------------------------------- tables

  datatype RoleRow = RoleRow(id: nat, template: string, servers: string, commands: string)

  /** A row of the server or of the command template table. */
  datatype Entry = Entry(template: string, value: string)

  datatype UserRow = UserRow(user: string, role: string, password: string, status: string)

  datatype Tables = Tables(
    roles: seq<RoleRow>, servers: seq<Entry>, commands: seq<Entry>, users: seq<UserRow>, onDuty: seq<string>)

  const NO_ROLE := RoleRow(0, "", "", "")

  /** The first row of that name. */
  function RoleByTemplate(rows: seq<RoleRow>, name: string): RoleRow {
    if rows == [] then NO_ROLE
    else if rows[0].template == name then rows[0]
    else RoleByTemplate(rows[1..], name)
  }

  function Values(rows: seq<Entry>, name: string): seq<string> {
    if rows == [] then []
    else (if rows[0].template == name then [rows[0].value] else []) + Values(rows[1..], name)
  }

  function Names(rows: seq<RoleRow>): (r: seq<string>)
    ensures |r| == |rows| && forall i | 0 <= i < |rows| :: r[i] == rows[i].template
  {
    if rows == [] then [] else [rows[0].template] + Names(rows[1..])
  }

  // ---------------------------------------------------------------- roles

  datatype Lists = Lists(commands: seq<string>, servers: seq<string>)

  type RoleInfo = map<string, Lists>

  function ReadLists(todo: seq<string>, got: seq<string>, rows: seq<Entry>): seq<string> {
    if todo == [] then got
    else ReadLists(todo[1..], if Blank(todo[0]) then got else got + Values(rows, todo[0]), rows)
  }

  function ListsOf(row: RoleRow, t: Tables): Lists {
    Lists(ReadLists(Split(row.commands, ','), [], t.commands), ReadLists(Split(row.servers, ','), [], t.servers))
  }

  function ReadRoles(todo: seq<string>, info: RoleInfo, t: Tables): RoleInfo
    decreases |todo|
  {
    if todo == [] then info
    else
      var row := RoleByTemplate(t.roles, todo[0]);
      ReadRoles(todo[1..], if row.id == 0 then info else info[todo[0] := ListsOf(row, t)], t)
  }

  method CollectLists(todo: seq<string>, rows: seq<Entry>) returns (got: seq<string>)
    ensures got == ReadLists(todo, [], rows)
  {
    got := [];
    for i := 0 to |todo|
      invariant ReadLists(todo[i..], got, rows) == ReadLists(todo, [], rows)
    {
      assert todo[i..][1..] == todo[i + 1..];
      if Blank(todo[i]) { continue; }
      got := got + Values(rows, todo[i]);
    }
  }

  /** `getAllRoleCmdsServers` against tables that stand still. */
  method GetAllRoleCmdsServers(t: Tables) returns (info: RoleInfo)
    ensures info == ReadRoles(Names(t.roles), map[], t)
  {
    info := map[];
    var names := Names(t.roles);
    for i := 0 to |names|
      invariant ReadRoles(names[i..], info, t) == ReadRoles(names, map[], t)
    {
      assert names[i..][1..] == names[i + 1..];
      var row := RoleByTemplate(t.roles, names[i]);
      if row.id == 0 { continue; }
      var servers := CollectLists(Split(row.servers, ','), t.servers);
      var commands := CollectLists(Split(row.commands, ','), t.commands);
      info := info[names[i] := Lists(commands, servers)];
    }
  }

  // ---------------------------------------------------------------- users

  /**
  What the library answers about a pattern or an address. A compiled pattern or a parsed network is kept as the
  text it came from, which determines it.
  */
  datatype Library = Library(
    compiles: string -> bool, matches: (string, string) -> bool,
    isIp: string -> bool, isNet: string -> bool, parses: string -> bool, contains: (string, string) -> bool)

  datatype RoleAcl = RoleAcl(name: string, commands: seq<string>, ips: seq<string>, nets: seq<string>)

  datatype UserInfo = UserInfo(
    isOnDuty: bool, roles: seq<RoleAcl>, rolesKey: string, password: string, args: seq<string>)

  type UserMap = map<string, UserInfo>

  function Keep(xs: seq<string>, p: string -> bool): (r: seq<string>)
    ensures forall x :: x in r <==> x in xs && p(x)
  {
    if xs == [] then [] else Keep(xs[..|xs| - 1], p) + if p(xs[|xs| - 1]) then [xs[|xs| - 1]] else []
  }

  function Acl(lib: Library, name: string, lists: Lists): RoleAcl {
    RoleAcl(name, Keep(lists.commands, lib.compiles), Keep(lists.servers, lib.isIp),
            Keep(lists.servers, s => !lib.isIp(s) && lib.isNet(s)))
  }

  function Acls(lib: Library, info: RoleInfo, names: seq<string>): seq<RoleAcl> {
    if names == [] then []
    else
      var last := names[|names| - 1];
      Acls(lib, info, names[..|names| - 1]) + if last in info then [Acl(lib, last, info[last])] else []
  }

  function AclNames(roles: seq<RoleAcl>): (r: seq<string>)
    ensures |r| == |roles| && forall i | 0 <= i < |r| :: r[i] == roles[i].name
  {
    if roles == [] then [] else [roles[0].name] + AclNames(roles[1..])
  }

  /** `generateRoleKey`: an empty join is the empty string too. */
  function RoleKey(roles: seq<RoleAcl>): string {
    Join(Sort(AclNames(roles)), ',')
  }

  function InfoOf(lib: Library, info: RoleInfo, row: UserRow, onDuty: seq<string>): UserInfo {
    var roles := Acls(lib, info, Split(row.role, ','));
    UserInfo(row.user in onDuty, roles, RoleKey(roles), row.password, ["priv-lvl=15"])
  }

  /** Later rows of a user win; rows whose status is not normal are passed over. */
  function Compile(lib: Library, info: RoleInfo, rows: seq<UserRow>, onDuty: seq<string>): UserMap {
    if rows == [] then map[]
    else
      var row := rows[|rows| - 1];
      var before := Compile(lib, info, rows[..|rows| - 1], onDuty);
      if row.status != "1" then before else before[row.user := InfoOf(lib, info, row, onDuty)]
  }

  method CompileAcls(lib: Library, info: RoleInfo, names: seq<string>) returns (roles: seq<RoleAcl>)
    ensures roles == Acls(lib, info, names)
  {
    roles := [];
    for i := 0 to |names|
      invariant roles == Acls(lib, info, names[..i])
    {
      assert names[..i + 1][..i] == names[..i];
      if names[i] !in info { continue; }
      var lists := info[names[i]];
      roles := roles + [Acl(lib, names[i], lists)];
    }
    assert names[..|names|] == names;
  }

  /** The loop of `updateUsers` over the user rows. */
  method CompileUsers(lib: Library, info: RoleInfo, rows: seq<UserRow>, onDuty: seq<string>) returns (users: UserMap)
    ensures users == Compile(lib, info, rows, onDuty)
  {
    users := map[];
    for i := 0 to |rows|
      invariant users == Compile(lib, info, rows[..i], onDuty)
    {
      assert rows[..i + 1][..i] == rows[..i];
      if rows[i].status != "1" { continue; }
      var roles := CompileAcls(lib, info, Split(rows[i].role, ','));
      var u := UserInfo(rows[i].user in onDuty, roles, RoleKey(roles), rows[i].password, ["priv-lvl=15"]);
      users := users[rows[i].user := u];
    }
    assert rows[..|rows|] == rows;
  }

  /** What tables that stand still compile to. */
  function Build(lib: Library, t: Tables): UserMap {
    Compile(lib, ReadRoles(Names(t.roles), map[], t), t.users, t.onDuty)
  }

  /** No later row of normal status is about the same user. */
  predicate LastOf(rows: seq<UserRow>, i: int)
    requires 0 <= i < |rows|
  {
    rows[i].status == "1" && forall j | i < j < |rows| :: rows[j].user != rows[i].user || rows[j].status != "1"
  }

  /** The map holds exactly the users that have a row of normal status. */
  lemma {:induction false} CompiledUsers(
      lib: Library, info: RoleInfo, rows: seq<UserRow>, onDuty: seq<string>, u: string)
    ensures u in Compile(lib, info, rows, onDuty) <==>
      exists i | 0 <= i < |rows| :: rows[i].user == u && rows[i].status == "1"
  {
    if rows != [] {
      CompiledUsers(lib, info, rows[..|rows| - 1], onDuty, u);
    }
  }

  lemma CompilePassesOver(lib: Library, info: RoleInfo, rows: seq<UserRow>, onDuty: seq<string>, u: string)
    requires rows != []
    requires var row := rows[|rows| - 1]; row.user != u || row.status != "1"
    ensures var before := Compile(lib, info, rows[..|rows| - 1], onDuty);
      var after := Compile(lib, info, rows, onDuty);
      (u in after <==> u in before) && (u in after ==> after[u] == before[u])
  {
  }

  /** Each user is as their last such row says. */
  lemma {:induction false} CompiledAsLast(lib: Library, info: RoleInfo, rows: seq<UserRow>, onDuty: seq<string>, i: nat)
    requires i < |rows| && LastOf(rows, i)
    ensures var users := Compile(lib, info, rows, onDuty);
      rows[i].user in users && users[rows[i].user] == InfoOf(lib, info, rows[i], onDuty)
    decreases |rows|
  {
    var n := |rows| - 1;
    if i < n {
      var shorter := rows[..n];
      assert shorter[i] == rows[i] && LastOf(shorter, i);
      CompiledAsLast(lib, info, shorter, onDuty, i);
      CompilePassesOver(lib, info, rows, onDuty, rows[i].user);
    }
  }

  // ---------------------------------------------------------------- the reads of one poll

  /** Where the reads of a poll stand: each form is named after the read that comes next. */
  datatype Reading =
    | ReadRoleNames
    | ReadRole(todo: seq<string>, info: RoleInfo)
    /** `todo` names the roles after the one called `name`. */
    | ReadServers(
        name: string, todo: seq<string>, info: RoleInfo, row: RoleRow, lists: seq<string>, servers: seq<string>)
    | ReadCommands(
        name: string, todo: seq<string>, info: RoleInfo, servers: seq<string>, lists: seq<string>,
        commands: seq<string>)
    | ReadUsers(info: RoleInfo)
    | ReadOnDuty(info: RoleInfo, rows: seq<UserRow>)
    | Complete(users: UserMap)

  /** One read of one table. */
  function Read(lib: Library, p: Reading, t: Tables): Reading {
    match p
    case ReadRoleNames => ReadRole(Names(t.roles), map[])
    case ReadRole(todo, info) =>
      if todo == [] then ReadUsers(info)
      else
        var row := RoleByTemplate(t.roles, todo[0]);
        if row.id == 0 then ReadRole(todo[1..], info)
        else ReadServers(todo[0], todo[1..], info, row, Split(row.servers, ','), [])
    case ReadServers(name, todo, info, row, lists, servers) =>
      if lists == [] then ReadCommands(name, todo, info, servers, Split(row.commands, ','), [])
      else if Blank(lists[0]) then ReadServers(name, todo, info, row, lists[1..], servers)
      else ReadServers(name, todo, info, row, lists[1..], servers + Values(t.servers, lists[0]))
    case ReadCommands(name, todo, info, servers, lists, commands) =>
      if lists == [] then ReadRole(todo, info[name := Lists(commands, servers)])
      else if Blank(lists[0]) then ReadCommands(name, todo, info, servers, lists[1..], commands)
      else ReadCommands(name, todo, info, servers, lists[1..], commands + Values(t.commands, lists[0]))
    case ReadUsers(info) => ReadOnDuty(info, t.users)
    case ReadOnDuty(info, rows) => Complete(Compile(lib, info, rows, t.onDuty))
    case Complete(_) => p
  }

  /** The map the poll would end up with if the tables stood still from here on. */
  function Finish(lib: Library, p: Reading, t: Tables): UserMap {
    match p
    case ReadRoleNames => Build(lib, t)
    case ReadRole(todo, info) => FinishRoles(lib, todo, info, t)
    case ReadServers(name, todo, info, row, lists, servers) =>
      var l := Lists(ReadLists(Split(row.commands, ','), [], t.commands), ReadLists(lists, servers, t.servers));
      FinishRoles(lib, todo, info[name := l], t)
    case ReadCommands(name, todo, info, servers, lists, commands) =>
      FinishRoles(lib, todo, info[name := Lists(ReadLists(lists, commands, t.commands), servers)], t)
    case ReadUsers(info) => Compile(lib, info, t.users, t.onDuty)
    case ReadOnDuty(info, rows) => Compile(lib, info, rows, t.onDuty)
    case Complete(users) => users
  }

  function FinishRoles(lib: Library, todo: seq<string>, info: RoleInfo, t: Tables): UserMap {
    Compile(lib, ReadRoles(todo, info, t), t.users, t.onDuty)
  }

  lemma ListReadKeepsFinish(lib: Library, p: Reading, t: Tables)
    requires (p.ReadServers? || p.ReadCommands?) && p.lists != []
    ensures Finish(lib, Read(lib, p, t), t) == Finish(lib, p, t)
  {
  }

  lemma RoleReadKeepsFinish(lib: Library, p: Reading, t: Tables)
    requires p.ReadRole?
    ensures Finish(lib, Read(lib, p, t), t) == Finish(lib, p, t)
  {
  }

  /** A read does not change what the poll is heading for. */
  lemma ReadKeepsFinish(lib: Library, p: Reading, t: Tables)
    ensures Finish(lib, Read(lib, p, t), t) == Finish(lib, p, t)
  {
    if p.ReadRole? {
      RoleReadKeepsFinish(lib, p, t);
    } else if (p.ReadServers? || p.ReadCommands?) && p.lists != [] {
      ListReadKeepsFinish(lib, p, t);
    }
  }

  /** Reads left, from the roles in `todo` onwards. */
  function RoleReads(todo: seq<string>, t: Tables): nat {
    if todo == [] then 3
    else
      var row := RoleByTemplate(t.roles, todo[0]);
      var lists := if row.id == 0 then 0 else |Split(row.servers, ',')| + |Split(row.commands, ',')| + 2;
      1 + lists + RoleReads(todo[1..], t)
  }

  function ReadsLeft(p: Reading, t: Tables): nat {
    match p
    case ReadRoleNames => 1 + RoleReads(Names(t.roles), t)
    case ReadRole(todo, _) => RoleReads(todo, t)
    case ReadServers(_, todo, _, row, lists, _) => |lists| + |Split(row.commands, ',')| + 2 + RoleReads(todo, t)
    case ReadCommands(_, todo, _, _, lists, _) => |lists| + 1 + RoleReads(todo, t)
    case ReadUsers(_) => 2
    case ReadOnDuty(_, _) => 1
    case Complete(_) => 0
  }

  lemma ReadCounts(lib: Library, p: Reading, t: Tables)
    requires !p.Complete?
    ensures ReadsLeft(Read(lib, p, t), t) == ReadsLeft(p, t) - 1
  {
  }

  // ---------------------------------------------------------------- the protocol over these tables

  function UserReader(lib: Library): Reader<Tables, Reading, UserMap> {
    Reader(
      ReadRoleNames,
      (p: Reading, t: Tables) => Read(lib, p, t),
      (p: Reading) => if p.Complete? then Some(p.users) else None,
      (t: Tables) => Build(lib, t),
      (p: Reading, t: Tables) => Finish(lib, p, t),
      (p: Reading, t: Tables) => ReadsLeft(p, t))
  }

  lemma UserReaderFaithful(lib: Library)
    ensures Faithful(UserReader(lib))
  {
    forall p: Reading, t: Tables ensures ReadOk(UserReader(lib), p, t) {
      ReadKeepsFinish(lib, p, t);
      if !p.Complete? { ReadCounts(lib, p, t); }
    }
  }

  /**
  Over every interleaving of writes, bumps, resets and poll steps: when the client holds the database's version
  string and no write still awaits its bump, the published map is what the present tables compile to.
  */
  lemma AcknowledgedIsCurrent(lib: Library, s: State<Tables, Reading, UserMap>, actions: seq<Action<Tables>>)
    requires Start(s)
    ensures var r := Run(UserReader(lib), s, actions);
      r.ack == VersionString(r.versions) && (r.settled || r.owed == multiset{}) ==> r.users == Build(lib, r.tables)
  {
    UserReaderFaithful(lib);
    HeldIsCurrent(UserReader(lib), s, actions);
  }
}
