/** Deciding an authorization request by the roles of its user. */
module Authorization {
  import opened Strings
  import opened UserCache

  // ---------------------------------------------------------------- direct evaluation

  ghost predicate CommandMatches(lib: Library, cmd: string, role: RoleAcl) {
    cmd == "" || exists c | c in role.commands :: lib.matches(c, cmd)
  }

  ghost predicate ServerMatches(lib: Library, server: string, role: RoleAcl) {
    server == "" || server in role.ips || (lib.parses(server) && exists n | n in role.nets :: lib.contains(n, server))
  }

  /** A role without a name never matches: its name is what reports the match. */
  ghost predicate RoleMatches(lib: Library, cmd: string, server: string, role: RoleAcl) {
    role.name != "" && CommandMatches(lib, cmd, role) && ServerMatches(lib, server, role)
  }

  ghost predicate SomeMatches(lib: Library, cmd: string, server: string, roles: seq<RoleAcl>) {
    exists r | r in roles :: RoleMatches(lib, cmd, server, r)
  }

  method CheckRoleMatch(lib: Library, cmd: string, server: string, role: RoleAcl) returns (name: string)
    ensures name != "" <==> RoleMatches(lib, cmd, server, role)
    ensures name == "" || name == role.name
  {
    var cmdIsPass := cmd == "";
    if !cmdIsPass {
      for i := 0 to |role.commands|
        invariant !cmdIsPass
        invariant forall j | 0 <= j < i :: !lib.matches(role.commands[j], cmd)
      {
        if lib.matches(role.commands[i], cmd) {
          cmdIsPass := true;
          break;
        }
      }
    }
    if !cmdIsPass { return ""; }

    var serverIsPass := server == "";
    if !serverIsPass {
      for i := 0 to |role.ips|
        invariant !serverIsPass
        invariant forall j | 0 <= j < i :: server != role.ips[j]
      {
        if server == role.ips[i] {
          serverIsPass := true;
          break;
        }
      }
    }
    if !serverIsPass && |role.nets| > 0 && lib.parses(server) {
      for i := 0 to |role.nets|
        invariant !serverIsPass
        invariant forall j | 0 <= j < i :: !lib.contains(role.nets[j], server)
      {
        if lib.contains(role.nets[i], server) {
          serverIsPass := true;
          break;
        }
      }
    }
    return if serverIsPass then role.name else "";
  }

  datatype Verdict = Verdict(isPass: bool, reason: string)

  /** The first role that matches decides. */
  ghost function Evaluated(lib: Library, cmd: string, server: string, roles: seq<RoleAcl>): (v: Verdict)
    ensures v.isPass <==> SomeMatches(lib, cmd, server, roles)
  {
    if roles == [] then Verdict(false, "cmd and server are not match")
    else if RoleMatches(lib, cmd, server, roles[0]) then Verdict(true, roles[0].name)
    else
      var v := Evaluated(lib, cmd, server, roles[1..]);
      assert forall r | r in roles :: r == roles[0] || r in roles[1..];
      v
  }

  method Evaluate(lib: Library, cmd: string, server: string, roles: seq<RoleAcl>) returns (v: Verdict)
    ensures v == Evaluated(lib, cmd, server, roles)
  {
    v := Verdict(false, "");
    for i := 0 to |roles|
      invariant !v.isPass
      invariant Evaluated(lib, cmd, server, roles) == Evaluated(lib, cmd, server, roles[i..])
    {
      assert roles[i..][1..] == roles[i + 1..];
      var name := CheckRoleMatch(lib, cmd, server, roles[i]);
      if name != "" { return Verdict(true, name); }
    }
    if !v.isPass { v := v.(reason := "cmd and server are not match"); }
  }
}
