/** The role string that the server writes into a user's row, and what the client makes of it. */
module RoleStrings {
  import opened Strings
  import opened Sorting
  import opened Intervals
  import opened Permissions
  import opened UserCache

  /** The names in some order, each once. */
  ghost function Listing(names: set<string>): (r: seq<string>)
    ensures forall n :: n in r <==> n in names
    ensures multiset(r) == multiset(names)
  {
    if names == {} then []
    else
      var n :| n in names;
      assert names == (names - {n}) + {n};
      Listing(names - {n}) + [n]
  }

  ghost function RoleString(levels: set<string>): string {
    if levels == {} then "null" else Join(Sort(Listing(levels)), ',')
  }

  ghost function ExpectedRole(perms: Perms, user: string, now: real): string {
    RoleString(ActiveLevels(perms, user, now))
  }

  /** Whatever order the levels are visited in. */
  method GetCurrentUserRoleAt(perms: Perms, user: string, now: real) returns (s: string)
    ensures s == ExpectedRole(perms, user, now)
  {
    if user !in perms { return "null"; }
    var userPerms := perms[user];
    var roles: seq<string> := [];
    var todo := userPerms.Keys;
    while todo != {}
      invariant todo <= userPerms.Keys
      invariant multiset(roles) == multiset(set l | l in userPerms && l !in todo && SomeActive(userPerms[l], now))
    {
      var level :| level in todo;
      ghost var before := set l | l in userPerms && l !in todo && SomeActive(userPerms[l], now);
      var ranges := userPerms[level];
      var found := false;
      for i := 0 to |ranges|
        invariant !found && forall j | 0 <= j < i :: !ranges[j].Active(now)
      {
        if now > ranges[i].start && now < ranges[i].end {
          found := true;
          break;
        }
      }
      if found { roles := roles + [level]; }
      todo := todo - {level};
      assert (set l | l in userPerms && l !in todo && SomeActive(userPerms[l], now)) ==
          if found then before + {level} else before;
    }
    var levels := ActiveLevels(perms, user, now);
    assert levels == set l | l in userPerms && l !in todo && SomeActive(userPerms[l], now);
    assert |multiset(roles)| == |multiset(levels)|;
    assert |roles| == |levels|;
    if |roles| == 0 { return "null"; }
    SortDeterminate(roles, Listing(levels));
    s := Join(Sort(roles), ',');
  }

  // ---------------------------------------------------------------- reading the string back

  ghost function Read(s: string): set<string> {
    set n | n in Split(s, ',')
  }

  predicate Plain(levels: set<string>) {
    forall l | l in levels :: ',' !in l
  }

  lemma SplitRoleString(levels: set<string>)
    requires levels != {}
    ensures Sort(Listing(levels)) != []
    ensures Split(RoleString(levels), ',') == Pieces(Sort(Listing(levels)), ',')
  {
    var s := Sort(Listing(levels));
    SameElements(s, Listing(levels));
    var l :| l in levels;
    assert l in s;
    SplitOfJoin(s, ',');
  }

  /** In general, the names read are those that the active levels split into. */
  lemma ReadPieces(levels: set<string>, x: string)
    requires levels != {}
    ensures x in Read(RoleString(levels)) <==> exists l | l in levels :: x in Split(l, ',')
  {
    var s := Sort(Listing(levels));
    SplitRoleString(levels);
    SameElements(s, Listing(levels));
    InPieces(s, ',', x);
    if exists i | 0 <= i < |s| :: x in Split(s[i], ',') {
      var i :| 0 <= i < |s| && x in Split(s[i], ',');
      assert s[i] in levels;
    }
    if exists l | l in levels :: x in Split(l, ',') {
      var l :| l in levels && x in Split(l, ',');
      assert l in s;
    }
  }

  lemma ReadNull()
    ensures Read("null") == {"null"}
  {
    SplitOfPiece("null", ',');
  }

  /** The string reads back as the active levels exactly when there are some and none holds a comma. */
  lemma ReadExact(levels: set<string>)
    ensures Read(RoleString(levels)) == levels <==> levels != {} && Plain(levels)
  {
    if levels == {} {
      ReadNull();
      assert "null" in Read(RoleString(levels));
    } else if Plain(levels) {
      forall x ensures x in Read(RoleString(levels)) <==> x in levels {
        ReadPieces(levels, x);
        forall l | l in levels ensures Split(l, ',') == [l] { SplitOfPiece(l, ','); }
      }
    } else {
      var l :| l in levels && ',' in l;
      if l in Read(RoleString(levels)) {
        SplitPieces(RoleString(levels), ',');
        assert false;
      }
    }
  }

  lemma Distinct(s: seq<string>, names: set<string>, i: nat, j: nat)
    requires multiset(s) == multiset(names) && i < j < |s|
    ensures s[i] != s[j]
  {
    var front, back := s[..j], s[j..];
    assert s == front + back;
    assert multiset(s) == multiset(front) + multiset(back);
    assert front[i] in multiset(front) && back[0] in multiset(back);
    assert multiset(names)[s[i]] <= 1;
  }

  /** And no name is read twice. */
  lemma OnceEach(levels: set<string>, i: nat, j: nat)
    requires levels != {} && Plain(levels)
    requires i < j < |Split(RoleString(levels), ',')|
    ensures Split(RoleString(levels), ',')[i] != Split(RoleString(levels), ',')[j]
  {
    var s := Sort(Listing(levels));
    SameElements(s, Listing(levels));
    assert s != [] by { SplitRoleString(levels); }
    SplitJoin(s, ',');
    Distinct(s, levels, i, j);
  }

  // ---------------------------------------------------------------- the client's roles

  lemma {:induction false} RolesRead(lib: Library, info: RoleInfo, names: seq<string>, x: string)
    ensures (exists r | r in Acls(lib, info, names) :: r.name == x) <==> x in names && x in info
  {
    if names != [] {
      var last := names[|names| - 1];
      var before := Acls(lib, info, names[..|names| - 1]);
      RolesRead(lib, info, names[..|names| - 1], x);
      assert forall r | r in before :: r in Acls(lib, info, names);
      if last in info { assert Acl(lib, last, info[last]) in Acls(lib, info, names); }
    }
  }

  /**
  The client gives a user exactly the active roles that still have a template, unless no role is active and someone
  has made a template called "null".
  */
  lemma ClientRolesExact(lib: Library, info: RoleInfo, levels: set<string>)
    requires Plain(levels)
    ensures (forall x :: (exists r | r in Acls(lib, info, Split(RoleString(levels), ',')) :: r.name == x) <==>
        x in levels && x in info)
      <==> levels != {} || "null" !in info
  {
    var names := Split(RoleString(levels), ',');
    ReadExact(levels);
    ReadNull();
    forall x
      ensures (exists r | r in Acls(lib, info, names) :: r.name == x) <==>
        x in Read(RoleString(levels)) && x in info
    {
      RolesRead(lib, info, names, x);
    }
  }

  // ---------------------------------------------------------------- writing back

  /** The rows outside `todo` that differ from what is wanted, with what is wanted. */
  ghost function Differences(
      users: map<string, string>, want: string -> string, todo: set<string>): map<string, string>
  {
    map u | u in users && u !in todo && users[u] != want(u) :: want(u)
  }

  lemma OneMoreDifference(users: map<string, string>, want: string -> string, todo: set<string>, u: string)
    requires u in todo && u in users
    ensures Differences(users, want, todo - {u}) ==
      if users[u] != want(u) then Differences(users, want, todo)[u := want(u)] else Differences(users, want, todo)
  {
  }

  ghost function Wanted(perms: Perms, now: real): string -> string {
    u => ExpectedRole(perms, u, now)
  }

  ghost function RoleUpdates(users: map<string, string>, perms: Perms, now: real): map<string, string> {
    Differences(users, Wanted(perms, now), {})
  }

  method UpdateDatabase(users: map<string, string>, perms: Perms, now: real) returns (roleUpdates: map<string, string>)
    ensures roleUpdates == RoleUpdates(users, perms, now)
  {
    ghost var want := Wanted(perms, now);
    roleUpdates := map[];
    var todo := users.Keys;
    assert Differences(users, want, todo) == map[];
    while todo != {}
      invariant todo <= users.Keys
      invariant roleUpdates == Differences(users, want, todo)
    {
      var user :| user in todo;
      var expected := GetCurrentUserRoleAt(perms, user, now);
      OneMoreDifference(users, want, todo, user);
      if users[user] != expected { roleUpdates := roleUpdates[user := expected]; }
      todo := todo - {user};
    }
  }

  lemma NothingLeft(users: map<string, string>, want: string -> string)
    ensures var after := users + Differences(users, want, {});
      (forall u | u in users :: u in after && after[u] == want(u)) && after.Keys == users.Keys &&
      Differences(after, want, {}) == map[]
  {
    var after := users + Differences(users, want, {});
    assert forall u | u in users :: u in after && after[u] == want(u);
  }

  /** Once the updates are in the rows, every row is as expected and a second update writes nothing. */
  lemma SecondUpdateWritesNothing(users: map<string, string>, perms: Perms, now: real)
    ensures var after := users + RoleUpdates(users, perms, now);
      (forall u | u in users :: u in after && after[u] == ExpectedRole(perms, u, now)) && after.Keys == users.Keys &&
      RoleUpdates(after, perms, now) == map[]
  {
    NothingLeft(users, Wanted(perms, now));
    assert forall u :: Wanted(perms, now)(u) == ExpectedRole(perms, u, now);
  }
}
