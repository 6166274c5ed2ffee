/**
Approved permissions by user and level: what is active at an instant, what is about to expire, what is written back.
*/
module Permissions {
  import opened Intervals
  import opened Strings
  import Sorting

  datatype Approval = Approval(user: string, level: string, start: real, end: real)

  /** user -> level -> merged ranges */
  type Perms = map<string, map<string, seq<Range>>>

  function RangesOf(approvals: seq<Approval>, u: string, l: string): seq<Range> {
    if approvals == [] then []
    else
      var a := approvals[|approvals| - 1];
      RangesOf(approvals[..|approvals| - 1], u, l) + if a.user == u && a.level == l then [Range(a.start, a.end)] else []
  }

  function Bucket(perms: Perms, u: string, l: string): seq<Range> {
    if u in perms && l in perms[u] then perms[u][l] else []
  }

  /** No bucket is empty, so that a level is present exactly if something was approved. */
  ghost predicate NoneEmpty(perms: Perms) {
    forall u | u in perms :: forall l | l in perms[u] :: perms[u][l] != []
  }

  /** The published permissions: the approvals of present users, merged per user and level. */
  ghost predicate PermsOf(perms: Perms, approvals: seq<Approval>, users: set<string>) {
    NoneEmpty(perms) &&
    forall u, l :: Merged(Bucket(perms, u, l), if u in users then RangesOf(approvals, u, l) else [])
  }

  method MergePermissions(permissions: map<string, seq<Range>>) returns (result: map<string, seq<Range>>)
    ensures result.Keys == permissions.Keys
    ensures forall l | l in permissions ::
        Merged(result[l], permissions[l]) && (permissions[l] != [] ==> result[l] != [])
  {
    result := map[];
    var todo := permissions.Keys;
    while todo != {}
      invariant todo <= permissions.Keys && result.Keys == permissions.Keys - todo
      invariant forall l | l in result ::
          Merged(result[l], permissions[l]) && (permissions[l] != [] ==> result[l] != [])
    {
      var level :| level in todo;
      var ranges := permissions[level];
      var times := new Range[|ranges|](i requires 0 <= i < |ranges| => ranges[i]);
      assert times[..] == ranges;
      var merged := MergeRangeTimes(times);
      result := result[level := merged];
      todo := todo - {level};
    }
  }

  /** What the first loop of `UpdateRoleInfos` collects. */
  ghost predicate Collected(temp: Perms, approvals: seq<Approval>, users: set<string>) {
    NoneEmpty(temp) &&
    forall u, l :: Bucket(temp, u, l) == if u in users then RangesOf(approvals, u, l) else []
  }

  function Levels(perms: Perms, u: string): map<string, seq<Range>> {
    if u in perms then perms[u] else map[]
  }

  function Add(perms: Perms, a: Approval): Perms {
    perms[a.user := Levels(perms, a.user)[a.level := Bucket(perms, a.user, a.level) + [Range(a.start, a.end)]]]
  }

  function Collect(approvals: seq<Approval>, users: set<string>): Perms {
    if approvals == [] then map[]
    else
      var a := approvals[|approvals| - 1];
      var before := Collect(approvals[..|approvals| - 1], users);
      if a.user in users then Add(before, a) else before
  }

  lemma AddedBucket(perms: Perms, a: Approval, u: string, l: string)
    requires NoneEmpty(perms)
    ensures NoneEmpty(Add(perms, a))
    ensures Bucket(Add(perms, a), u, l) ==
      Bucket(perms, u, l) + if a.user == u && a.level == l then [Range(a.start, a.end)] else []
  {
  }

  lemma {:induction false} CollectCollects(approvals: seq<Approval>, users: set<string>)
    ensures Collected(Collect(approvals, users), approvals, users)
  {
    if approvals != [] {
      var n := |approvals| - 1;
      CollectCollects(approvals[..n], users);
      var before := Collect(approvals[..n], users);
      AddedBucket(before, approvals[n], "", "");
      forall u, l
        ensures Bucket(Collect(approvals, users), u, l) == if u in users then RangesOf(approvals, u, l) else []
      {
        AddedBucket(before, approvals[n], u, l);
        assert Bucket(before, u, l) == if u in users then RangesOf(approvals[..n], u, l) else [];
      }
    }
  }

  method UpdateRoleInfos(approvals: seq<Approval>, users: set<string>) returns (perms: Perms)
    ensures PermsOf(perms, approvals, users)
  {
    var temp: Perms := map[];
    for i := 0 to |approvals|
      invariant temp == Collect(approvals[..i], users)
    {
      var a := approvals[i];
      assert approvals[..i + 1][..i] == approvals[..i];
      if a.user !in users { continue; }
      ghost var added := Add(temp, a);
      if a.user !in temp { temp := temp[a.user := map[]]; }
      var ranges := if a.level in temp[a.user] then temp[a.user][a.level] else [];
      temp := temp[a.user := temp[a.user][a.level := ranges + [Range(a.start, a.end)]]];
      assert temp == added;
    }
    assert approvals[..|approvals|] == approvals;
    CollectCollects(approvals, users);
    perms := map[];
    var todo := temp.Keys;
    while todo != {}
      invariant todo <= temp.Keys && perms.Keys == temp.Keys - todo
      invariant forall u | u in perms :: MergedLevels(perms[u], temp[u])
    {
      var user :| user in todo;
      var merged := MergePermissions(temp[user]);
      perms := perms[user := merged];
      todo := todo - {user};
    }
    MergedBuckets(perms, temp, approvals, users);
  }

  ghost predicate MergedLevels(after: map<string, seq<Range>>, before: map<string, seq<Range>>) {
    after.Keys == before.Keys &&
    forall l | l in before :: Merged(after[l], before[l]) && (before[l] != [] ==> after[l] != [])
  }

  lemma MergedBuckets(perms: Perms, temp: Perms, approvals: seq<Approval>, users: set<string>)
    requires Collected(temp, approvals, users)
    requires perms.Keys == temp.Keys && forall u | u in perms :: MergedLevels(perms[u], temp[u])
    ensures PermsOf(perms, approvals, users)
  {
    forall u, l ensures Merged(Bucket(perms, u, l), if u in users then RangesOf(approvals, u, l) else []) {
      assert Bucket(temp, u, l) == if u in users then RangesOf(approvals, u, l) else [];
    }
  }

  // ---------------------------------------------------------------- the active levels

  function ActiveLevels(perms: Perms, u: string, now: real): set<string> {
    if u in perms then set l | l in perms[u] && SomeActive(perms[u][l], now) else {}
  }

  lemma NothingInside(t: real)
    ensures !Inside([], t)
  {
    forall a: real, b: real | a < t < b ensures !Throughout([], a, b) {
      assert !Covered([], t);
    }
  }

  /** A level is active exactly inside the union of the user's approvals for it. */
  lemma ActiveLevelsExact(perms: Perms, approvals: seq<Approval>, users: set<string>, u: string, l: string, now: real)
    requires PermsOf(perms, approvals, users)
    ensures l in ActiveLevels(perms, u, now) <==> u in users && Inside(RangesOf(approvals, u, l), now)
  {
    var rs := if u in users then RangesOf(approvals, u, l) else [];
    ActiveExact(Bucket(perms, u, l), rs, now);
    if u !in users { NothingInside(now); }
  }

  /** Away from the ends of the approvals: some approval for it contains the instant. */
  lemma ActiveLevelsAwayFromEnds(
      perms: Perms, approvals: seq<Approval>, users: set<string>, u: string, l: string, now: real)
    requires PermsOf(perms, approvals, users) && u in users && !Endpoint(RangesOf(approvals, u, l), now)
    ensures l in ActiveLevels(perms, u, now) <==> Covered(RangesOf(approvals, u, l), now)
  {
    ActiveAwayFromEnds(Bucket(perms, u, l), RangesOf(approvals, u, l), now);
  }

  // ---------------------------------------------------------------- expiry alerts

  /** expireAt is an instant; the tier is the band of the time left until then. */
  datatype Alert = Alert(user: string, level: string, expireAt: real, tier: string)

  const HOUR := 3600.0

  function Tier(remain: real): string {
    if remain <= 12.0 * HOUR then "12h"
    else if remain <= 24.0 * HOUR then "1d"
    else if remain <= 72.0 * HOUR then "3d"
    else ""
  }

  ghost predicate IsAlert(ranges: seq<Range>, now: real, a: Alert) {
    exists i | 0 <= i < |ranges| :: ranges[i].Active(now) && a.expireAt == ranges[i].end &&
      a.tier == Tier(a.expireAt - now) != ""
  }

  /** What the alerts about one level must be, given that at most one range is active. */
  method AlertForLevel(user: string, level: string, ranges: seq<Range>, now: real) returns (alerts: seq<Alert>)
    requires StartSorted(ranges) && Apart(ranges)
    ensures |alerts| <= 1
    ensures forall a :: a in alerts <==> a.user == user && a.level == level && IsAlert(ranges, now, a)
  {
    alerts := [];
    for i := 0 to |ranges|
      invariant alerts == []
      invariant forall j | 0 <= j < i :: !ranges[j].Active(now)
    {
      var r := ranges[i];
      if !(now > r.start && now < r.end) { continue; }
      var remain := r.end - now;
      var tier := Tier(remain);
      if tier != "" { alerts := [Alert(user, level, r.end, tier)]; }
      forall j | 0 <= j < |ranges| && ranges[j].Active(now) ensures j == i { ActiveOnce(ranges, i, j, now); }
      return;
    }
  }

  ghost predicate AllMerged(perms: Perms) {
    forall u | u in perms :: forall l | l in perms[u] :: StartSorted(perms[u][l]) && Apart(perms[u][l])
  }

  /** At most one alert for each user and level. */
  ghost predicate OneEach(alerts: seq<Alert>) {
    forall i, j | 0 <= i < j < |alerts| :: alerts[i].user != alerts[j].user || alerts[i].level != alerts[j].level
  }

  /** Users and levels come in any order. */
  method ComputeRoleExpiryAlerts(perms: Perms, now: real) returns (alerts: seq<Alert>)
    requires AllMerged(perms)
    ensures forall a :: a in alerts <==>
      a.user in perms && a.level in perms[a.user] && IsAlert(perms[a.user][a.level], now, a)
    ensures OneEach(alerts)
  {
    alerts := [];
    var todo := perms.Keys;
    while todo != {}
      invariant todo <= perms.Keys && OneEach(alerts)
      invariant forall a :: a in alerts <==>
        a.user in perms && a.user !in todo && a.level in perms[a.user] && IsAlert(perms[a.user][a.level], now, a)
    {
      var user :| user in todo;
      var more := AlertsForUser(user, perms[user], now);
      todo := todo - {user};
      alerts := alerts + more;
    }
  }

  method AlertsForUser(user: string, byLevel: map<string, seq<Range>>, now: real) returns (alerts: seq<Alert>)
    requires forall l | l in byLevel :: StartSorted(byLevel[l]) && Apart(byLevel[l])
    ensures forall a :: a in alerts <==> a.user == user && a.level in byLevel && IsAlert(byLevel[a.level], now, a)
    ensures OneEach(alerts)
  {
    alerts := [];
    var todo := byLevel.Keys;
    while todo != {}
      invariant todo <= byLevel.Keys && OneEach(alerts)
      invariant forall a :: a in alerts <==>
        a.user == user && a.level in byLevel && a.level !in todo && IsAlert(byLevel[a.level], now, a)
    {
      var level :| level in todo;
      var more := AlertForLevel(user, level, byLevel[level], now);
      todo := todo - {level};
      alerts := alerts + more;
    }
  }

  lemma PermsAreMerged(perms: Perms, approvals: seq<Approval>, users: set<string>)
    requires PermsOf(perms, approvals, users)
    ensures AllMerged(perms)
  {
    forall u, l | u in perms && l in perms[u] ensures StartSorted(perms[u][l]) && Apart(perms[u][l]) {
      assert Merged(Bucket(perms, u, l), if u in users then RangesOf(approvals, u, l) else []);
    }
  }

  /**
  There is an alert exactly when the instant lies inside the user's approvals for the level and they run on for at
  most 72 hours; it names the last instant up to which they run on, and the band that the time left falls into.
  */
  lemma AlertExact(perms: Perms, approvals: seq<Approval>, users: set<string>, now: real, a: Alert)
    requires PermsOf(perms, approvals, users) && a.user in users
    ensures IsAlert(Bucket(perms, a.user, a.level), now, a) <==>
      (var rs := RangesOf(approvals, a.user, a.level);
       Inside(rs, now) && RunsUntil(rs, now, a.expireAt) && a.tier == Tier(a.expireAt - now) != "")
  {
    var rs := RangesOf(approvals, a.user, a.level);
    var m := Bucket(perms, a.user, a.level);
    assert Merged(m, rs);
    ActiveExact(m, rs, now);
    if SomeActive(m, now) {
      var i :| 0 <= i < |m| && m[i].Active(now);
      ActiveRunsUntilEnd(m, rs, i, now);
      forall j | 0 <= j < |m| && m[j].Active(now) ensures j == i { ActiveOnce(m, i, j, now); }
      if RunsUntil(rs, now, a.expireAt) { RunsUntilOne(rs, now, a.expireAt, m[i].end); }
    }
  }

  /** An alert that is due, in terms of the approvals alone. */
  ghost predicate Due(approvals: seq<Approval>, users: set<string>, now: real, a: Alert) {
    var rs := RangesOf(approvals, a.user, a.level);
    a.user in users && Inside(rs, now) && RunsUntil(rs, now, a.expireAt) && a.tier == Tier(a.expireAt - now) != ""
  }

  /** From the approvals to the alerts: exactly those that are due, one for each user and level. */
  method AlertsFromApprovals(approvals: seq<Approval>, users: set<string>, now: real) returns (alerts: seq<Alert>)
    ensures forall a :: a in alerts <==> Due(approvals, users, now, a)
    ensures OneEach(alerts)
  {
    var perms := UpdateRoleInfos(approvals, users);
    PermsAreMerged(perms, approvals, users);
    alerts := ComputeRoleExpiryAlerts(perms, now);
    forall a: Alert ensures a in alerts <==> Due(approvals, users, now, a) {
      AlertDue(perms, approvals, users, now, a);
    }
  }

  lemma AlertDue(perms: Perms, approvals: seq<Approval>, users: set<string>, now: real, a: Alert)
    requires PermsOf(perms, approvals, users)
    ensures a.user in perms && a.level in perms[a.user] && IsAlert(perms[a.user][a.level], now, a) <==>
      Due(approvals, users, now, a)
  {
    if a.user in users {
      AlertExact(perms, approvals, users, now, a);
    } else {
      ActiveExact(Bucket(perms, a.user, a.level), [], now);
      NothingInside(now);
    }
  }
}
