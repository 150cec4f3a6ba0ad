/** Reconciling the members of UAA groups (tools/user_management/lib/group.rb,
    tools/user_management/lib/actions.rb). */
module UaaGroups {
  import opened Collections
  import opened Wrappers

  /** A membership: the member's guid, and the origin and type it was added with. */
  datatype Member = Member(value: string, origin: string, kind: string)

  datatype UaaUser = UaaUser(origin: string, userName: string, created: Option<int>)

  type Directory = map<string, UaaUser>

  /** The instant at which a member is looked at, in seconds. */
  type Clock = string -> int

  datatype Write = Removed(group: string, guid: string) | Added(group: string, guid: string)

  // ---------------------------------------------------------------- who stays

  /** What get_member_users returns for a membership; no account behind it is None. */
  function UserOf(dir: Directory, m: Member): Option<UaaUser> {
    if m.origin == "uaa" && m.kind == "USER" && m.value in dir then Some(dir[m.value]) else None
  }

  predicate IsAdmin(u: Option<UaaUser>) { u.Some? && u.value.origin == "uaa" && u.value.userName == "admin" }

  predicate IsGoogle(u: Option<UaaUser>) {
    u.Some? && (u.value.origin == "google" || u.value.origin == "admin-google")
  }

  predicate Expected(dir: Directory, desired: seq<string>, m: Member) {
    IsAdmin(UserOf(dir, m)) || (IsGoogle(UserOf(dir, m)) && m.value in desired)
  }

  /** Less than an hour old. */
  predicate IsYoung(u: Option<UaaUser>, now: int) {
    u.Some? && u.value.created.Some? && now - u.value.created.value < 3600
  }

  predicate Kept(dir: Directory, desired: seq<string>, clock: Clock, m: Member) {
    Expected(dir, desired, m) || IsYoung(UserOf(dir, m), clock(m.value))
  }

  function Values(ms: seq<Member>): set<string> { set m | m in ms :: m.value }

  /** UAA lists a member once. */
  predicate EachOnce(ms: seq<Member>): (yes: bool)
    ensures yes <==> forall i, j :: 0 <= i < j < |ms| ==> ms[i].value != ms[j].value
  {
    var guids := seq(|ms|, i requires 0 <= i < |ms| => ms[i].value);
    assert forall i :: 0 <= i < |ms| ==> guids[i] == ms[i].value;
    Distinct(guids)
  }

  // ---------------------------------------------------------------- one group

  function Remaining(dir: Directory, desired: seq<string>, clock: Clock, ms: seq<Member>): (r: seq<Member>)
    ensures forall m :: m in r <==> m in ms && Kept(dir, desired, clock, m)
  {
    if ms == [] then []
    else (if Kept(dir, desired, clock, ms[0]) then [ms[0]] else []) + Remaining(dir, desired, clock, ms[1..])
  }

  /** The guids a removal goes through, in the order of the listing. */
  function Removals(dir: Directory, desired: seq<string>, clock: Clock, ms: seq<Member>): (r: seq<string>)
    ensures r == [] <==> forall m :: m in ms ==> Kept(dir, desired, clock, m)
  {
    if ms == [] then []
    else (if Kept(dir, desired, clock, ms[0]) then [] else [ms[0].value]) + Removals(dir, desired, clock, ms[1..])
  }

  /** The desired guids that are not members, in the order of the configuration. */
  function Additions(desired: seq<string>, members: set<string>): (r: seq<string>)
    ensures forall g :: g in r <==> g in desired && g !in members
    ensures r == [] <==> forall g :: g in desired ==> g in members
  {
    if desired == [] then []
    else (if desired[0] in members then [] else [desired[0]]) + Additions(desired[1..], members)
  }

  function NewMembers(guids: seq<string>): (r: seq<Member>)
    ensures |r| == |guids| && forall i :: 0 <= i < |r| ==> r[i] == Member(guids[i], "uaa", "USER")
  {
    seq(|guids|, i requires 0 <= i < |guids| => Member(guids[i], "uaa", "USER"))
  }

  /** The membership after removing and adding. */
  function Reconciled(dir: Directory, desired: seq<string>, clock: Clock, ms: seq<Member>): seq<Member> {
    var remaining := Remaining(dir, desired, clock, ms);
    remaining + NewMembers(Additions(desired, Values(remaining)))
  }

  /** An ordinary membership of the uaa admin, or of an account less than an hour old. */
  predicate StaysAnyway(dir: Directory, clock: Clock, m: Member) {
    && m.origin == "uaa" && m.kind == "USER" && m.value in dir
    && var u := dir[m.value];
    || (u.origin == "uaa" && u.userName == "admin")
    || (u.created.Some? && clock(m.value) - u.created.value < 3600)
  }

  /** Membership is exactly the desired guids and those initial members that are the uaa admin
      or less than an hour old. */
  lemma ReconciledMembers(dir: Directory, desired: seq<string>, clock: Clock, ms: seq<Member>, g: string)
    ensures g in Values(Reconciled(dir, desired, clock, ms))
       <==> g in desired || exists m :: m in ms && m.value == g && StaysAnyway(dir, clock, m)
  {
    forall m | m in ms
      ensures StaysAnyway(dir, clock, m) ==> Kept(dir, desired, clock, m)
      ensures Kept(dir, desired, clock, m) ==> StaysAnyway(dir, clock, m) || m.value in desired
    {
      KeptIff(dir, desired, clock, m);
    }
    hide Kept, StaysAnyway;
    var remaining := Remaining(dir, desired, clock, ms);
    var added := Additions(desired, Values(remaining));
    if g in added {
      var i :| 0 <= i < |added| && added[i] == g;
      assert NewMembers(added)[i] in Reconciled(dir, desired, clock, ms);
    }
    if m :| m in ms && m.value == g && StaysAnyway(dir, clock, m) {
      assert m in Reconciled(dir, desired, clock, ms);
    }
    assert forall m :: m in remaining ==> m in Reconciled(dir, desired, clock, ms);
    assert forall m :: m in NewMembers(added) ==> m.value in added;
  }

  lemma KeptIff(dir: Directory, desired: seq<string>, clock: Clock, m: Member)
    ensures Kept(dir, desired, clock, m)
       <==> StaysAnyway(dir, clock, m) || (m.value in desired && IsGoogle(UserOf(dir, m)))
  {
  }

  /** Who is in a reconciled group: kept members and new ones, all of them plain users. */
  lemma InReconciled(dir: Directory, desired: seq<string>, clock: Clock, ms: seq<Member>, m: Member)
    ensures m in Reconciled(dir, desired, clock, ms)
       <==> (m in ms && Kept(dir, desired, clock, m))
            || (m == Member(m.value, "uaa", "USER")
                && m.value in desired && m.value !in Values(Remaining(dir, desired, clock, ms)))
    ensures m in Reconciled(dir, desired, clock, ms) ==> m == Member(m.value, "uaa", "USER")
  {
    hide Values, IsAdmin, IsGoogle, IsYoung;
    var remaining := Remaining(dir, desired, clock, ms);
    var added := Additions(desired, Values(remaining));
    if m == Member(m.value, "uaa", "USER") && m.value in added {
      var i :| 0 <= i < |added| && added[i] == m.value;
      assert NewMembers(added)[i] == m;
    }
    assert m in remaining && Kept(dir, desired, clock, m) ==> UserOf(dir, m).Some? by {
      KeptIsUser(dir, desired, clock, m);
    }
  }

  lemma KeptIsUser(dir: Directory, desired: seq<string>, clock: Clock, m: Member)
    ensures Kept(dir, desired, clock, m) ==> UserOf(dir, m).Some?
  {
  }

  /** Whether a desired guid, once added, survives the next run's removal. */
  predicate Settles(dir: Directory, clock: Clock, g: string) {
    && g in dir
    && var u := dir[g];
    || u.origin == "google" || u.origin == "admin-google"
    || (u.origin == "uaa" && u.userName == "admin")
    || (u.created.Some? && clock(g) - u.created.value < 3600)
  }

  lemma SettlesIff(dir: Directory, desired: seq<string>, clock: Clock, g: string)
    requires g in desired
    ensures Settles(dir, clock, g) <==> Kept(dir, desired, clock, Member(g, "uaa", "USER"))
  {
  }

  predicate Quiet(dir: Directory, desired: seq<string>, clock: Clock, ms: seq<Member>) {
    Removals(dir, desired, clock, ms) == []
    && Additions(desired, Values(Remaining(dir, desired, clock, ms))) == []
  }

  /** A second run at the same instants removes nobody and adds nobody exactly when every
      desired user has a Google origin, or is the uaa admin, or is less than an hour old. */
  lemma SecondRunQuietIff(dir: Directory, desired: seq<string>, clock: Clock, ms: seq<Member>)
    ensures Quiet(dir, desired, clock, Reconciled(dir, desired, clock, ms))
       <==> forall g :: g in desired ==> Settles(dir, clock, g)
  {
    hide Settles, Kept, Reconciled;
    var once := Reconciled(dir, desired, clock, ms);
    forall g | g in desired
      ensures Member(g, "uaa", "USER") in once
      ensures Settles(dir, clock, g) <==> Kept(dir, desired, clock, Member(g, "uaa", "USER"))
    {
      SettlesIff(dir, desired, clock, g);
      DesiredIn(dir, desired, clock, ms, g);
    }
    if forall g :: g in desired ==> Settles(dir, clock, g) {
      forall m | m in once ensures Kept(dir, desired, clock, m) {
        InReconciled(dir, desired, clock, ms, m);
      }
      forall g | g in desired ensures g in Values(Remaining(dir, desired, clock, once)) {
        assert Member(g, "uaa", "USER") in Remaining(dir, desired, clock, once);
      }
    }
  }

  lemma DesiredIn(dir: Directory, desired: seq<string>, clock: Clock, ms: seq<Member>, g: string)
    requires g in desired
    ensures Member(g, "uaa", "USER") in Reconciled(dir, desired, clock, ms)
  {
    hide Reconciled, Kept;
    InReconciled(dir, desired, clock, ms, Member(g, "uaa", "USER"));
    if m :| m in Remaining(dir, desired, clock, ms) && m.value == g {
      InReconciled(dir, desired, clock, ms, m);
    }
  }

  /** Either way the second run leaves the same people members. */
  lemma SecondRunSameMembers(dir: Directory, desired: seq<string>, clock: Clock, ms: seq<Member>)
    ensures var once := Reconciled(dir, desired, clock, ms);
            Values(Reconciled(dir, desired, clock, once)) == Values(once)
  {
    hide Reconciled, StaysAnyway, Kept;
    var once := Reconciled(dir, desired, clock, ms);
    forall g ensures g in Values(Reconciled(dir, desired, clock, once)) <==> g in Values(once) {
      ReconciledMembers(dir, desired, clock, ms, g);
      ReconciledMembers(dir, desired, clock, once, g);
      if m :| m in ms && m.value == g && StaysAnyway(dir, clock, m) {
        KeptIff(dir, desired, clock, m);
        InReconciled(dir, desired, clock, ms, m);
        assert m in once;
      }
    }
  }

  // ---------------------------------------------------------------- the API and the program

  class Uaa {
    const users: Directory
    var groups: map<string, seq<Member>>
    ghost var writes: seq<Write>

    constructor (users: Directory, groups: map<string, seq<Member>>)
      ensures this.users == users && this.groups == groups && writes == []
    {
      this.users := users;
      this.groups := groups;
      writes := [];
    }

    method RemoveMember(group: string, guid: string)
      requires group in groups
      modifies this
      ensures groups == old(groups)[group := Without(old(groups[group]), {guid})]
      ensures writes == old(writes) + [Removed(group, guid)]
    {
      groups := groups[group := Without(groups[group], {guid})];
      writes := writes + [Removed(group, guid)];
    }

    /** The post fails for a guid that is a member already. */
    method AddMember(group: string, guid: string) returns (ok: bool)
      requires group in groups
      modifies this
      ensures ok <==> guid !in Values(old(groups[group]))
      ensures ok ==> groups == old(groups)[group := old(groups[group]) + [Member(guid, "uaa", "USER")]]
                     && writes == old(writes) + [Added(group, guid)]
      ensures !ok ==> groups == old(groups) && writes == old(writes)
    {
      ok := guid !in Values(groups[group]);
      if ok {
        groups := groups[group := groups[group] + [Member(guid, "uaa", "USER")]];
        writes := writes + [Added(group, guid)];
      }
    }
  }

  function Without(ms: seq<Member>, gone: set<string>): (r: seq<Member>)
    ensures forall m :: m in r <==> m in ms && m.value !in gone
  {
    if ms == [] then []
    else (if ms[0].value in gone then [] else [ms[0]]) + Without(ms[1..], gone)
  }

  lemma {:induction false} WithoutTwice(ms: seq<Member>, a: set<string>, b: set<string>)
    ensures Without(Without(ms, a), b) == Without(ms, a + b)
  {
    if ms != [] {
      WithoutTwice(ms[1..], a, b);
      var w := Without(ms[1..], a);
      assert ([ms[0]] + w)[1..] == w && [] + w == w;
    }
  }

  /** Removing the unexpected guids one by one leaves exactly those to keep. */
  lemma {:induction false} WithoutRemovals(dir: Directory, desired: seq<string>, clock: Clock, ms: seq<Member>, gone: set<string>)
    requires EachOnce(ms)
    requires forall m :: m in ms ==> (m.value in gone <==> !Kept(dir, desired, clock, m))
    ensures Without(ms, gone) == Remaining(dir, desired, clock, ms)
  {
    hide Kept;
    if ms != [] {
      WithoutRemovals(dir, desired, clock, ms[1..], gone);
    }
  }

  lemma {:induction false} RemovalsSnoc(dir: Directory, desired: seq<string>, clock: Clock, ms: seq<Member>, m: Member)
    ensures Removals(dir, desired, clock, ms + [m])
         == Removals(dir, desired, clock, ms) + if Kept(dir, desired, clock, m) then [] else [m.value]
  {
    hide Kept;
    if ms == [] {
      assert ms + [m] == [m] && [m][1..] == [];
    } else {
      assert (ms + [m])[1..] == ms[1..] + [m];
      RemovalsSnoc(dir, desired, clock, ms[1..], m);
    }
  }

  lemma {:induction false} RemovalsAre(dir: Directory, desired: seq<string>, clock: Clock, ms: seq<Member>, m: Member)
    requires EachOnce(ms) && m in ms
    ensures m.value in Removals(dir, desired, clock, ms) <==> !Kept(dir, desired, clock, m)
    ensures forall g :: g in Removals(dir, desired, clock, ms) ==> g in Values(ms)
  {
    hide Kept;
    RemovalsIn(dir, desired, clock, ms);
    RemovalsIn(dir, desired, clock, ms[1..]);
    if m != ms[0] {
      assert m in ms[1..];
      RemovalsAre(dir, desired, clock, ms[1..], m);
    } else {
      assert forall i :: 0 <= i < |ms[1..]| ==> ms[1..][i] == ms[i + 1];
    }
  }

  lemma {:induction false} RemovalsIn(dir: Directory, desired: seq<string>, clock: Clock, ms: seq<Member>)
    ensures forall g :: g in Removals(dir, desired, clock, ms) ==> g in Values(ms)
  {
    hide Kept;
    if ms != [] {
      RemovalsIn(dir, desired, clock, ms[1..]);
      assert Values(ms) == {ms[0].value} + Values(ms[1..]);
    }
  }

  function RemovedAll(group: string, guids: seq<string>): seq<Write> {
    seq(|guids|, i requires 0 <= i < |guids| => Removed(group, guids[i]))
  }

  function AddedAll(group: string, guids: seq<string>): seq<Write> {
    seq(|guids|, i requires 0 <= i < |guids| => Added(group, guids[i]))
  }

  /** A group of the configuration and the guids of its users. */
  datatype Group = Group(name: string, users: seq<string>)

  /** Group#remove_unexpected_members; false when there is no such group. */
  method RemoveUnexpectedMembers(uaa: Uaa, group: Group, clock: Clock) returns (ok: bool)
    requires group.name in uaa.groups ==> EachOnce(uaa.groups[group.name])
    modifies uaa
    ensures ok <==> group.name in old(uaa.groups)
    ensures !ok ==> uaa.groups == old(uaa.groups) && uaa.writes == old(uaa.writes)
    ensures ok ==>
              && uaa.groups == old(uaa.groups)[group.name := Remaining(uaa.users, group.users, clock, old(uaa.groups[group.name]))]
              && uaa.writes == old(uaa.writes)
                 + RemovedAll(group.name, Removals(uaa.users, group.users, clock, old(uaa.groups[group.name])))
  {
    hide Expected, IsYoung, UserOf, Without, Remaining, Removals;
    if group.name !in uaa.groups { return false; }
    var name, members := group.name, uaa.groups[group.name];
    ghost var before, log := uaa.groups, uaa.writes;
    ghost var gone: seq<string> := [];
    NothingRemoved(uaa.users, group.users, clock, members);
    for i := 0 to |members|
      invariant gone == Removals(uaa.users, group.users, clock, members[..i])
      invariant uaa.groups == before[name := Without(members, SetOf(gone))]
      invariant uaa.writes == log + RemovedAll(name, gone)
    {
      var m := members[i];
      assert members[..i + 1] == members[..i] + [m];
      RemovalsSnoc(uaa.users, group.users, clock, members[..i], m);
      if !Expected(uaa.users, group.users, m) {
        if !IsYoung(UserOf(uaa.users, m), clock(m.value)) {
          WithoutTwice(members, SetOf(gone), {m.value});
          assert SetOf(gone + [m.value]) == SetOf(gone) + {m.value};
          uaa.RemoveMember(name, m.value);
          gone := gone + [m.value];
        }
      }
    }
    assert members[..|members|] == members;
    AllRemoved(uaa.users, group.users, clock, members);
    ok := true;
  }

  lemma NothingRemoved(dir: Directory, desired: seq<string>, clock: Clock, ms: seq<Member>)
    ensures Removals(dir, desired, clock, ms[..0]) == []
    ensures Without(ms, SetOf<string>([])) == ms
  {
    WithoutNone(ms);
    assert SetOf<string>([]) == {};
  }

  lemma {:induction false} WithoutNone(ms: seq<Member>)
    ensures Without(ms, {}) == ms
  {
    if ms != [] {
      WithoutNone(ms[1..]);
    }
  }

  lemma AllRemoved(dir: Directory, desired: seq<string>, clock: Clock, ms: seq<Member>)
    requires EachOnce(ms)
    ensures Without(ms, SetOf(Removals(dir, desired, clock, ms))) == Remaining(dir, desired, clock, ms)
  {
    hide Kept, Removals, Without, Remaining;
    forall m | m in ms
      ensures m.value in SetOf(Removals(dir, desired, clock, ms)) <==> !Kept(dir, desired, clock, m)
    {
      RemovalsAre(dir, desired, clock, ms, m);
    }
    WithoutRemovals(dir, desired, clock, ms, SetOf(Removals(dir, desired, clock, ms)));
  }

  /** Group#add_desired_users. The additions are worked out once, so a user configured twice
      is added twice, and the second time fails. */
  method AddDesiredUsers(uaa: Uaa, group: Group) returns (ok: bool)
    modifies uaa
    ensures ok <==> group.name in old(uaa.groups)
                    && Distinct(Additions(group.users, Values(old(uaa.groups[group.name]))))
    ensures ok ==>
              var added := Additions(group.users, Values(old(uaa.groups[group.name])));
              && uaa.groups == old(uaa.groups)[group.name := old(uaa.groups[group.name]) + NewMembers(added)]
              && uaa.writes == old(uaa.writes) + AddedAll(group.name, added)
  {
    hide Additions, Values;
    if group.name !in uaa.groups { return false; }
    var name, members := group.name, uaa.groups[group.name];
    ghost var before, log := uaa.groups, uaa.writes;
    var newUsers := Additions(group.users, Values(members));
    assert members + NewMembers(newUsers[..0]) == members;
    for i := 0 to |newUsers|
      invariant Distinct(newUsers[..i])
      invariant uaa.groups == before[name := members + NewMembers(newUsers[..i])]
      invariant uaa.writes == log + AddedAll(name, newUsers[..i])
    {
      ghost var now := uaa.groups[name];
      AlreadyThere(members, newUsers, i);
      ok := uaa.AddMember(name, newUsers[i]);
      assert newUsers[..i + 1] == newUsers[..i] + [newUsers[i]];
      if !ok { return; }
      assert members + NewMembers(newUsers[..i + 1])
          == members + NewMembers(newUsers[..i]) + [Member(newUsers[i], "uaa", "USER")];
    }
    assert newUsers[..|newUsers|] == newUsers;
    ok := true;
  }

  lemma AlreadyThere(members: seq<Member>, guids: seq<string>, i: nat)
    requires i < |guids| && guids[i] !in Values(members)
    ensures guids[i] in Values(members + NewMembers(guids[..i])) <==> exists j :: 0 <= j < i && guids[j] == guids[i]
  {
    var all := members + NewMembers(guids[..i]);
    if j :| 0 <= j < i && guids[j] == guids[i] {
      assert all[|members| + j] in all;
    }
    if m :| m in NewMembers(guids[..i]) && m.value == guids[i] {
      var j :| 0 <= j < i && NewMembers(guids[..i])[j] == m;
      assert guids[..i][j] == guids[j];
    }
  }

  // ---------------------------------------------------------------- all groups

  type Membership = map<string, seq<Member>>

  ghost predicate Known(groups: seq<Group>, state: Membership) {
    forall i :: 0 <= i < |groups| ==> groups[i].name in state
  }

  predicate DistinctNames(groups: seq<Group>): (yes: bool)
    ensures yes <==> forall i, j :: 0 <= i < j < |groups| ==> groups[i].name != groups[j].name
  {
    var names := seq(|groups|, i requires 0 <= i < |groups| => groups[i].name);
    assert forall i :: 0 <= i < |groups| ==> names[i] == groups[i].name;
    Distinct(names)
  }

  ghost predicate Listing(state: Membership) { forall g :: g in state ==> EachOnce(state[g]) }

  /** Each group in turn, each at its own instants. */
  ghost function ReconcileAll(dir: Directory, groups: seq<Group>, clocks: seq<Clock>, state: Membership): (r: Membership)
    requires |clocks| == |groups| && Known(groups, state)
    ensures r.Keys == state.Keys
    decreases |groups|
  {
    if groups == [] then state
    else
      var last := |groups| - 1;
      var s := ReconcileAll(dir, groups[..last], clocks[..last], state);
      s[groups[last].name := Reconciled(dir, groups[last].users, clocks[last], s[groups[last].name])]
  }

  lemma AllButLast(dir: Directory, groups: seq<Group>, clocks: seq<Clock>, state: Membership)
    requires |clocks| == |groups| && Known(groups, state)
    ensures groups == [] ==> ReconcileAll(dir, groups, clocks, state) == state
    ensures groups != [] ==>
              var last := |groups| - 1;
              var s := ReconcileAll(dir, groups[..last], clocks[..last], state);
              (ReconcileAll(dir, groups, clocks, state)
               == s[groups[last].name := Reconciled(dir, groups[last].users, clocks[last], s[groups[last].name])])
  {
    hide Reconciled;
  }

  /** Groups do not interfere: each ends up reconciled from what it was before the run, and
      every other group is as it was. */
  lemma {:induction false} EachGroup(dir: Directory, groups: seq<Group>, clocks: seq<Clock>, state: Membership)
    requires |clocks| == |groups| && Known(groups, state) && DistinctNames(groups)
    ensures var r := ReconcileAll(dir, groups, clocks, state);
            && (forall i :: 0 <= i < |groups| ==>
                  r[groups[i].name] == Reconciled(dir, groups[i].users, clocks[i], state[groups[i].name]))
            && (forall g :: g in state && (forall i :: 0 <= i < |groups| ==> groups[i].name != g) ==> r[g] == state[g])
    decreases |groups|
  {
    hide Reconciled, ReconcileAll;
    AllButLast(dir, groups, clocks, state);
    if groups != [] {
      var last := |groups| - 1;
      EachGroup(dir, groups[..last], clocks[..last], state);
      assert forall i :: 0 <= i < last ==> groups[..last][i] == groups[i] && clocks[..last][i] == clocks[i];
    }
  }

  lemma {:induction false} RemainingDistinct(dir: Directory, desired: seq<string>, clock: Clock, ms: seq<Member>)
    requires EachOnce(ms)
    ensures EachOnce(Remaining(dir, desired, clock, ms))
  {
    hide Kept;
    if ms != [] {
      RemainingDistinct(dir, desired, clock, ms[1..]);
      var rest := Remaining(dir, desired, clock, ms[1..]);
      forall j | 0 <= j < |rest| ensures rest[j].value != ms[0].value {
        assert rest[j] in rest;
        var i :| 0 <= i < |ms[1..]| && ms[1..][i] == rest[j];
        assert ms[i + 1] == rest[j];
      }
    }
  }

  lemma {:induction false} AdditionsDistinct(desired: seq<string>, members: set<string>)
    requires Distinct(desired)
    ensures Distinct(Additions(desired, members))
  {
    if desired != [] {
      AdditionsDistinct(desired[1..], members);
      var rest := Additions(desired[1..], members);
      forall j | 0 <= j < |rest| ensures rest[j] != desired[0] {
        assert rest[j] in rest;
      }
    }
  }

  lemma ReconciledDistinct(dir: Directory, desired: seq<string>, clock: Clock, ms: seq<Member>)
    requires EachOnce(ms) && Distinct(Additions(desired, Values(Remaining(dir, desired, clock, ms))))
    ensures EachOnce(Reconciled(dir, desired, clock, ms))
  {
    hide Kept;
    RemainingDistinct(dir, desired, clock, ms);
    var remaining := Remaining(dir, desired, clock, ms);
    var added := Additions(desired, Values(remaining));
    forall i, j | 0 <= i < |remaining| && 0 <= j < |added| ensures remaining[i].value != added[j] {
      assert added[j] in added && remaining[i] in remaining;
    }
  }

  lemma Start(dir: Directory, state: Membership)
    ensures Known([], state) && ReconcileAll(dir, [], [], state) == state
  {
  }

  lemma Next(groups: seq<Group>, i: nat, before: Membership, state: Membership)
    requires i < |groups| && state.Keys == before.Keys && Listing(state)
    ensures groups[i].name in state ==> EachOnce(state[groups[i].name])
    ensures groups[i] in groups && (Known(groups, before) ==> groups[i].name in state)
  {
  }

  lemma OneMoreGroup(dir: Directory, groups: seq<Group>, clocks: seq<Clock>, i: nat, before: Membership)
    requires i < |groups| == |clocks| && Known(groups[..i], before) && groups[i].name in before
    ensures Known(groups[..i + 1], before)
    ensures var s := ReconcileAll(dir, groups[..i], clocks[..i], before);
            (ReconcileAll(dir, groups[..i + 1], clocks[..i + 1], before)
             == s[groups[i].name := Reconciled(dir, groups[i].users, clocks[i], s[groups[i].name])])
  {
    hide Reconciled, ReconcileAll;
    assert groups[..i + 1][..i] == groups[..i] && clocks[..i + 1][..i] == clocks[..i];
    AllButLast(dir, groups[..i + 1], clocks[..i + 1], before);
  }

  /** The loop's body: remove, then add. */
  method EnsureGroup(uaa: Uaa, group: Group, clock: Clock) returns (ok: bool)
    requires Listing(uaa.groups)
    modifies uaa
    ensures ok ==> group.name in old(uaa.groups) && Listing(uaa.groups)
                   && uaa.groups == old(uaa.groups)[group.name :=
                        Reconciled(uaa.users, group.users, clock, old(uaa.groups[group.name]))]
    ensures group.name in old(uaa.groups) && Distinct(group.users) ==> ok
  {
    hide Remaining, Removals, Additions, Kept, EachOnce, Distinct;
    ghost var ms := if group.name in uaa.groups then uaa.groups[group.name] else [];
    ok := RemoveUnexpectedMembers(uaa, group, clock);
    if !ok { return; }
    if Distinct(group.users) {
      AdditionsDistinct(group.users, Values(uaa.groups[group.name]));
    }
    ok := AddDesiredUsers(uaa, group);
    if !ok { return; }
    ReconciledDistinct(uaa.users, group.users, clock, ms);
  }

  /** ensure_uaa_groups_have_correct_members. */
  method EnsureGroups(uaa: Uaa, groups: seq<Group>, clocks: seq<Clock>) returns (ok: bool)
    requires |clocks| == |groups| && Listing(uaa.groups)
    modifies uaa
    ensures ok ==> Known(groups, old(uaa.groups))
                   && uaa.groups == ReconcileAll(uaa.users, groups, clocks, old(uaa.groups))
    ensures Known(groups, old(uaa.groups)) && (forall g :: g in groups ==> Distinct(g.users)) ==> ok
  {
    hide *;
    ghost var before := uaa.groups;
    Start(uaa.users, before);
    assert groups[..0] == [] && clocks[..0] == [];
    for i := 0 to |groups|
      invariant Listing(uaa.groups) && Known(groups[..i], before)
      invariant uaa.groups == ReconcileAll(uaa.users, groups[..i], clocks[..i], before)
    {
      ghost var state := uaa.groups;
      Next(groups, i, before, state);
      ok := EnsureGroup(uaa, groups[i], clocks[i]);
      if !ok { return; }
      OneMoreGroup(uaa.users, groups, clocks, i, before);
    }
    assert groups[..|groups|] == groups && clocks[..|clocks|] == clocks;
    ok := true;
  }
}
