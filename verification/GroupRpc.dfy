// The group calls that change membership, and what every run of them keeps.
module GroupRpc {
  import opened Basics
  import opened GroupRules
  import Probe
  import opened GroupService

  const OK := 0
  const FAILED := 500
  const NO_GROUP := 3001
  const NO_MEMBER := 3002
  const REFUSED := 3003
  const BAD_REQUEST := 400

  // The indexes agree and the counters are exact: what every call keeps in any state.
  ghost predicate Good(svc: Service)
    reads svc, svc.groupHash, svc.memberHash
  {
    svc.Valid() && Tallied(svc.groups, svc.members)
  }

  // Members come and go, but no group changes in anything but its counter.
  ghost predicate Steady(gs: seq<Group>, gs': seq<Group>) {
    Evolves(gs, gs') && |gs| == |gs'| && forall i :: 0 <= i < |gs| ==> gs'[i] == gs[i].(count := gs'[i].count)
  }

  ghost predicate Live(gs: seq<Group>, g: string) { exists i :: 0 <= i < |gs| && gs[i].id == g && gs[i].status == 0 }

  ghost predicate Owns(gs: seq<Group>, g: string, u: string) {
    exists i :: 0 <= i < |gs| && gs[i].id == g && gs[i].owner == u
  }

  // User u has at least role r in group g.
  ghost predicate Ranks(ms: seq<Member>, g: string, u: string, r: int) {
    g != "" && u != "" && exists k :: k >= r && Member(g, u, k) in ms
  }

  // With distinct ids and nobody listed twice, one entry answers for the whole table.
  lemma Looked(gs: seq<Group>, gi: int)
    requires 0 <= gi < |gs| && DistinctIds(gs)
    ensures gs[gi].id in GroupKeys(gs)
    ensures Live(gs, gs[gi].id) <==> gs[gi].status == 0
    ensures forall u :: Owns(gs, gs[gi].id, u) <==> gs[gi].owner == u
  {
    assert GroupKeys(gs)[gi] == gs[gi].id;
  }

  lemma Unknown(gs: seq<Group>, g: string)
    requires g !in GroupKeys(gs)
    ensures !Live(gs, g) && forall u :: !Owns(gs, g, u)
  {
    forall i | 0 <= i < |gs| ensures gs[i].id != g { assert GroupKeys(gs)[i] == gs[i].id; }
  }

  lemma OneRole(ms: seq<Member>, m: Member)
    requires NoRepeat(ms) && m in ms
    ensures forall m' :: m' in ms && m'.group == m.group && m'.user == m.user ==> m' == m
  {}

  lemma RanksBy(ms: seq<Member>, g: string, u: string, role: int, r: int)
    requires NoRepeat(ms) && r > -1
    requires g == "" || u == "" || !Listed(ms, g, u) ==> role == -1
    requires g != "" && u != "" && Listed(ms, g, u) ==> Member(g, u, role) in ms
    ensures Ranks(ms, g, u, r) <==> role >= r
  {
    if g != "" && u != "" && Listed(ms, g, u) { OneRole(ms, Member(g, u, role)); }
  }

  lemma EvolvesTrans(a: seq<Group>, b: seq<Group>, c: seq<Group>)
    requires Evolves(a, b) && Evolves(b, c)
    ensures Evolves(a, c)
  {}

  lemma CountedSound(gs: seq<Group>, ms: seq<Member>, gs': seq<Group>, gi: int, u: string)
    requires Tallied(gs, ms) && DistinctIds(gs) && 0 <= gi < |gs| && gs[gi].status == 0 && Counted(gs, gs', gs[gi].id)
    ensures var ms' := ms + [Member(gs[gi].id, u, MEMBER)]; Tallied(gs', ms') && KeepsOwners(gs, ms, gs', ms')
    ensures Steady(gs, gs')
  {
    AddSound(gs, ms, gi, u, MEMBER);
    assert gs' == gs[gi := gs[gi].(count := gs[gi].count + 1)];
  }

  lemma DiscountedSound(gs: seq<Group>, ms: seq<Member>, gs': seq<Group>, gi: int, mi: int)
    requires Tallied(gs, ms) && DistinctIds(gs) && NoRepeat(ms) && 0 <= gi < |gs| && gs[gi].status == 0
    requires Discounted(gs, gs', gs[gi].id)
    requires 0 <= mi < |ms| && ms[mi].group == gs[gi].id && ms[mi].user != gs[gi].owner
    ensures var ms' := SwapRemove(ms, mi); Tallied(gs', ms') && KeepsOwners(gs, ms, gs', ms') && Steady(gs, gs')
  {
    RemoveSound(gs, ms, gi, mi);
    assert gs' == gs[gi := gs[gi].(count := gs[gi].count - 1)];
  }

  // Adds an ordinary member to a live group; the only failure is a full member table.
  method Enrol(svc: Service, gi: int, uid: string) returns (rc: int)
    requires Good(svc) && 0 <= gi < |svc.groups| && svc.groups[gi].status == 0
    modifies svc`groups, svc`members, svc`head, svc`next, svc.memberHash
    ensures Good(svc) && KeepsOwners(old(svc.groups), old(svc.members), svc.groups, svc.members)
    ensures Steady(old(svc.groups), svc.groups) && |svc.next| == old(|svc.next|)
    ensures rc == (if |old(svc.members)| < |svc.next| then 0 else -1)
    ensures rc == 0 ==> Listed(svc.members, svc.groups[gi].id, uid)
    ensures svc.members == old(svc.members)
      || svc.members == old(svc.members) + [Member(svc.groups[gi].id, uid, MEMBER)]
  {
    hide Tallied, KeepsOwners, NoRepeat, DistinctIds, Probe.Indexed, Linked;
    SameOwners(svc.groups, svc.members);
    ghost var gs, ms := svc.groups, svc.members;
    rc := svc.AddMember(svc.groups[gi].id, uid, MEMBER);
    if rc == 0 && !Listed(ms, gs[gi].id, uid) {
      CountedSound(gs, ms, svc.groups, gi, uid);
      assert svc.members[|ms|].user == uid;
    }
  }

  // Takes a member other than the owner out of a live group.
  method Expel(svc: Service, gi: int, uid: string) returns (rc: int)
    requires Good(svc) && 0 <= gi < |svc.groups| && svc.groups[gi].status == 0 && uid != svc.groups[gi].owner
    modifies svc`groups, svc`members, svc`head, svc`next, svc.memberHash
    ensures Good(svc) && KeepsOwners(old(svc.groups), old(svc.members), svc.groups, svc.members)
    ensures Steady(old(svc.groups), svc.groups)
    ensures rc == if Listed(old(svc.members), svc.groups[gi].id, uid) then 0 else -1
    ensures forall m :: m in svc.members <==> m in old(svc.members) && !(m.group == svc.groups[gi].id && m.user == uid)
    ensures rc != 0 ==> svc.groups == old(svc.groups) && svc.members == old(svc.members)
  {
    hide Tallied, KeepsOwners, NoRepeat, DistinctIds, Probe.Indexed, Linked;
    SameOwners(svc.groups, svc.members);
    ghost var gs, ms := svc.groups, svc.members;
    ghost var mi;
    rc, mi := svc.RemoveMember(svc.groups[gi].id, uid);
    if rc == 0 {
      DiscountedSound(gs, ms, svc.groups, gi, mi);
      SwapRemoveKeeps(ms, mi);
      OneRole(ms, ms[mi]);
    }
  }

  // What is new in ms' is users of us other than skip, as ordinary members of g, after everybody of ms.
  ghost predicate Joined(ms: seq<Member>, ms': seq<Member>, g: string, us: seq<string>, skip: string) {
    && ms <= ms'
    && forall j :: |ms| <= j < |ms'| ==>
      ms'[j] == Member(g, ms'[j].user, 20) && ms'[j].user != skip && ms'[j].user in us
  }

  ghost predicate AllIn(ms: seq<Member>, g: string, us: seq<string>, skip: string) {
    forall u :: u in us && u != skip ==> Listed(ms, g, u)
  }

  // The users of us have joined, all of them unless the room for members ran out.
  ghost predicate Entered(ms: seq<Member>, ms': seq<Member>, g: string, us: seq<string>, skip: string, room: int) {
    Joined(ms, ms', g, us, skip) && (|ms'| < room ==> AllIn(ms', g, us, skip))
  }

  lemma NobodyYet(ms: seq<Member>, g: string, us: seq<string>, skip: string, room: int)
    ensures Entered(ms, ms, g, us[..0], skip, room)
  {}

  lemma OneMore(ms: seq<Member>, ms1: seq<Member>, ms2: seq<Member>, g: string, us: seq<string>, i: int, skip: string,
          room: int)
    requires 0 <= i < |us| && Entered(ms, ms1, g, us[..i], skip, room)
    requires ms2 == ms1 || (us[i] != skip && ms2 == ms1 + [Member(g, us[i], MEMBER)])
    requires us[i] == skip || |ms1| >= room || Listed(ms2, g, us[i])
    ensures Entered(ms, ms2, g, us[..i + 1], skip, room)
  {
    assert us[..i + 1] == us[..i] + [us[i]];
    forall v | Listed(ms1, g, v) ensures Listed(ms2, g, v) {
      var j :| 0 <= j < |ms1| && ms1[j].group == g && ms1[j].user == v;
      assert ms2[j] == ms1[j];
    }
  }

  // An argument of a call, which may be missing.
  datatype Maybe = Missing | Given(text: string)

  // Whether the owner of a new group finds room, if the group does.
  ghost predicate OwnerFits(svc: Service, owner: Maybe)
    reads svc
  { owner.Missing? || |svc.groups| >= |svc.head| || |svc.members| < |svc.next| }

  // The id is fresh, as generated ids are. Live groups are all owned afterwards exactly if they were before and the
  // member table has room for the owner of a new one.
  method CreateGroup(svc: Service, gid: string, owner: Maybe, others: seq<string>) returns (err: int)
    requires Good(svc) && gid !in GroupKeys(svc.groups) && gid !in Homes(svc.members)
    modifies svc`groups, svc`members, svc`head, svc`next, svc.groupHash, svc.memberHash
    ensures Good(svc) && KeepsOwners(old(svc.groups), old(svc.members), svc.groups, svc.members)
    ensures AllOwned(svc.groups, svc.members) <==> old(AllOwned(svc.groups, svc.members) && OwnerFits(svc, owner))
    ensures Evolves(old(svc.groups), svc.groups) && |svc.head| == old(|svc.head|) && |svc.next| == old(|svc.next|)
    ensures err == if owner.Given? && |old(svc.groups)| < |svc.head| then 0 else 500
    ensures err == 500 ==> svc.groups == old(svc.groups) && svc.members == old(svc.members)
    ensures err == 0 ==>
      |svc.groups| == |old(svc.groups)| + 1 && Steady(old(svc.groups) + [Group(gid, owner.text, 0, 0)], svc.groups)
    ensures err == 0 && |old(svc.members)| < |svc.next| ==>
      Entered(old(svc.members) + [Member(gid, owner.text, 100)], svc.members, gid, others, owner.text, |svc.next|)
    ensures err == 0 && |old(svc.members)| >= |svc.next| ==> svc.members == old(svc.members)
  {
    hide Tallied, KeepsOwners, AllOwned, GroupOwned, NoRepeat, DistinctIds, Probe.Indexed, Linked, Listed, Entered;
    ghost var gs, ms := svc.groups, svc.members;
    SameOwners(gs, ms);
    if owner.Missing? { return FAILED; }
    var rc := svc.NewGroup(gid, owner.text);
    if rc != 0 { return FAILED; }
    var gi := |svc.groups| - 1;
    Created(gs, ms, gid, owner.text);
    ghost var gs1, ms1 := svc.groups, svc.members;
    NobodyYet(ms1, gid, others, owner.text, |svc.next|);
    SameOwners(gs1, ms1);
    for i := 0 to |others|
      invariant Good(svc) && |svc.head| == old(|svc.head|) && |svc.next| == old(|svc.next|)
      invariant Steady(gs1, svc.groups) && KeepsOwners(gs1, ms1, svc.groups, svc.members)
      invariant Grown(ms1, svc.members, gid)
      invariant |ms| < |svc.next| ==> Entered(ms1, svc.members, gid, others[..i], owner.text, |svc.next|)
      invariant |ms| >= |svc.next| ==> svc.groups == gs1 && svc.members == ms1
    {
      ghost var gs2, ms2 := svc.groups, svc.members;
      if others[i] != owner.text {
        rc := svc.AddMember(gid, others[i], MEMBER);
        if |ms2| < |svc.next| && !Listed(ms2, gid, others[i]) { Added(gs1, ms1, gs2, ms2, svc.groups, gi, others[i]); }
      }
      if |ms| < |svc.next| { OneMore(ms1, ms2, svc.members, gid, others, i, owner.text, |svc.next|); }
    }
    assert others[..|others|] == others;
    EvolvesTrans(gs, gs1, svc.groups);
    OwnersTrans(gs, ms, gs1, ms1, svc.groups, svc.members);
    CreatedOwned(gs, ms, gs1, ms1, svc.groups, svc.members, gid);
    err := OK;
  }

  // The members of ms are still there, and what is new is ordinary members of g.
  ghost predicate Grown(ms: seq<Member>, ms': seq<Member>, g: string) {
    ms <= ms' && forall j :: |ms| <= j < |ms'| ==> ms'[j].group == g && ms'[j].role == MEMBER
  }

  lemma SameOwners(gs: seq<Group>, ms: seq<Member>)
    ensures KeepsOwners(gs, ms, gs, ms)
  {}

  lemma Added(gs: seq<Group>, ms: seq<Member>, gs1: seq<Group>, ms1: seq<Member>, gs2: seq<Group>, gi: int, u: string)
    requires Tallied(gs1, ms1) && DistinctIds(gs1) && 0 <= gi < |gs1| && gs1[gi].status == 0
    requires Counted(gs1, gs2, gs1[gi].id)
    requires KeepsOwners(gs, ms, gs1, ms1) && Steady(gs, gs1) && Grown(ms, ms1, gs1[gi].id)
    ensures var ms2 := ms1 + [Member(gs1[gi].id, u, MEMBER)];
      Tallied(gs2, ms2) && KeepsOwners(gs, ms, gs2, ms2) && Steady(gs, gs2) && Grown(ms, ms2, gs1[gi].id)
        && Listed(ms2, gs1[gi].id, u)
  {
    hide Tallied, KeepsOwners;
    CountedSound(gs1, ms1, gs2, gi, u);
    OwnersTrans(gs, ms, gs1, ms1, gs2, ms1 + [Member(gs1[gi].id, u, MEMBER)]);
    Last(ms1, gs1[gi].id, u);
  }

  // Ordinary members make nobody an owner, so what decides is whether the new group started out owned.
  lemma CreatedOwned(gs: seq<Group>, ms: seq<Member>, gs1: seq<Group>, ms1: seq<Member>, gs2: seq<Group>,
          ms2: seq<Member>, g: string)
    requires |gs1| == |gs2| == |gs| + 1 && gs <= gs1 && Steady(gs1, gs2) && gs1[|gs|].id == g && gs1[|gs|].status == 0
    requires KeepsOwners(gs, ms, gs1, ms1) && KeepsOwners(gs1, ms1, gs2, ms2) && Grown(ms1, ms2, g)
    requires forall m :: m in ms1 && m.group != g ==> m in ms
    requires ms <= ms1 && g !in GroupKeys(gs)
    ensures AllOwned(gs2, ms2) <==> AllOwned(gs, ms) && GroupOwned(gs1[|gs|], ms1)
  {
    assert |gs| < |gs1|;
    if AllOwned(gs2, ms2) {
      forall i | 0 <= i < |gs1|
        ensures GroupOwned(gs1[i], ms1)
      {
        assert GroupOwned(gs2[i], ms2);
        OwnedBefore(ms1, ms2, g, gs1[i], gs2[i]);
      }
      forall i | 0 <= i < |gs|
        ensures GroupOwned(gs[i], ms)
      {
        assert gs1[i] == gs[i] && GroupKeys(gs)[i] != g;
        assert GroupOwned(gs1[i], ms1);
        OwnedElsewhere(ms, ms1, gs[i], g);
      }
    }
    if AllOwned(gs, ms) && GroupOwned(gs1[|gs|], ms1) {
      forall i | 0 <= i < |gs2|
        ensures GroupOwned(gs2[i], ms2)
      {
        if i < |gs| { assert GroupOwned(gs[i], ms); }
        assert GroupOwned(gs1[i], ms1);
      }
    }
  }

  lemma OwnedBefore(ms: seq<Member>, ms': seq<Member>, g: string, x: Group, x': Group)
    requires Grown(ms, ms', g) && x' == x.(count := x'.count) && GroupOwned(x', ms')
    ensures GroupOwned(x, ms)
  {
    if x.status == 0 {
      var j :| 0 <= j < |ms'| && ms'[j] == Member(x.id, x.owner, OWNER);
      assert ms[j] == ms'[j];
    }
  }

  lemma OwnedElsewhere(ms: seq<Member>, ms': seq<Member>, x: Group, g: string)
    requires ms <= ms' && (forall m :: m in ms' && m.group != g ==> m in ms) && x.id != g && GroupOwned(x, ms')
    ensures GroupOwned(x, ms)
  {}

  lemma Last(ms: seq<Member>, g: string, u: string)
    ensures Listed(ms + [Member(g, u, MEMBER)], g, u)
  {
    assert (ms + [Member(g, u, MEMBER)])[|ms|].user == u;
  }

  lemma Created(gs: seq<Group>, ms: seq<Member>, g: string, o: string)
    requires Tallied(gs, ms) && g !in GroupKeys(gs) && g !in Homes(ms)
    ensures var gs', ms' := gs + [Group(g, o, 1, 0)], ms + [Member(g, o, OWNER)];
      Tallied(gs', ms') && KeepsOwners(gs, ms, gs', ms') && GroupOwned(gs'[|gs|], ms') && Evolves(gs, gs')
        && Grown(ms', ms', g)
    ensures var gs' := gs + [Group(g, o, 0, 0)];
      Tallied(gs', ms) && KeepsOwners(gs, ms, gs', ms) && !GroupOwned(gs'[|gs|], ms) && Evolves(gs, gs')
        && Grown(ms, ms, g)
  {
    CountNone(ms, g);
    forall j | 0 <= j < |ms| ensures ms[j].group != g { assert Homes(ms)[j] != g; }
    forall i | 0 <= i < |gs| ensures gs[i].id != g { assert GroupKeys(gs)[i] != g; }
    CreateSound(gs, ms, g, o);
    CreateWithoutRoom(gs, ms, g, o);
  }

  // A member table of any size fills up with one group, and the next creation leaves a group that nobody owns.
  method OwnerlessCreation(h: string -> nat, h2: Pair -> nat, maxGroups: nat, maxMembers: nat, groupSlots: nat,
          memberSlots: nat, gid: string, gid': string, owner: string, others: seq<string>)
    returns (svc: Service)
    requires 2 <= maxGroups < groupSlots && 1 <= maxMembers < memberSlots && gid != gid'
    requires |others| == maxMembers - 1 && Different([owner] + others)
    ensures fresh(svc) && |svc.next| == maxMembers && Good(svc)
    ensures |svc.groups| == 2 && svc.groups[1].id == gid' && svc.groups[1].status == 0
    ensures !GroupOwned(svc.groups[1], svc.members)
  {
    hide Tallied, KeepsOwners, NoRepeat, DistinctIds, Probe.Indexed, Linked, Entered, Owned;
    svc := new Service(h, h2, maxGroups, maxMembers, groupSlots, memberSlots);
    NothingTallied();
    var err := CreateGroup(svc, gid, Given(owner), others);
    var founder := Member(gid, owner, OWNER);
    assert [] + [founder] == [founder];
    TableFull(svc.members, founder, others, maxMembers);
    ghost var gs, ms := svc.groups, svc.members;
    err := CreateGroup(svc, gid', Given(owner), []);
    Outsider(ms, gid', owner);
  }

  lemma NothingTallied()
    ensures Tallied([], [])
  {}

  // Nobody of another group is listed under g.
  lemma Outsider(ms: seq<Member>, g: string, u: string)
    requires g !in Homes(ms)
    ensures !Owned(ms, g, u)
  {
    forall j | 0 <= j < |ms| ensures ms[j].group != g { assert Homes(ms)[j] != g; }
  }

  // As many different users as there is room for leave none.
  lemma TableFull(ms: seq<Member>, founder: Member, others: seq<string>, room: int)
    requires Entered([founder], ms, founder.group, others, founder.user, room)
    requires |others| + 1 == room && Different([founder.user] + others)
    ensures |ms| >= room && forall g :: g != founder.group ==> g !in Homes(ms)
  {
    if |ms| < room {
      var us := [founder.user] + others;
      forall i | 0 <= i < |us| ensures us[i] in Users(ms) {
        if i == 0 { assert Users(ms)[0] == us[0]; } else {
          assert us[i] in others && us[0] != us[i];
          var j :| 0 <= j < |ms| && ms[j].group == founder.group && ms[j].user == us[i];
          assert Users(ms)[j] == us[i];
        }
      }
      Crowd(us, Users(ms));
    }
    forall j | 0 <= j < |ms| ensures ms[j].group == founder.group { assert j == 0 ==> ms[j] == founder; }
  }

  ghost function Users(ms: seq<Member>): (r: seq<string>)
    ensures |r| == |ms| && forall i :: 0 <= i < |ms| ==> r[i] == ms[i].user
  { seq(|ms|, i requires 0 <= i < |ms| => ms[i].user) }

  ghost predicate Named(us: seq<string>) { exists k :: 0 <= k < |us| && us[k] != "" }

  // One user and a list of users join a live group on the word of one of its members.
  // All of them are in unless the member table filled up, and it is an error if it was full at the start.
  method InviteToGroup(svc: Service, gid: string, from: string, uid: string, ids: seq<string>) returns (err: int)
    requires Good(svc)
    modifies svc`groups, svc`members, svc`head, svc`next, svc.memberHash
    ensures Good(svc) && KeepsOwners(old(svc.groups), old(svc.members), svc.groups, svc.members)
    ensures Steady(old(svc.groups), svc.groups) && |svc.next| == old(|svc.next|)
    ensures err == 3001 <==> gid !in GroupKeys(old(svc.groups))
    ensures err == 0 || err == 3002 <==> Live(old(svc.groups), gid) && Ranks(old(svc.members), gid, from, 20)
    ensures err == 0 ==> |old(svc.members)| < |svc.next| && Named([uid] + ids)
    ensures err == 3002 ==> !(|old(svc.members)| < |svc.next| && Named([uid] + ids))
    ensures err in {0, 3001, 3003, 3002} && (err != 0 ==> svc.members == old(svc.members))
    ensures err == 0 ==> Entered(old(svc.members), svc.members, gid, [uid] + ids, "", |svc.next|)
  {
    hide Tallied, KeepsOwners, NoRepeat, DistinctIds, Probe.Indexed, Linked, Entered, Listed, Live, Ranks;
    SameOwners(svc.groups, svc.members);
    ghost var ms := svc.members;
    var gi := svc.GroupFind(gid);
    if gi < 0 { Unknown(svc.groups, gid); return NO_GROUP; }
    Looked(svc.groups, gi);
    if svc.groups[gi].status != 0 { return REFUSED; }
    var role := svc.MemberRole(gid, from);
    RanksBy(ms, gid, from, role, MEMBER);
    if from == "" || role < MEMBER { return REFUSED; }
    var rc := -1;
    var all := [uid] + ids;
    NobodyYet(ms, gid, all, "", |svc.next|);
    for i := 0 to |all|
      invariant Good(svc) && Steady(old(svc.groups), svc.groups) && |svc.next| == old(|svc.next|)
      invariant KeepsOwners(old(svc.groups), ms, svc.groups, svc.members)
      invariant Entered(ms, svc.members, gid, all[..i], "", |svc.next|) && |ms| <= |svc.members|
      invariant rc == 0 || rc == -1
      invariant rc == 0 <==> |ms| < |svc.next| && exists k :: 0 <= k < i && all[k] != ""
      invariant rc != 0 ==> svc.members == ms
    {
      ghost var gs1, ms1 := svc.groups, svc.members;
      if all[i] != "" {
        var r := Enrol(svc, gi, all[i]);
        OwnersTrans(old(svc.groups), ms, gs1, ms1, svc.groups, svc.members);
        if r == 0 { rc := 0; }
      }
      OneMore(ms, ms1, svc.members, gid, all, i, "", |svc.next|);
    }
    assert all[..|all|] == all;
    err := if rc == 0 then OK else NO_MEMBER;
  }

  // The owner must hand over before leaving; anybody else leaves alone.
  method QuitGroup(svc: Service, gid: string, uid: string) returns (err: int)
    requires Good(svc)
    modifies svc`groups, svc`members, svc`head, svc`next, svc.memberHash
    ensures Good(svc) && KeepsOwners(old(svc.groups), old(svc.members), svc.groups, svc.members)
    ensures Steady(old(svc.groups), svc.groups)
    ensures err == 3001 <==> gid !in GroupKeys(old(svc.groups))
    ensures err == 400 <==> Live(old(svc.groups), gid) && uid == ""
    ensures err == 0 || err == 3002 <==>
      Live(old(svc.groups), gid) && uid != "" && !Owns(old(svc.groups), gid, uid)
    ensures err == 0 ==> Listed(old(svc.members), gid, uid)
    ensures err == 3002 ==> !Listed(old(svc.members), gid, uid)
    ensures err in {0, 3001, 3003, 3002, 400} && (err != 0 ==> svc.members == old(svc.members))
    ensures err == 0 ==> forall m :: m in svc.members <==> m in old(svc.members) && !(m.group == gid && m.user == uid)
  {
    hide Tallied, KeepsOwners, NoRepeat, DistinctIds, Probe.Indexed, Linked, Listed, Live, Owns;
    SameOwners(svc.groups, svc.members);
    var gi := svc.GroupFind(gid);
    if gi < 0 { Unknown(svc.groups, gid); return NO_GROUP; }
    Looked(svc.groups, gi);
    if svc.groups[gi].status != 0 { return REFUSED; }
    if uid == "" { return BAD_REQUEST; }
    if uid == svc.groups[gi].owner { return REFUSED; }
    var rc := Expel(svc, gi, uid);
    err := if rc == 0 then OK else NO_MEMBER;
  }

  // Member m is on the list us, below role r, and neither the operator nor the owner.
  ghost predicate Below(m: Member, g: string, us: seq<string>, op: string, owner: string, r: int) {
    m.group == g && m.user in us && m.user != "" && m.user != op && m.user != owner && m.role < r
  }

  // The members on the list us that op may kick.
  ghost predicate Kicked(gs: seq<Group>, ms: seq<Member>, g: string, us: seq<string>, op: string, m: Member) {
    exists r, owner :: Member(g, op, r) in ms && Owns(gs, g, owner) && Below(m, g, us, op, owner, r)
  }

  lemma KickedBelow(gs: seq<Group>, ms: seq<Member>, gi: int, us: seq<string>, op: string, r: int)
    requires NoRepeat(ms) && DistinctIds(gs) && 0 <= gi < |gs| && Member(gs[gi].id, op, r) in ms
    ensures forall m :: Kicked(gs, ms, gs[gi].id, us, op, m) <==> Below(m, gs[gi].id, us, op, gs[gi].owner, r)
  {
    Looked(gs, gi);
    OneRole(ms, Member(gs[gi].id, op, r));
  }

  // The members of ms that are left once the list us has been worked through.
  ghost predicate Spared(ms: seq<Member>, ms': seq<Member>, g: string, us: seq<string>, op: string, owner: string,
          r: int)
  {
    forall m :: m in ms' <==> m in ms && !Below(m, g, us, op, owner, r)
  }

  lemma AllSpared(ms: seq<Member>, g: string, us: seq<string>, op: string, owner: string, r: int)
    ensures Spared(ms, ms, g, us[..0], op, owner, r)
  {}

  lemma SparedPass(ms: seq<Member>, ms1: seq<Member>, g: string, us: seq<string>, i: int, op: string, owner: string,
          r: int, role: int)
    requires NoRepeat(ms) && 0 <= i < |us| && Spared(ms, ms1, g, us[..i], op, owner, r)
    requires us[i] == "" || us[i] == op || us[i] == owner || (role >= r && Member(g, us[i], role) in ms1)
    ensures Spared(ms, ms1, g, us[..i + 1], op, owner, r)
  {
    assert us[..i + 1] == us[..i] + [us[i]];
    if Member(g, us[i], role) in ms { OneRole(ms, Member(g, us[i], role)); }
  }

  lemma SparedKick(ms: seq<Member>, ms1: seq<Member>, ms2: seq<Member>, g: string, us: seq<string>, i: int, op: string,
          owner: string, r: int, role: int)
    requires NoRepeat(ms) && 0 <= i < |us| && Spared(ms, ms1, g, us[..i], op, owner, r)
    requires us[i] != "" && us[i] != op && us[i] != owner && role < r
    requires Listed(ms1, g, us[i]) ==> Member(g, us[i], role) in ms1
    requires forall m :: m in ms2 <==> m in ms1 && !(m.group == g && m.user == us[i])
    ensures Spared(ms, ms2, g, us[..i + 1], op, owner, r)
    ensures Listed(ms1, g, us[i]) ==> exists m :: m in ms && Below(m, g, us[..i + 1], op, owner, r)
  {
    assert us[..i + 1] == us[..i] + [us[i]];
    if Listed(ms1, g, us[i]) {
      OneRole(ms, Member(g, us[i], role));
      assert Below(Member(g, us[i], role), g, us[..i + 1], op, owner, r);
    } else {
      forall m | m in ms1 ensures !(m.group == g && m.user == us[i]) { var j :| 0 <= j < |ms1| && ms1[j] == m; }
    }
  }

  lemma SparedAll(ms: seq<Member>, ms': seq<Member>, g: string, us: seq<string>, op: string, owner: string, r: int)
    requires Spared(ms, ms', g, us, op, owner, r)
    ensures forall m :: m in ms' <==> m in ms && !Below(m, g, us, op, owner, r)
  {}

  lemma BelowMore(ms: seq<Member>, g: string, us: seq<string>, i: int, op: string, owner: string, r: int)
    requires 0 <= i < |us| && exists m :: m in ms && Below(m, g, us[..i], op, owner, r)
    ensures exists m :: m in ms && Below(m, g, us[..i + 1], op, owner, r)
  {
    var m :| m in ms && Below(m, g, us[..i], op, owner, r);
    assert us[..i + 1] == us[..i] + [us[i]];
    assert Below(m, g, us[..i + 1], op, owner, r);
  }

  // Works on one user of the list us, for an operator of role r.
  method KickOne(svc: Service, gi: int, us: seq<string>, i: int, op: string, r: int, ghost ms: seq<Member>)
    returns (rc: int)
    requires Good(svc) && 0 <= gi < |svc.groups| && svc.groups[gi].status == 0 && svc.groups[gi].id != ""
    requires 0 <= i < |us| && r >= ADMIN
    requires NoRepeat(ms) && Spared(ms, svc.members, svc.groups[gi].id, us[..i], op, svc.groups[gi].owner, r)
    modifies svc`groups, svc`members, svc`head, svc`next, svc.memberHash
    ensures Good(svc) && KeepsOwners(old(svc.groups), old(svc.members), svc.groups, svc.members)
    ensures Steady(old(svc.groups), svc.groups)
    ensures Spared(ms, svc.members, svc.groups[gi].id, us[..i + 1], op, svc.groups[gi].owner, r)
    ensures rc == 0 ==> exists m :: m in ms && Below(m, svc.groups[gi].id, us[..i + 1], op, svc.groups[gi].owner, r)
    ensures rc != 0 ==> rc == -1 && svc.members == old(svc.members)
  {
    hide Tallied, KeepsOwners, NoRepeat, DistinctIds, Probe.Indexed, Linked, Listed, Spared, Below;
    SameOwners(svc.groups, svc.members);
    ghost var ms1 := svc.members;
    var gid, owner, u := svc.groups[gi].id, svc.groups[gi].owner, us[i];
    if u == "" || u == op || u == owner { SparedPass(ms, ms1, gid, us, i, op, owner, r, 0); return -1; }
    var role := svc.MemberRole(gid, u);
    if role >= r { SparedPass(ms, ms1, gid, us, i, op, owner, r, role); return -1; }
    rc := Expel(svc, gi, u);
    SparedKick(ms, ms1, svc.members, gid, us, i, op, owner, r, role);
  }

  // An admin or the owner removes exactly the listed members ranked below it, never itself or the owner.
  method KickGroupMember(svc: Service, gid: string, op: string, uid: string, ids: seq<string>) returns (err: int)
    requires Good(svc)
    modifies svc`groups, svc`members, svc`head, svc`next, svc.memberHash
    ensures Good(svc) && KeepsOwners(old(svc.groups), old(svc.members), svc.groups, svc.members)
    ensures Steady(old(svc.groups), svc.groups)
    ensures err == 3003 <==> !(Live(old(svc.groups), gid) && Ranks(old(svc.members), gid, op, 60))
    ensures err == 0 ==>
      exists m :: m in old(svc.members) && Kicked(old(svc.groups), old(svc.members), gid, [uid] + ids, op, m)
    ensures err in {0, 3003, 3002} && (err != 0 ==> svc.members == old(svc.members))
    ensures err != 3003 ==> forall m :: m in svc.members <==>
      m in old(svc.members) && !Kicked(old(svc.groups), old(svc.members), gid, [uid] + ids, op, m)
  {
    hide Tallied, KeepsOwners, NoRepeat, DistinctIds, Probe.Indexed, Linked, Listed, Live, Ranks, Kicked, Spared, Below;
    SameOwners(svc.groups, svc.members);
    ghost var gs, ms := svc.groups, svc.members;
    var gi := svc.GroupFind(gid);
    var opRole := -1;
    if op != "" { opRole := svc.MemberRole(gid, op); }
    RanksBy(ms, gid, op, opRole, ADMIN);
    if gi >= 0 { Looked(gs, gi); } else { Unknown(gs, gid); }
    if gi < 0 || svc.groups[gi].status != 0 || opRole < ADMIN { return REFUSED; }
    var rc := -1;
    var all := [uid] + ids;
    ghost var owner := gs[gi].owner;
    AllSpared(ms, gid, all, op, owner, opRole);
    for i := 0 to |all|
      invariant Good(svc) && Steady(gs, svc.groups) && KeepsOwners(gs, ms, svc.groups, svc.members)
      invariant Spared(ms, svc.members, gid, all[..i], op, owner, opRole)
      invariant rc == 0 || rc == -1
      invariant rc == 0 ==> exists m :: m in ms && Below(m, gid, all[..i], op, owner, opRole)
      invariant rc != 0 ==> svc.members == ms
    {
      if rc == 0 { BelowMore(ms, gid, all, i, op, owner, opRole); }
      ghost var gs1, ms1 := svc.groups, svc.members;
      var r := KickOne(svc, gi, all, i, op, opRole, ms);
      OwnersTrans(gs, ms, gs1, ms1, svc.groups, svc.members);
      if r == 0 { rc := 0; }
    }
    assert all[..|all|] == all;
    KickedBelow(gs, ms, gi, all, op, opRole);
    SparedAll(ms, svc.members, gid, all, op, owner, opRole);
    err := if rc == 0 then OK else NO_MEMBER;
  }

  // The owner hands the group to a member, who takes over the owner's role.
  method TransferGroupOwner(svc: Service, gid: string, op: string, newOwner: string) returns (err: int)
    requires Good(svc)
    modifies svc`groups, svc`members
    ensures Good(svc) && KeepsOwners(old(svc.groups), old(svc.members), svc.groups, svc.members)
    ensures Evolves(old(svc.groups), svc.groups)
    ensures err == 3001 <==> gid !in GroupKeys(old(svc.groups)) || newOwner == ""
    ensures err == 0 || err == 3002 <==> newOwner != "" && Mastered(old(svc.groups), old(svc.members), gid, op)
    ensures err == 0 ==> Listed(old(svc.members), gid, newOwner)
    ensures err == 3002 ==> !Listed(old(svc.members), gid, newOwner)
    ensures err in {0, 3001, 3003, 3002}
    ensures err != 0 ==> svc.groups == old(svc.groups) && svc.members == old(svc.members)
    ensures err == 0 ==> HandedOver(old(svc.groups), svc.groups, gid, op, newOwner)
    ensures err == 0 ==> forall m :: m in old(svc.members) ==> Reranked(m, gid, op, newOwner) in svc.members
    ensures |svc.members| == |old(svc.members)|
  {
    hide Tallied, KeepsOwners, NoRepeat, DistinctIds, Probe.Indexed, Linked, Listed, Owns;
    SameOwners(svc.groups, svc.members);
    var gi := svc.GroupFind(gid);
    if gi >= 0 { Looked(svc.groups, gi); } else { Unknown(svc.groups, gid); }
    if gi < 0 || newOwner == "" { return NO_GROUP; }
    var isMember := svc.IsMember(gid, op);
    if op == "" || op != svc.groups[gi].owner || !isMember { return REFUSED; }
    var b := svc.MemberFind(gid, newOwner);
    if b < 0 { return NO_MEMBER; }
    var a := svc.MemberFind(gid, svc.groups[gi].owner);
    ghost var gs, ms := svc.groups, svc.members;
    LiveIfListed(gs, ms, gi, b);
    TransferSound(gs, ms, gi, a, b);
    SameKeys(ms, Retitle(ms, a, b));
    svc.members := svc.members[a := svc.members[a].(role := MEMBER)];
    svc.members := svc.members[b := svc.members[b].(role := OWNER)];
    svc.groups := svc.groups[gi := svc.groups[gi].(owner := newOwner)];
    SameIds(gs, svc.groups);
    assert svc.members == Retitle(ms, a, b);
    RetitleRanks(ms, a, b);
    assert Handover(gs[gi], gid, op);
    err := OK;
  }

  ghost predicate Handover(g: Group, gid: string, op: string) { g.id == gid && g.status == 0 && g.owner == op }

  // The live group gid of op passes to newOwner, and no other group changes.
  ghost predicate HandedOver(gs: seq<Group>, gs': seq<Group>, gid: string, op: string, newOwner: string) {
    exists i :: 0 <= i < |gs| && Handover(gs[i], gid, op) && gs' == gs[i := gs[i].(owner := newOwner)]
  }

  // The live group gid of op is dismissed and empty, and no other group changes.
  ghost predicate Ended(gs: seq<Group>, gs': seq<Group>, gid: string, op: string) {
    exists i :: 0 <= i < |gs| && Handover(gs[i], gid, op) && gs' == gs[i := gs[i].(count := 0, status := 2)]
  }

  // Only the owner, while still a member, may hand over or end the group.
  ghost predicate Mastered(gs: seq<Group>, ms: seq<Member>, g: string, u: string) {
    Owns(gs, g, u) && g != "" && u != "" && Listed(ms, g, u)
  }

  function Reranked(m: Member, g: string, op: string, newOwner: string): Member {
    if m.group == g && m.user == newOwner then m.(role := 100)
    else if m.group == g && m.user == op then m.(role := 20)
    else m
  }

  lemma RetitleRanks(ms: seq<Member>, a: int, b: int)
    requires NoRepeat(ms) && 0 <= a < |ms| && 0 <= b < |ms| && ms[a].group == ms[b].group
    ensures forall m :: m in ms ==> Reranked(m, ms[a].group, ms[a].user, ms[b].user) in Retitle(ms, a, b)
  {
    forall j | 0 <= j < |ms| ensures Reranked(ms[j], ms[a].group, ms[a].user, ms[b].user) in Retitle(ms, a, b) {
      assert Retitle(ms, a, b)[j] == Reranked(ms[j], ms[a].group, ms[a].user, ms[b].user);
    }
  }

  // A group with a member is live.
  lemma LiveIfListed(gs: seq<Group>, ms: seq<Member>, gi: int, mi: int)
    requires Tallied(gs, ms) && 0 <= gi < |gs| && 0 <= mi < |ms| && ms[mi].group == gs[gi].id
    ensures gs[gi].status == 0
  {
    assert GroupTallied(gs[gi], ms);
    CountNone(ms, gs[gi].id);
  }

  // The owner ends the group: its members are compacted away and it never comes back.
  method DismissGroup(svc: Service, gid: string, op: string) returns (err: int)
    requires Good(svc)
    modifies svc`groups, svc`members, svc`head, svc`next, svc.memberHash
    ensures Good(svc) && KeepsOwners(old(svc.groups), old(svc.members), svc.groups, svc.members)
    ensures Evolves(old(svc.groups), svc.groups)
    ensures err == 3001 <==> gid !in GroupKeys(old(svc.groups))
    ensures err == 0 <==> Mastered(old(svc.groups), old(svc.members), gid, op)
    ensures err in {0, 3001, 3003}
    ensures err != 0 ==> svc.groups == old(svc.groups) && svc.members == old(svc.members)
    ensures err == 0 ==> svc.members == Without(old(svc.members), gid) && Count(svc.members, gid) == 0
    ensures err == 0 ==> Ended(old(svc.groups), svc.groups, gid, op)
  {
    hide Tallied, KeepsOwners, NoRepeat, DistinctIds, Probe.Indexed, Linked, Without, Owns;
    SameOwners(svc.groups, svc.members);
    var gi := svc.GroupFind(gid);
    if gi < 0 { Unknown(svc.groups, gid); return NO_GROUP; }
    Looked(svc.groups, gi);
    var isMember := svc.IsMember(gid, op);
    if op == "" || op != svc.groups[gi].owner || !isMember { return REFUSED; }
    ghost var gs, ms := svc.groups, svc.members;
    var mi := svc.MemberFind(gid, op);
    DismissSound(gs, ms, gi);
    WithoutKeeps(ms, gid);
    CountWithout(ms, gid, gid);
    LiveIfListed(gs, ms, gi, mi);
    assert Handover(gs[gi], gid, op);
    var w := Compact(svc.members, gid);
    svc.members := w;
    svc.groups := svc.groups[gi := svc.groups[gi].(count := 0, status := 2)];
    SameIds(gs, svc.groups);
    svc.Rebuild();
    err := OK;
  }

  // Moves the members of other groups down over those of g.
  method Compact(members: seq<Member>, g: string) returns (r: seq<Member>)
    ensures r == Without(members, g)
  {
    r := members;
    var w := 0;
    for i := 0 to |members|
      invariant 0 <= w <= i && |r| == |members| && r[i..] == members[i..] && r[..w] == Without(members[..i], g)
    {
      assert members[..i + 1][..i] == members[..i];
      assert r[i] == r[i..][0] == members[i..][0];
      if r[i].group != g {
        assert r[w := r[i]][..w + 1] == r[..w] + [r[i]];
        r := r[w := r[i]];
        w := w + 1;
      }
      assert r[i + 1..] == members[i + 1..];
    }
    r := r[..w];
    assert members[..|members|] == members;
  }
}
