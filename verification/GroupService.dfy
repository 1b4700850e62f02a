// The group service: the group and member arrays with their hash indexes and per-group chains.
module GroupService {
  import opened Probe
  import opened GroupRules

  type Pair = (string, string)

  function GroupKeys(gs: seq<Group>): (r: seq<string>)
    ensures |r| == |gs| && forall i :: 0 <= i < |gs| ==> r[i] == gs[i].id
  { seq(|gs|, i requires 0 <= i < |gs| => gs[i].id) }

  function MemberKeys(ms: seq<Member>): (r: seq<Pair>)
    ensures |r| == |ms| && forall i :: 0 <= i < |ms| ==> r[i] == (ms[i].group, ms[i].user)
  { seq(|ms|, i requires 0 <= i < |ms| => (ms[i].group, ms[i].user)) }

  function Homes(ms: seq<Member>): (r: seq<string>)
    ensures |r| == |ms| && forall i :: 0 <= i < |ms| ==> r[i] == ms[i].group
  { seq(|ms|, i requires 0 <= i < |ms| => ms[i].group) }

  // The last of the first n members that belongs to g, or -1; homes[j] is the group of member j.
  function Last(homes: seq<string>, g: string, n: int): (i: int)
    requires 0 <= n <= |homes|
    ensures -1 <= i < n
    ensures i >= 0 ==> homes[i] == g
    ensures forall j :: i < j < n ==> homes[j] != g
  { if n == 0 then -1 else if homes[n - 1] == g then n - 1 else Last(homes, g, n - 1) }

  // Each chain runs through the group's members from the newest index down, over the first n members.
  ghost predicate Linked(ids: seq<string>, homes: seq<string>, head: seq<int>, next: seq<int>, n: int) {
    && 0 <= n <= |homes| && |head| >= |ids| && |next| >= |homes|
    && (forall i :: 0 <= i < |ids| ==> head[i] == Last(homes, ids[i], n))
    && (forall j :: 0 <= j < n ==> next[j] == if homes[j] in ids then Last(homes, homes[j], j) else -1)
  }

  // ----- chains under the updates -----

  lemma {:induction false} LastPrefix(homes: seq<string>, more: seq<string>, g: string, n: int)
    requires 0 <= n <= |homes|
    ensures Last(homes + more, g, n) == Last(homes, g, n)
  {
    if n > 0 { LastPrefix(homes, more, g, n - 1); }
  }

  // Linking member n, whose group sits at index gi or is unknown.
  lemma LinkChain(ids: seq<string>, homes: seq<string>, head: seq<int>, next: seq<int>, n: int, gi: int)
    requires Linked(ids, homes, head, next, n) && n < |homes| && -1 <= gi < |ids|
    requires forall i, j :: 0 <= i < j < |ids| ==> ids[i] != ids[j]
    requires gi >= 0 ==> ids[gi] == homes[n]
    requires gi < 0 ==> homes[n] !in ids
    ensures Linked(ids, homes, if gi >= 0 then head[gi := n] else head, next[n := if gi >= 0 then head[gi] else -1],
      n + 1)
  {}

  lemma NoChains(ids: seq<string>, homes: seq<string>, head: seq<int>, next: seq<int>)
    requires |head| >= |ids| && |next| >= |homes| && forall i :: 0 <= i < |ids| ==> head[i] == -1
    ensures Linked(ids, homes, head, next, 0)
  {}

  lemma GrowChain(ids: seq<string>, homes: seq<string>, head: seq<int>, next: seq<int>, g: string)
    requires Linked(ids, homes, head, next, |homes|) && |next| > |homes|
    ensures Linked(ids, homes + [g], head, next, |homes|)
  {
    forall g': string, n | 0 <= n <= |homes|
      ensures Last(homes + [g], g', n) == Last(homes, g', n)
    {
      LastPrefix(homes, [g], g', n);
    }
  }

  lemma NewGroupChain(ids: seq<string>, homes: seq<string>, head: seq<int>, next: seq<int>, g: string)
    requires Linked(ids, homes, head, next, |homes|) && |head| > |ids| && g !in homes
    ensures Linked(ids + [g], homes, head[|ids| := -1], next, |homes|)
  {
    assert Last(homes, g, |homes|) == -1;
  }

  lemma IdsDistinct(gs: seq<Group>)
    requires DistinctIds(gs)
    ensures forall i, j :: 0 <= i < j < |gs| ==> GroupKeys(gs)[i] != GroupKeys(gs)[j]
  {}

  lemma SameIds(gs: seq<Group>, gs': seq<Group>)
    requires |gs'| == |gs| && forall i :: 0 <= i < |gs| ==> gs'[i].id == gs[i].id
    ensures GroupKeys(gs') == GroupKeys(gs) && (DistinctIds(gs) ==> DistinctIds(gs'))
  {}

  lemma PushId(gs: seq<Group>, g: Group)
    requires DistinctIds(gs) && g.id !in GroupKeys(gs)
    ensures DistinctIds(gs + [g]) && GroupKeys(gs + [g]) == GroupKeys(gs) + [g.id]
    ensures GroupKeys(gs + [g])[..|gs|] == GroupKeys(gs) && forall i :: 0 <= i < |gs| ==> GroupKeys(gs + [g])[i] != g.id
  {
    forall i | 0 <= i < |gs| ensures gs[i].id != g.id { assert GroupKeys(gs)[i] != g.id; }
  }

  lemma NotHome(ms: seq<Member>, g: string, u: string)
    requires g !in Homes(ms)
    ensures !Listed(ms, g, u)
  {
    forall j | 0 <= j < |ms| ensures ms[j].group != g { assert Homes(ms)[j] != g; }
  }

  lemma CountedLast(gs: seq<Group>, gs': seq<Group>, g: string, o: string)
    requires Counted(gs + [Group(g, o, 0, 0)], gs', g) && g !in GroupKeys(gs)
    ensures gs' == gs + [Group(g, o, 1, 0)]
  {
    forall i | 0 <= i < |gs| ensures gs[i].id != g { assert GroupKeys(gs)[i] != g; }
  }

  lemma DistinctKeys(ms: seq<Member>, n: int)
    requires NoRepeat(ms) && 0 <= n < |ms|
    ensures forall i :: 0 <= i < n ==> MemberKeys(ms)[i] != MemberKeys(ms)[n]
  {}

  lemma PushDistinct(ms: seq<Member>, m: Member)
    requires NoRepeat(ms) && !Listed(ms, m.group, m.user)
    ensures NoRepeat(ms + [m]) && MemberKeys(ms + [m])[..|ms|] == MemberKeys(ms)
    ensures Homes(ms + [m]) == Homes(ms) + [m.group]
  {
    forall i | 0 <= i < |ms| ensures ms[i].group != m.group || ms[i].user != m.user {}
  }

  // Both indexes and the chains describe the arrays.
  ghost predicate IndexOk(gs: seq<Group>, ms: seq<Member>, gt: seq<int>, mt: seq<int>, head: seq<int>, next: seq<int>,
          h: string -> nat, h2: Pair -> nat)
  {
    && |gs| <= |head| < |gt| && |ms| <= |next| < |mt| && DistinctIds(gs) && NoRepeat(ms)
    && Indexed(gt, GroupKeys(gs), h, |gs|) && Indexed(mt, MemberKeys(ms), h2, |ms|)
    && Linked(GroupKeys(gs), Homes(ms), head, next, |ms|)
  }

  // The members of g among the first n, the latest first.
  ghost function Down(ms: seq<Member>, g: string, n: int): seq<Member>
    requires 0 <= n <= |ms|
  { if n == 0 then [] else if ms[n - 1].group == g then [ms[n - 1]] + Down(ms, g, n - 1) else Down(ms, g, n - 1) }

  lemma {:induction false} DownMembers(ms: seq<Member>, g: string, n: int)
    requires 0 <= n <= |ms|
    ensures |Down(ms, g, n)| == Count(ms[..n], g) && forall m :: m in Down(ms, g, n) <==> m in ms[..n] && m.group == g
  {
    if n > 0 {
      DownMembers(ms, g, n - 1);
      CountPush(ms[..n - 1], ms[n - 1], g);
      assert ms[..n] == ms[..n - 1] + [ms[n - 1]];
    }
  }

  lemma DownAll(ms: seq<Member>, g: string)
    ensures |Down(ms, g, |ms|)| == Count(ms, g) && forall m :: m in Down(ms, g, |ms|) <==> m in ms && m.group == g
  {
    DownMembers(ms, g, |ms|);
    assert ms[..|ms|] == ms;
  }

  lemma DownStep(ms: seq<Member>, g: string, i: int)
    requires 0 <= i < |ms|
    ensures Down(ms, g, i + 1) == if ms[i].group == g then [ms[i]] + Down(ms, g, i) else Down(ms, g, i)
  {}

  lemma DownNone(ms: seq<Member>, g: string)
    ensures Down(ms, g, 0) == []
  {}

  lemma {:induction false} DownSkips(ms: seq<Member>, g: string, n: int)
    requires 0 <= n <= |ms|
    ensures Down(ms, g, n) == Down(ms, g, Last(Homes(ms), g, n) + 1)
  {
    if n > 0 && ms[n - 1].group != g { DownSkips(ms, g, n - 1); }
  }

  // Where the walk starts, and where it goes from member i.
  lemma DownFirst(ms: seq<Member>, g: string)
    ensures var i := Last(Homes(ms), g, |ms|);
      -1 <= i < |ms| && (i >= 0 ==> ms[i].group == g) && Down(ms, g, i + 1) == Down(ms, g, |ms|)
  {
    DownSkips(ms, g, |ms|);
  }

  lemma DownNext(ms: seq<Member>, g: string, i: int, r: seq<Member>)
    requires 0 <= i < |ms| && ms[i].group == g
    ensures var j := Last(Homes(ms), g, i);
      -1 <= j < i && (j >= 0 ==> ms[j].group == g) && r + [ms[i]] + Down(ms, g, j + 1) == r + Down(ms, g, i + 1)
  {
    hide Down;
    DownStep(ms, g, i);
    DownSkips(ms, g, i);
    assert r + ([ms[i]] + Down(ms, g, i)) == r + [ms[i]] + Down(ms, g, i);
  }

  lemma HeadLast(ids: seq<string>, homes: seq<string>, head: seq<int>, next: seq<int>, gi: int)
    requires Linked(ids, homes, head, next, |homes|) && 0 <= gi < |ids|
    ensures gi < |head| && head[gi] == Last(homes, ids[gi], |homes|)
  {}

  lemma NextLast(ids: seq<string>, homes: seq<string>, head: seq<int>, next: seq<int>, gi: int, mi: int)
    requires Linked(ids, homes, head, next, |homes|) && 0 <= gi < |ids| && 0 <= mi < |homes| && homes[mi] == ids[gi]
    ensures mi < |next| && next[mi] == Last(homes, homes[mi], mi)
  {}

  // Roles do not matter to the indexes.
  lemma SameKeys(ms: seq<Member>, ms': seq<Member>)
    requires |ms'| == |ms| && forall i :: 0 <= i < |ms| ==> ms'[i].group == ms[i].group && ms'[i].user == ms[i].user
    ensures MemberKeys(ms') == MemberKeys(ms) && Homes(ms') == Homes(ms)
  {}

  class Service {
    const h: string -> nat
    const h2: Pair -> nat
    const groupHash: array<int>
    const memberHash: array<int>
    var groups: seq<Group>
    var members: seq<Member>
    var head: seq<int>
    var next: seq<int>

    ghost predicate Valid()
      reads this, groupHash, memberHash
    {
      groupHash != memberHash && IndexOk(groups, members, groupHash[..], memberHash[..], head, next, h, h2)
    }

    // The server has room for 2048 groups and 16384 members, with tables of 4096 and 32768 slots.
    constructor (h: string -> nat, h2: Pair -> nat, maxGroups: nat, maxMembers: nat, groupSlots: nat, memberSlots: nat)
      requires maxGroups < groupSlots && maxMembers < memberSlots
      ensures Valid() && groups == [] && members == [] && |head| == maxGroups && |next| == maxMembers
      ensures fresh(groupHash) && fresh(memberHash)
    {
      this.h, this.h2 := h, h2;
      var gt, mt := new int[groupSlots](_ => -1), new int[memberSlots](_ => -1);
      groupHash, memberHash := gt, mt;
      groups, members, head, next := [], [], seq(maxGroups, _ => -1), seq(maxMembers, _ => -1);
      new;
      NoneIndexed(gt[..], GroupKeys([]), h);
      NoneIndexed(mt[..], MemberKeys([]), h2);
    }

    method GroupFind(gid: string) returns (gi: int)
      requires Indexed(groupHash[..], GroupKeys(groups), h, |groups|)
      ensures -1 <= gi < |groups| && (gi == -1 <==> gid !in GroupKeys(groups)) && (gi >= 0 ==> groups[gi].id == gid)
    {
      hide Indexed, Table, Absent, FirstEmpty, Slots;
      IndexedFacts(groupHash[..], GroupKeys(groups), h, |groups|);
      var i := Locate(groupHash, GroupKeys(groups), h, gid);
      Found(groupHash[..], GroupKeys(groups), h, gid, i);
      gi := if groupHash[i] < 0 then -1 else groupHash[i];
    }

    method MemberFind(gid: string, uid: string) returns (mi: int)
      requires Indexed(memberHash[..], MemberKeys(members), h2, |members|)
      ensures -1 <= mi < |members| && (mi == -1 <==> !Listed(members, gid, uid))
      ensures mi >= 0 ==> members[mi].group == gid && members[mi].user == uid
    {
      hide Indexed, Table, Absent, FirstEmpty, Slots;
      IndexedFacts(memberHash[..], MemberKeys(members), h2, |members|);
      var i := Locate(memberHash, MemberKeys(members), h2, (gid, uid));
      Found(memberHash[..], MemberKeys(members), h2, (gid, uid), i);
      mi := if memberHash[i] < 0 then -1 else memberHash[i];
    }

    method IsMember(gid: string, uid: string) returns (yes: bool)
      requires Indexed(memberHash[..], MemberKeys(members), h2, |members|)
      ensures yes <==> gid != "" && uid != "" && Listed(members, gid, uid)
    {
      hide Indexed, Listed;
      if gid == "" || uid == "" { return false; }
      var mi := MemberFind(gid, uid);
      yes := mi >= 0;
    }

    // Refills the member hash and the chains from the member array.
    method Rebuild()
      requires groupHash != memberHash && |groups| <= |head| < groupHash.Length
      requires |members| <= |next| < memberHash.Length
      requires DistinctIds(groups) && NoRepeat(members) && Indexed(groupHash[..], GroupKeys(groups), h, |groups|)
      modifies this`head, this`next, memberHash
      ensures Valid() && |head| == old(|head|) && |next| == old(|next|)
    {
      hide Indexed, Linked, NoRepeat, DistinctIds, Table;
      for i := 0 to memberHash.Length
        invariant forall k :: 0 <= k < i ==> memberHash[k] == -1
        invariant groupHash[..] == old(groupHash[..]) && head == old(head) && next == old(next)
      {
        memberHash[i] := -1;
      }
      var hd, n := head, |groups|;
      head := seq(|hd|, i requires 0 <= i < |hd| => if i < n then -1 else hd[i]);
      NoneIndexed(memberHash[..], MemberKeys(members), h2);
      NoChains(GroupKeys(groups), Homes(members), head, next);
      for mi := 0 to |members|
        invariant |head| == old(|head|) && |next| == old(|next|) && groupHash[..] == old(groupHash[..])
        invariant Indexed(memberHash[..], MemberKeys(members), h2, mi)
        invariant Linked(GroupKeys(groups), Homes(members), head, next, mi)
      {
        IndexMember(mi);
        var gi := GroupFind(members[mi].group);
        IdsDistinct(groups);
        LinkChain(GroupKeys(groups), Homes(members), head, next, mi, gi);
        next := next[mi := if gi >= 0 then head[gi] else -1];
        if gi >= 0 { head := head[gi := mi]; }
      }
    }

    // Enters member mi in the hash, when exactly the earlier ones are in it.
    method IndexMember(mi: int)
      requires 0 <= mi < |members| && Indexed(memberHash[..], MemberKeys(members), h2, mi) && NoRepeat(members)
      modifies memberHash
      ensures Indexed(memberHash[..], MemberKeys(members), h2, mi + 1)
    {
      hide Indexed, NoRepeat, Table, Slots, FirstEmpty;
      ghost var t := memberHash[..];
      IndexedFacts(t, MemberKeys(members), h2, mi);
      DistinctKeys(members, mi);
      ghost var p := Insert(memberHash, MemberKeys(members), h2, mi);
      InsertIndexed(t, MemberKeys(members), h2, mi, p);
    }

    method AddMember(gid: string, uid: string, role: int) returns (rc: int)
      requires Valid()
      modifies this`groups, this`members, this`head, this`next, memberHash
      ensures Valid() && |head| == old(|head|) && |next| == old(|next|)
      ensures |old(members)| >= |next| ==> rc == -1
      ensures |old(members)| < |next| ==> rc == 0
      ensures |old(members)| >= |next| || Listed(old(members), gid, uid) ==>
        members == old(members) && groups == old(groups)
      ensures |old(members)| < |next| && !Listed(old(members), gid, uid) ==>
        members == old(members) + [Member(gid, uid, role)] && Counted(old(groups), groups, gid)
    {
      hide Indexed, Linked, NoRepeat, DistinctIds, Table, Slots;
      if |members| >= |next| { return -1; }
      var mi := MemberFind(gid, uid);
      if mi >= 0 { return 0; }
      var gi := GroupFind(gid);
      mi := |members|;
      ghost var ms := members;
      var m := Member(gid, uid, role);
      GrowIndexed(memberHash[..], MemberKeys(ms), h2, MemberKeys(ms + [m])) by { PushDistinct(ms, m); }
      PushDistinct(ms, m);
      GrowChain(GroupKeys(groups), Homes(ms), head, next, gid);
      members := members + [m];
      IndexMember(mi);
      IdsDistinct(groups);
      LinkChain(GroupKeys(groups), Homes(members), head, next, mi, gi);
      next := next[mi := if gi >= 0 then head[gi] else -1];
      if gi >= 0 {
        head := head[gi := mi];
        ghost var gs := groups;
        groups := groups[gi := groups[gi].(count := groups[gi].count + 1)];
        SameIds(gs, groups);
      }
      rc := 0;
    }

    // A new live group with its owner, if there is room for both.
    method NewGroup(gid: string, owner: string) returns (rc: int)
      requires Valid() && gid !in GroupKeys(groups) && gid !in Homes(members)
      modifies this`groups, this`members, this`head, this`next, groupHash, memberHash
      ensures Valid() && |head| == old(|head|) && |next| == old(|next|)
      ensures rc == if |old(groups)| < |head| then 0 else -1
      ensures rc == -1 ==> groups == old(groups) && members == old(members)
      ensures rc == 0 && |old(members)| < |next| ==>
        groups == old(groups) + [Group(gid, owner, 1, 0)] && members == old(members) + [Member(gid, owner, OWNER)]
      ensures rc == 0 && |old(members)| >= |next| ==>
        groups == old(groups) + [Group(gid, owner, 0, 0)] && members == old(members)
    {
      hide Indexed, Linked, NoRepeat, DistinctIds, Table, Slots, Listed;
      if |groups| >= |head| { return -1; }
      ghost var gs, ms := groups, members;
      StartGroup(gid, owner);
      rc := AddMember(gid, owner, OWNER);
      NotHome(ms, gid, owner);
      if |ms| < |next| {
        CountedLast(gs, groups, gid, owner);
        assert groups == gs + [Group(gid, owner, 1, 0)];
      }
      rc := 0;
    }

    // Appends an empty group and indexes it.
    method StartGroup(gid: string, owner: string)
      requires Valid() && |groups| < |head| && gid !in GroupKeys(groups) && gid !in Homes(members)
      modifies this`groups, this`head, groupHash
      ensures Valid() && |head| == old(|head|) && groups == old(groups) + [Group(gid, owner, 0, 0)]
    {
      hide Indexed, Linked, NoRepeat, DistinctIds, Table, Slots, FirstEmpty;
      var gi := |groups|;
      ghost var gs, gt := groups, groupHash[..];
      PushId(gs, Group(gid, owner, 0, 0));
      GrowIndexed(gt, GroupKeys(gs), h, GroupKeys(gs + [Group(gid, owner, 0, 0)]));
      NewGroupChain(GroupKeys(gs), Homes(members), head, next, gid);
      groups := groups + [Group(gid, owner, 0, 0)];
      head := head[gi := -1];
      IndexedFacts(gt, GroupKeys(groups), h, gi);
      ghost var p := Insert(groupHash, GroupKeys(groups), h, gi);
      InsertIndexed(gt, GroupKeys(groups), h, gi, p);
    }

    // Swap-remove: the last member takes the place of the one that leaves, then everything is indexed anew.
    method RemoveMember(gid: string, uid: string) returns (rc: int, ghost mi: int)
      requires Valid()
      modifies this`groups, this`members, this`head, this`next, memberHash
      ensures Valid() && |head| == old(|head|) && |next| == old(|next|)
      ensures rc == (if Listed(old(members), gid, uid) then 0 else -1)
      ensures rc == -1 ==> members == old(members) && groups == old(groups)
      ensures rc == 0 ==> 0 <= mi < |old(members)| && old(members)[mi].group == gid && old(members)[mi].user == uid
      ensures rc == 0 ==> members == SwapRemove(old(members), mi) && Discounted(old(groups), groups, gid)
    {
      hide Indexed, Linked, NoRepeat, DistinctIds, Table, Slots;
      var i := MemberFind(gid, uid);
      mi := i;
      if i < 0 { return -1, i; }
      SwapRemoveKeeps(members, i);
      IdsDistinct(groups);
      members := members[i := members[|members| - 1]][..|members| - 1];
      var gi := GroupFind(gid);
      if gi >= 0 && groups[gi].count > 0 {
        ghost var gs := groups;
        groups := groups[gi := groups[gi].(count := groups[gi].count - 1)];
        SameIds(gs, groups);
      }
      Rebuild();
      rc := 0;
    }

    // Visits the members of a group: along its chain, or by a scan when the group itself is unknown here.
    method Roster(gid: string) returns (r: seq<Member>)
      requires Valid()
      ensures |r| == Count(members, gid) && forall m :: m in r <==> m in members && m.group == gid
    {
      hide Indexed, NoRepeat, DistinctIds, Linked, Count;
      var gi := GroupFind(gid);
      if gi >= 0 { r := Walk(gi); } else { r := Scan(gid); }
    }

    method Walk(gi: int) returns (r: seq<Member>)
      requires 0 <= gi < |groups| && Linked(GroupKeys(groups), Homes(members), head, next, |members|)
      ensures |r| == Count(members, groups[gi].id)
      ensures forall m :: m in r <==> m in members && m.group == groups[gi].id
    {
      hide Linked, Count, Down, Last;
      ghost var gid, all := groups[gi].id, Down(members, groups[gi].id, |members|);
      DownAll(members, gid);
      r := [];
      HeadLast(GroupKeys(groups), Homes(members), head, next, gi);
      var mi := head[gi];
      DownFirst(members, gid);
      while mi >= 0
        invariant -1 <= mi < |members| && (mi >= 0 ==> members[mi].group == gid)
        invariant r + Down(members, gid, mi + 1) == all
      {
        NextLast(GroupKeys(groups), Homes(members), head, next, gi, mi);
        DownNext(members, gid, mi, r);
        r := r + [members[mi]];
        mi := next[mi];
      }
      DownNone(members, gid);
    }

    method Scan(gid: string) returns (r: seq<Member>)
      ensures |r| == Count(members, gid) && forall m :: m in r <==> m in members && m.group == gid
    {
      hide Count;
      r := [];
      assert Count(members[..0], gid) == 0 by { CountNone(members[..0], gid); }
      for i := 0 to |members|
        invariant |r| == Count(members[..i], gid) && forall m :: m in r <==> m in members[..i] && m.group == gid
      {
        CountPush(members[..i], members[i], gid);
        assert members[..i + 1] == members[..i] + [members[i]];
        if members[i].group == gid { r := r + [members[i]]; }
      }
      assert members[..|members|] == members;
    }

    method MemberRole(gid: string, uid: string) returns (role: int)
      requires Valid()
      ensures gid == "" || uid == "" || !Listed(members, gid, uid) ==> role == -1
      ensures gid != "" && uid != "" && Listed(members, gid, uid) ==> Member(gid, uid, role) in members
    {
      hide Indexed, Linked, NoRepeat, DistinctIds, Table, Slots;
      if gid == "" || uid == "" { return -1; }
      var mi := MemberFind(gid, uid);
      role := if mi >= 0 then members[mi].role else -1;
    }
  }

  // The counter of the group with this id, if there is one, went up by one; nothing else changed.
  ghost predicate Counted(gs: seq<Group>, gs': seq<Group>, g: string) {
    && |gs'| == |gs|
    && forall i :: 0 <= i < |gs| ==> gs'[i] == if gs[i].id == g then gs[i].(count := gs[i].count + 1) else gs[i]
  }

  ghost predicate Discounted(gs: seq<Group>, gs': seq<Group>, g: string) {
    && |gs'| == |gs|
    && forall i :: 0 <= i < |gs| ==>
      gs'[i] == if gs[i].id == g && gs[i].count > 0 then gs[i].(count := gs[i].count - 1) else gs[i]
  }
}
