// What a run of group operations keeps: who owns a group, who belongs to it, and the counters.
module GroupRules {

  const OWNER := 100
  const ADMIN := 60
  const MEMBER := 20

  datatype Member = Member(group: string, user: string, role: int)
  datatype Group = Group(id: string, owner: string, count: int, status: int)

  // ----- member lists -----

  ghost predicate Listed(ms: seq<Member>, g: string, u: string) {
    exists j :: 0 <= j < |ms| && ms[j].group == g && ms[j].user == u
  }

  // Nobody is in a group twice.
  ghost predicate NoRepeat(ms: seq<Member>) {
    forall i, j :: 0 <= i < j < |ms| ==> ms[i].group != ms[j].group || ms[i].user != ms[j].user
  }

  function Count(ms: seq<Member>, g: string): (n: int)
    ensures 0 <= n <= |ms|
  { if ms == [] then 0 else Count(ms[..|ms| - 1], g) + if ms[|ms| - 1].group == g then 1 else 0 }

  function SwapRemove(ms: seq<Member>, i: int): (r: seq<Member>)
    requires 0 <= i < |ms|
    ensures |r| == |ms| - 1
  { ms[i := ms[|ms| - 1]][..|ms| - 1] }

  function Without(ms: seq<Member>, g: string): (r: seq<Member>)
    ensures |r| <= |ms|
  {
    if ms == [] then [] else
      var r, m := Without(ms[..|ms| - 1], g), ms[|ms| - 1]; if m.group == g then r else r + [m]
  }

  lemma {:induction false} CountUpdate(ms: seq<Member>, i: int, m: Member, g: string)
    requires 0 <= i < |ms|
    ensures Count(ms[i := m], g) == Count(ms, g) - (if ms[i].group == g then 1 else 0) + if m.group == g then 1 else 0
  {
    var n := |ms| - 1;
    if i == n {
      assert ms[i := m][..n] == ms[..n];
    } else {
      CountUpdate(ms[..n], i, m, g);
      assert ms[i := m][..n] == ms[..n][i := m];
    }
  }

  lemma {:induction false} CountNone(ms: seq<Member>, g: string)
    ensures Count(ms, g) == 0 <==> forall j :: 0 <= j < |ms| ==> ms[j].group != g
  {
    if ms != [] { CountNone(ms[..|ms| - 1], g); }
  }

  lemma CountPush(ms: seq<Member>, m: Member, g: string)
    ensures Count(ms + [m], g) == Count(ms, g) + if m.group == g then 1 else 0
  {
    assert (ms + [m])[..|ms|] == ms;
  }

  lemma CountSwapRemove(ms: seq<Member>, i: int, g: string)
    requires 0 <= i < |ms|
    ensures Count(SwapRemove(ms, i), g) == Count(ms, g) - if ms[i].group == g then 1 else 0
  {
    var n := |ms| - 1;
    CountUpdate(ms, i, ms[n], g);
  }

  lemma {:induction false} CountWithout(ms: seq<Member>, g: string, g': string)
    ensures Count(Without(ms, g), g') == if g == g' then 0 else Count(ms, g')
  {
    if ms != [] {
      var n := |ms| - 1;
      CountWithout(ms[..n], g, g');
      if ms[n].group != g { CountPush(Without(ms[..n], g), ms[n], g'); }
    }
  }

  // Removal keeps everybody else, and nobody is listed twice.
  lemma SwapRemoveKeeps(ms: seq<Member>, i: int)
    requires 0 <= i < |ms| && NoRepeat(ms)
    ensures NoRepeat(SwapRemove(ms, i))
    ensures forall m :: m in SwapRemove(ms, i) <==> m in ms && m != ms[i]
  {
    var n, r := |ms| - 1, SwapRemove(ms, i);
    assert forall j :: 0 <= j < n ==> r[j] == ms[if j == i then n else j];
    forall m | m in ms && m != ms[i]
      ensures m in r
    {
      var j :| 0 <= j <= n && ms[j] == m;
      assert r[if j == n then i else j] == m;
    }
    forall m | m in r ensures m in ms && m != ms[i] { var j :| 0 <= j < n && r[j] == m; }
  }

  lemma {:induction false} WithoutKeeps(ms: seq<Member>, g: string)
    requires NoRepeat(ms)
    ensures NoRepeat(Without(ms, g)) && forall m :: m in Without(ms, g) <==> m in ms && m.group != g
  {
    if ms != [] {
      var n := |ms| - 1;
      WithoutKeeps(ms[..n], g);
      assert ms == ms[..n] + [ms[n]];
      var r := Without(ms[..n], g);
      forall j | 0 <= j < |r| ensures r[j].group != ms[n].group || r[j].user != ms[n].user { assert r[j] in ms[..n]; }
    }
  }

  // ----- ownership -----

  // The owner is in the group as its only owner-level member.
  ghost predicate Owned(ms: seq<Member>, g: string, o: string) {
    Member(g, o, 100) in ms && forall m :: m in ms && m.group == g && m.role == 100 ==> m.user == o
  }

  // The counter is exact, and a dismissed group has no members.
  ghost predicate GroupTallied(g: Group, ms: seq<Member>) {
    g.count == Count(ms, g.id) && (g.status != 0 ==> g.count == 0)
  }

  ghost predicate GroupOwned(g: Group, ms: seq<Member>) { g.status == 0 ==> Owned(ms, g.id, g.owner) }

  ghost predicate Tallied(gs: seq<Group>, ms: seq<Member>) { forall i :: 0 <= i < |gs| ==> GroupTallied(gs[i], ms) }

  // Every live group is owned.
  ghost predicate AllOwned(gs: seq<Group>, ms: seq<Member>) { forall i :: 0 <= i < |gs| ==> GroupOwned(gs[i], ms) }

  // No group loses its owner, whatever the state of the others.
  ghost predicate KeepsOwners(gs: seq<Group>, ms: seq<Member>, gs': seq<Group>, ms': seq<Member>) {
    |gs| <= |gs'| && forall i :: 0 <= i < |gs| && GroupOwned(gs[i], ms) ==> GroupOwned(gs'[i], ms')
  }

  lemma OwnersTrans(gs: seq<Group>, ms: seq<Member>, gs1: seq<Group>, ms1: seq<Member>, gs2: seq<Group>,
          ms2: seq<Member>)
    requires KeepsOwners(gs, ms, gs1, ms1) && KeepsOwners(gs1, ms1, gs2, ms2)
    ensures KeepsOwners(gs, ms, gs2, ms2)
  {}

  ghost predicate DistinctIds(gs: seq<Group>) { forall i, j :: 0 <= i < j < |gs| ==> gs[i].id != gs[j].id }

  // Dismissal is for good: group i keeps its id, and once dismissed it never changes again.
  ghost predicate Evolves(gs: seq<Group>, gs': seq<Group>) {
    |gs| <= |gs'| && forall i :: 0 <= i < |gs| ==> gs'[i].id == gs[i].id && (gs[i].status != 0 ==> gs'[i] == gs[i])
  }

  lemma AddSound(gs: seq<Group>, ms: seq<Member>, i: int, u: string, role: int)
    requires Tallied(gs, ms) && DistinctIds(gs) && 0 <= i < |gs| && gs[i].status == 0 && role != OWNER
    ensures var gs', ms' := gs[i := gs[i].(count := gs[i].count + 1)], ms + [Member(gs[i].id, u, role)];
      Tallied(gs', ms') && KeepsOwners(gs, ms, gs', ms')
  {
    var m := Member(gs[i].id, u, role);
    var gs' := gs[i := gs[i].(count := gs[i].count + 1)];
    forall j | 0 <= j < |gs| ensures GroupTallied(gs'[j], ms + [m]) {
      assert GroupTallied(gs[j], ms);
      CountPush(ms, m, gs[j].id);
    }
  }

  lemma CreateTallied(gs: seq<Group>, ms: seq<Member>, g: string, o: string)
    requires Tallied(gs, ms) && (forall i :: 0 <= i < |gs| ==> gs[i].id != g) && Count(ms, g) == 0
    ensures Tallied(gs + [Group(g, o, 1, 0)], ms + [Member(g, o, OWNER)])
  {
    hide Count;
    var gs', m := gs + [Group(g, o, 1, 0)], Member(g, o, OWNER);
    forall j | 0 <= j < |gs'| ensures GroupTallied(gs'[j], ms + [m]) {
      CountPush(ms, m, gs'[j].id);
      if j < |gs| { assert GroupTallied(gs[j], ms); }
    }
  }

  lemma CreateSound(gs: seq<Group>, ms: seq<Member>, g: string, o: string)
    requires Tallied(gs, ms) && (forall i :: 0 <= i < |gs| ==> gs[i].id != g) && Count(ms, g) == 0
    ensures var gs', ms' := gs + [Group(g, o, 1, 0)], ms + [Member(g, o, OWNER)];
      Tallied(gs', ms') && KeepsOwners(gs, ms, gs', ms') && GroupOwned(gs'[|gs|], ms')
  {
    var m := Member(g, o, OWNER);
    CountNone(ms, g);
    var gs', ms' := gs + [Group(g, o, 1, 0)], ms + [m];
    CreateTallied(gs, ms, g, o);
    assert ms'[|ms|] == m;
    forall j | 0 <= j < |gs| && GroupOwned(gs[j], ms) ensures GroupOwned(gs'[j], ms') { assert gs'[j] == gs[j]; }
  }

  // With no room for the owner the new group is live but ownerless; all else is in order.
  lemma CreateWithoutRoom(gs: seq<Group>, ms: seq<Member>, g: string, o: string)
    requires Tallied(gs, ms) && Count(ms, g) == 0
    ensures var gs' := gs + [Group(g, o, 0, 0)];
      Tallied(gs', ms) && KeepsOwners(gs, ms, gs', ms) && !GroupOwned(gs'[|gs|], ms)
  {
    CountNone(ms, g);
    var gs' := gs + [Group(g, o, 0, 0)];
    assert forall j :: 0 <= j < |gs| ==> gs'[j] == gs[j];
  }

  lemma RemoveSound(gs: seq<Group>, ms: seq<Member>, i: int, mi: int)
    requires Tallied(gs, ms) && DistinctIds(gs) && NoRepeat(ms) && 0 <= i < |gs| && gs[i].status == 0
    requires 0 <= mi < |ms| && ms[mi].group == gs[i].id && ms[mi].user != gs[i].owner
    ensures gs[i].count > 0
    ensures var gs', ms' := gs[i := gs[i].(count := gs[i].count - 1)], SwapRemove(ms, mi);
      Tallied(gs', ms') && KeepsOwners(gs, ms, gs', ms')
  {
    var gs', ms' := gs[i := gs[i].(count := gs[i].count - 1)], SwapRemove(ms, mi);
    SwapRemoveKeeps(ms, mi);
    CountNone(ms, gs[i].id);
    assert GroupTallied(gs[i], ms);
    forall j | 0 <= j < |gs| ensures GroupTallied(gs'[j], ms') {
      assert GroupTallied(gs[j], ms);
      CountSwapRemove(ms, mi, gs[j].id);
      assert ms[mi] in ms;
    }
  }

  lemma DismissSound(gs: seq<Group>, ms: seq<Member>, i: int)
    requires Tallied(gs, ms) && DistinctIds(gs) && NoRepeat(ms) && 0 <= i < |gs|
    ensures var gs', ms' := gs[i := gs[i].(count := 0, status := 2)], Without(ms, gs[i].id);
      Tallied(gs', ms') && KeepsOwners(gs, ms, gs', ms')
  {
    var gs', ms' := gs[i := gs[i].(count := 0, status := 2)], Without(ms, gs[i].id);
    WithoutKeeps(ms, gs[i].id);
    forall j | 0 <= j < |gs| ensures GroupTallied(gs'[j], ms') {
      assert GroupTallied(gs[j], ms);
      CountWithout(ms, gs[i].id, gs[j].id);
    }
  }

  function Retitle(ms: seq<Member>, a: int, b: int): (r: seq<Member>)
    requires 0 <= a < |ms| && 0 <= b < |ms|
    ensures |r| == |ms|
  { ms[a := ms[a].(role := MEMBER)][b := ms[b].(role := OWNER)] }

  lemma TransferSound(gs: seq<Group>, ms: seq<Member>, i: int, a: int, b: int)
    requires Tallied(gs, ms) && DistinctIds(gs) && NoRepeat(ms) && 0 <= i < |gs| && gs[i].status == 0
    requires 0 <= a < |ms| && 0 <= b < |ms| && ms[a].group == ms[b].group == gs[i].id && ms[a].user == gs[i].owner
    ensures NoRepeat(Retitle(ms, a, b))
    ensures var gs', ms' := gs[i := gs[i].(owner := ms[b].user)], Retitle(ms, a, b);
      Tallied(gs', ms') && KeepsOwners(gs, ms, gs', ms')
  {
    var gs', ms' := gs[i := gs[i].(owner := ms[b].user)], Retitle(ms, a, b);
    forall j | 0 <= j < |gs| ensures GroupTallied(gs'[j], ms') {
      assert GroupTallied(gs[j], ms);
      CountUpdate(ms, a, ms[a].(role := MEMBER), gs[j].id);
      CountUpdate(ms[a := ms[a].(role := MEMBER)], b, ms[b].(role := OWNER), gs[j].id);
    }
    forall j | 0 <= j < |gs| && GroupOwned(gs[j], ms) ensures GroupOwned(gs'[j], ms') {
      if gs[j].status == 0 { TransferOwned(gs, ms, i, a, b, j); }
    }
  }

  lemma TransferOwned(gs: seq<Group>, ms: seq<Member>, i: int, a: int, b: int, j: int)
    requires DistinctIds(gs) && NoRepeat(ms) && 0 <= i < |gs| && 0 <= j < |gs| && Owned(ms, gs[j].id, gs[j].owner)
    requires 0 <= a < |ms| && 0 <= b < |ms| && ms[a].group == ms[b].group == gs[i].id && ms[a].user == gs[i].owner
    ensures Owned(Retitle(ms, a, b), gs[j].id, if j == i then ms[b].user else gs[j].owner)
  {
    var ms' := Retitle(ms, a, b);
    if j == i {
      assert ms'[b] == Member(gs[i].id, ms[b].user, OWNER);
      forall m | m in ms' && m.group == gs[i].id && m.role == OWNER ensures m.user == ms[b].user {
        var x :| 0 <= x < |ms'| && ms'[x] == m;
        assert ms[x] in ms;
      }
    } else {
      var o := Member(gs[j].id, gs[j].owner, OWNER);
      var x :| 0 <= x < |ms| && ms[x] == o;
      assert ms'[x] == o;
      forall m | m in ms' && m.group == gs[j].id && m.role == OWNER ensures m.user == gs[j].owner {
        var y :| 0 <= y < |ms'| && ms'[y] == m;
        assert ms[y] in ms && ms[y] == m;
      }
    }
  }
}
