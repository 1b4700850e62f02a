// The gateway's connection table: sessions, the fd map, the user chains and the stack of free slots.
module Gateway {
  import opened Basics

  datatype Client = Client(fd: int, online: bool, upgraded: bool, user: string, platform: int)

  const OFFLINE := Client(-1, false, false, "", 0)

  // ----- file descriptors -----

  // The map is exact below its size, and no two sessions share a descriptor.
  ghost predicate FdView(cs: seq<Client>, fdMap: seq<int>) {
    && (forall i :: 0 <= i < |cs| ==>
      if cs[i].online then cs[i].fd >= 0 else cs[i].fd == -1 && !cs[i].upgraded && cs[i].user == "")
    && (forall i :: 0 <= i < |cs| && cs[i].user != "" ==> cs[i].upgraded)
    && (forall i, j :: 0 <= i < j < |cs| && cs[i].online && cs[j].online ==> cs[i].fd != cs[j].fd)
    && (forall i :: 0 <= i < |cs| && cs[i].online && cs[i].fd < |fdMap| ==> fdMap[cs[i].fd] == i)
    && (forall f :: 0 <= f < |fdMap| && fdMap[f] != -1 ==>
      0 <= fdMap[f] < |cs| && cs[fdMap[f]].online && cs[fdMap[f]].fd == f)
  }

  ghost predicate FreshFd(cs: seq<Client>, fd: int) { forall i :: 0 <= i < |cs| && cs[i].online ==> cs[i].fd != fd }

  function SetFd(fdMap: seq<int>, fd: int, idx: int): (r: seq<int>)
    ensures |r| == |fdMap|
  { if 0 <= fd < |fdMap| then fdMap[fd := idx] else fdMap }

  lemma FdAdd(cs: seq<Client>, fdMap: seq<int>, i: int, fd: int)
    requires FdView(cs, fdMap) && 0 <= i < |cs| && !cs[i].online && fd >= 0 && FreshFd(cs, fd)
    ensures FdView(cs[i := Client(fd, true, false, "", 0)], SetFd(fdMap, fd, i))
  {}

  lemma FdGrow(cs: seq<Client>, fdMap: seq<int>)
    requires FdView(cs, fdMap)
    ensures FdView(cs + [OFFLINE], fdMap)
  {}

  lemma FdDrop(cs: seq<Client>, fdMap: seq<int>, i: int, p: int)
    requires FdView(cs, fdMap) && 0 <= i < |cs| && cs[i].online
    ensures FdView(cs[i := OFFLINE.(platform := p)], SetFd(fdMap, cs[i].fd, -1))
  {}

  lemma FdUpgrade(cs: seq<Client>, fdMap: seq<int>, i: int, u: string, p: int)
    requires FdView(cs, fdMap) && 0 <= i < |cs| && cs[i].online
    ensures FdView(cs[i := cs[i].(upgraded := true, user := u, platform := p)], fdMap)
  {}

  // ----- free slots -----

  function Online(cs: seq<Client>): (n: int)
    ensures 0 <= n <= |cs|
  { if cs == [] then 0 else Online(cs[..|cs| - 1]) + if cs[|cs| - 1].online then 1 else 0 }

  lemma {:induction false} OnlineUpdate(cs: seq<Client>, i: int, c: Client)
    requires 0 <= i < |cs|
    ensures Online(cs[i := c]) == Online(cs) - (if cs[i].online then 1 else 0) + if c.online then 1 else 0
  {
    var n := |cs| - 1;
    if i == n {
      assert cs[i := c][..n] == cs[..n];
    } else {
      OnlineUpdate(cs[..n], i, c);
      assert cs[i := c][..n] == cs[..n][i := c];
    }
  }

  ghost predicate FreeView(cs: seq<Client>, free: seq<int>, online: int) {
    && online == Online(cs) && |free| == |cs| - online
    && (forall i, j :: 0 <= i < j < |free| ==> free[i] != free[j])
    && (forall x :: x in free <==> 0 <= x < |cs| && !cs[x].online)
  }

  lemma FreePush(cs: seq<Client>, free: seq<int>, online: int, i: int, c: Client)
    requires FreeView(cs, free, online) && 0 <= i < |cs| && cs[i].online && !c.online
    ensures FreeView(cs[i := c], free + [i], online - 1) && online > 0
  {
    OnlineUpdate(cs, i, c);
  }

  lemma FreePop(cs: seq<Client>, free: seq<int>, online: int, c: Client)
    requires FreeView(cs, free, online) && |free| > 0 && c.online
    ensures var i := free[|free| - 1];
      0 <= i < |cs| && !cs[i].online && FreeView(cs[i := c], free[..|free| - 1], online + 1)
  {
    var n := |free| - 1;
    var i := free[n];
    assert i in free;
    OnlineUpdate(cs, i, c);
    forall x | x in free && x != i
      ensures x in free[..n]
    {
      var k :| 0 <= k < |free| && free[k] == x;
      assert free[..n][k] == x;
    }
    forall x | x in free[..n]
      ensures x in free && x != i
    {
      var k :| 0 <= k < n && free[..n][k] == x;
      assert free[k] == x;
    }
  }

  lemma OnlinePush(cs: seq<Client>, c: Client)
    ensures Online(cs + [c]) == Online(cs) + if c.online then 1 else 0
  {
    assert (cs + [c])[..|cs|] == cs;
  }

  // A new slot enters as a free one and is taken at once.
  lemma FreeGrow(cs: seq<Client>, free: seq<int>, online: int)
    requires FreeView(cs, free, online)
    ensures FreeView(cs + [OFFLINE], free + [|cs|], online)
  {
    hide Online;
    OnlinePush(cs, OFFLINE);
    forall i | 0 <= i < |free| ensures free[i] < |cs| { assert free[i] in free; }
    forall x
      ensures x in free + [|cs|] <==> 0 <= x < |cs| + 1 && !(cs + [OFFLINE])[x].online
    {
      assert x in free + [|cs|] <==> x in free || x == |cs|;
    }
  }

  lemma FreeSame(cs: seq<Client>, free: seq<int>, online: int, i: int, c: Client)
    requires FreeView(cs, free, online) && 0 <= i < |cs| && cs[i].online && c.online
    ensures FreeView(cs[i := c], free, online)
  {
    OnlineUpdate(cs, i, c);
  }

  // ----- user chains -----

  function Bucket(h: string -> nat, n: int, u: string): (b: int)
    requires n > 0
    ensures 0 <= b < n
  { h(u) % n }

  ghost predicate InBucket(c: Client, h: string -> nat, n: int, b: int)
    requires n > 0
  { c.user != "" && Bucket(h, n, c.user) == b }

  ghost predicate Linked(head: int, next: seq<int>, ch: seq<int>) {
    && (forall i :: 0 <= i < |ch| ==> 0 <= ch[i] < |next|)
    && (forall i, j :: 0 <= i < j < |ch| ==> ch[i] != ch[j])
    && head == (if ch == [] then -1 else ch[0])
    && (forall i :: 0 <= i < |ch| - 1 ==> next[ch[i]] == ch[i + 1])
    && (ch != [] ==> next[ch[|ch| - 1]] == -1)
  }

  ghost predicate Holds(cs: seq<Client>, h: string -> nat, n: int, b: int, ch: seq<int>)
    requires n > 0
  { forall x :: x in ch <==> 0 <= x < |cs| && InBucket(cs[x], h, n, b) }

  // Every bucket's chain is acyclic and holds exactly the sessions of its users, each once.
  ghost predicate ChainView(cs: seq<Client>, heads: seq<int>, next: seq<int>, chains: seq<seq<int>>, h: string -> nat) {
    && |heads| == |chains| > 0 && |next| >= |cs|
    && forall b :: 0 <= b < |heads| ==> Linked(heads[b], next, chains[b]) && Holds(cs, h, |heads|, b, chains[b])
  }

  lemma LinkedFrame(head: int, next: seq<int>, next': seq<int>, ch: seq<int>)
    requires Linked(head, next, ch) && |next'| == |next| && forall i :: 0 <= i < |ch| ==> next'[ch[i]] == next[ch[i]]
    ensures Linked(head, next', ch)
  {}

  lemma LinkedPush(head: int, next: seq<int>, ch: seq<int>, i: int)
    requires Linked(head, next, ch) && 0 <= i < |next| && i !in ch
    ensures Linked(i, next[i := head], [i] + ch)
  {
    forall k | 0 <= k < |ch| ensures ch[k] != i {}
  }

  // The links after the node at position p is spliced out.
  function NextCut(next: seq<int>, ch: seq<int>, p: int): (r: seq<int>)
    requires 0 <= p < |ch| && forall i :: 0 <= i < |ch| ==> 0 <= ch[i] < |next|
    ensures |r| == |next|
  { (if p == 0 then next else next[ch[p - 1] := next[ch[p]]])[ch[p] := -1] }

  lemma LinkedCut(head: int, next: seq<int>, ch: seq<int>, p: int)
    requires Linked(head, next, ch) && 0 <= p < |ch|
    ensures Linked(if p == 0 then next[ch[0]] else head, NextCut(next, ch, p), Cut(ch, p))
  {}

  lemma CutMembers(ch: seq<int>, p: int)
    requires 0 <= p < |ch| && forall i, j :: 0 <= i < j < |ch| ==> ch[i] != ch[j]
    ensures forall x :: x in Cut(ch, p) <==> x in ch && x != ch[p]
  {
    var ch' := Cut(ch, p);
    forall x | x in ch && x != ch[p]
      ensures x in ch'
    {
      var k :| 0 <= k < |ch| && ch[k] == x;
      assert ch'[if k < p then k else k - 1] == x;
    }
  }

  // A session that was in no chain joins its user's.
  lemma ChainAdd(cs: seq<Client>, heads: seq<int>, next: seq<int>, chains: seq<seq<int>>, h: string -> nat, i: int,
          c: Client)
    requires ChainView(cs, heads, next, chains, h) && 0 <= i < |cs| && cs[i].user == "" && c.user != ""
    ensures var b := Bucket(h, |heads|, c.user);
      ChainView(cs[i := c], heads[b := i], next[i := heads[b]], chains[b := [i] + chains[b]], h)
  {
    var b := Bucket(h, |heads|, c.user);
    forall d | 0 <= d < |heads| && d != b
      ensures Linked(heads[d], next[i := heads[b]], chains[d]) && Holds(cs[i := c], h, |heads|, d, chains[d])
    {
      assert Linked(heads[d], next, chains[d]) && Holds(cs, h, |heads|, d, chains[d]);
      LinkedFrame(heads[d], next, next[i := heads[b]], chains[d]);
    }
    assert Linked(heads[b], next, chains[b]) && Holds(cs, h, |heads|, b, chains[b]);
    LinkedPush(heads[b], next, chains[b], i);
  }

  lemma ChainFacts(cs: seq<Client>, heads: seq<int>, next: seq<int>, chains: seq<seq<int>>, h: string -> nat, b: int)
    requires ChainView(cs, heads, next, chains, h) && 0 <= b < |heads|
    ensures Linked(heads[b], next, chains[b]) && Holds(cs, h, |heads|, b, chains[b])
    ensures forall i :: 0 <= i < |chains[b]| ==>
      0 <= chains[b][i] < |cs| <= |next| && InBucket(cs[chains[b][i]], h, |heads|, b)
  {
    forall i | 0 <= i < |chains[b]|
      ensures 0 <= chains[b][i] < |cs| && InBucket(cs[chains[b][i]], h, |heads|, b)
    {
      assert chains[b][i] in chains[b];
    }
  }

  // A session leaves its chain, which it sits in at position p.
  lemma ChainCut(cs: seq<Client>, heads: seq<int>, next: seq<int>, chains: seq<seq<int>>, h: string -> nat, b: int,
          p: int, c: Client)
    requires ChainView(cs, heads, next, chains, h) && 0 <= b < |heads| && 0 <= p < |chains[b]| && c.user == ""
    ensures 0 <= chains[b][p] < |cs| && forall i :: 0 <= i < |chains[b]| ==> 0 <= chains[b][i] < |next|
    ensures ChainView(cs[chains[b][p] := c], if p == 0 then heads[b := next[chains[b][0]]] else heads,
      NextCut(next, chains[b], p), chains[b := Cut(chains[b], p)], h)
  {
    hide Linked, Cut, NextCut;
    ChainFacts(cs, heads, next, chains, h, b);
    LinkedCut(heads[b], next, chains[b], p);
    HoldsCut(cs, h, |heads|, b, heads[b], next, chains[b], p, c);
    forall d | 0 <= d < |heads| && d != b
      ensures Linked(heads[d], NextCut(next, chains[b], p), chains[d])
      ensures Holds(cs[chains[b][p] := c], h, |heads|, d, chains[d])
    {
      OtherChain(cs, heads, next, chains, h, b, p, d, c);
    }
  }

  lemma HoldsCut(cs: seq<Client>, h: string -> nat, n: int, b: int, head: int, next: seq<int>, ch: seq<int>, p: int,
          c: Client)
    requires n > 0 && Holds(cs, h, n, b, ch) && Linked(head, next, ch) && 0 <= p < |ch| && 0 <= ch[p] < |cs|
    requires c.user == ""
    ensures Holds(cs[ch[p] := c], h, n, b, Cut(ch, p))
  {
    CutMembers(ch, p);
  }

  lemma OtherChain(cs: seq<Client>, heads: seq<int>, next: seq<int>, chains: seq<seq<int>>, h: string -> nat, b: int,
          p: int, d: int, c: Client)
    requires ChainView(cs, heads, next, chains, h) && 0 <= b < |heads| && 0 <= p < |chains[b]| && 0 <= d < |heads|
    requires d != b && c.user == ""
    requires forall i :: 0 <= i < |chains[b]| ==> 0 <= chains[b][i] < |cs| <= |next|
    ensures Linked(heads[d], NextCut(next, chains[b], p), chains[d])
    ensures Holds(cs[chains[b][p] := c], h, |heads|, d, chains[d])
  {
    ChainFacts(cs, heads, next, chains, h, b);
    ChainFacts(cs, heads, next, chains, h, d);
    forall k, i | 0 <= k < |chains[d]| && 0 <= i < |chains[b]| ensures chains[d][k] != chains[b][i] {}
    LinkedFrame(heads[d], next, NextCut(next, chains[b], p), chains[d]);
  }

  lemma ChainGrow(cs: seq<Client>, heads: seq<int>, next: seq<int>, chains: seq<seq<int>>, h: string -> nat)
    requires ChainView(cs, heads, next, chains, h) && |next| > |cs|
    ensures ChainView(cs + [OFFLINE], heads, next, chains, h)
  {
    forall b | 0 <= b < |heads|
      ensures Holds(cs + [OFFLINE], h, |heads|, b, chains[b])
    {
      ChainFacts(cs, heads, next, chains, h, b);
    }
  }

  // Changes to a session outside all chains, and to its spare link.
  lemma ChainSame(cs: seq<Client>, heads: seq<int>, next: seq<int>, chains: seq<seq<int>>, h: string -> nat, i: int,
          c: Client)
    requires ChainView(cs, heads, next, chains, h) && 0 <= i < |cs| && cs[i].user == "" && c.user == ""
    ensures ChainView(cs[i := c], heads, next, chains, h) && ChainView(cs[i := c], heads, next[i := -1], chains, h)
  {
    forall b | 0 <= b < |heads|
      ensures Linked(heads[b], next[i := -1], chains[b]) && Holds(cs[i := c], h, |heads|, b, chains[b])
    {
      ChainFacts(cs, heads, next, chains, h, b);
      LinkedFrame(heads[b], next, next[i := -1], chains[b]);
    }
  }

  lemma Position(cs: seq<Client>, heads: seq<int>, next: seq<int>, chains: seq<seq<int>>, h: string -> nat,
          i: int) returns (b: int, p: int)
    requires ChainView(cs, heads, next, chains, h) && 0 <= i < |cs| && cs[i].user != ""
    ensures b == Bucket(h, |heads|, cs[i].user) && 0 <= p < |chains[b]| && chains[b][p] == i
  {
    b := Bucket(h, |heads|, cs[i].user);
    ChainFacts(cs, heads, next, chains, h, b);
    assert i in chains[b];
    p :| 0 <= p < |chains[b]| && chains[b][p] == i;
  }

  // One step along a chain.
  lemma ChainStep(cs: seq<Client>, heads: seq<int>, next: seq<int>, chains: seq<seq<int>>, h: string -> nat, b: int,
          p: int)
    requires ChainView(cs, heads, next, chains, h) && 0 <= b < |heads| && 0 <= p <= |chains[b]|
    ensures p == 0 ==> heads[b] == if chains[b] == [] then -1 else chains[b][0]
    ensures p < |chains[b]| ==> 0 <= chains[b][p] < |cs| && InBucket(cs[chains[b][p]], h, |heads|, b)
    ensures p < |chains[b]| ==> next[chains[b][p]] == if p + 1 < |chains[b]| then chains[b][p + 1] else -1
    ensures forall q :: 0 <= q < |chains[b]| && p < |chains[b]| && chains[b][q] == chains[b][p] ==> q == p
  {
    ChainFacts(cs, heads, next, chains, h, b);
  }

  ghost predicate AllViews(cs: seq<Client>, fdMap: seq<int>, heads: seq<int>, next: seq<int>, chains: seq<seq<int>>,
          free: seq<int>, online: int, h: string -> nat)
  {
    FdView(cs, fdMap) && FreeView(cs, free, online) && ChainView(cs, heads, next, chains, h)
  }

  lemma ViewSizes(cs: seq<Client>, heads: seq<int>, next: seq<int>, chains: seq<seq<int>>, h: string -> nat)
    requires ChainView(cs, heads, next, chains, h)
    ensures |heads| == |chains| > 0 && |next| >= |cs|
  {}

  predicate Matches(c: Client, user: string, platform: int) {
    c.online && c.user == user && (platform < 0 || c.platform == platform)
  }

  ghost predicate KickedOrSame(c: Client, c': Client, user: string, platform: int) {
    c' == c || (user != "" && Matches(c, user, platform) && c' == OFFLINE.(platform := c.platform))
  }

  // Session idx is new on the descriptor, in an old slot or one added at the end; no other session changed.
  ghost predicate Joined(cs: seq<Client>, cs': seq<Client>, idx: int, fd: int) {
    && |cs| <= |cs'| <= |cs| + 1 && 0 <= idx < |cs'| && cs'[idx] == Client(fd, true, false, "", 0)
    && forall i :: 0 <= i < |cs| && i != idx ==> cs'[i] == cs[i]
  }

  lemma CutAll(cs: seq<Client>, heads: seq<int>, next: seq<int>, chains: seq<seq<int>>, h: string -> nat, b: int,
          p: int)
    requires ChainView(cs, heads, next, chains, h) && 0 <= b < |heads| && 0 <= p < |chains[b]|
    ensures 0 <= chains[b][p] < |cs| && forall i :: 0 <= i < |chains[b]| ==> 0 <= chains[b][i] < |next|
    ensures forall c: Client :: c.user == "" ==>
      ChainView(cs[chains[b][p] := c], if p == 0 then heads[b := next[chains[b][0]]] else heads,
        NextCut(next, chains[b], p), chains[b := Cut(chains[b], p)], h)
  {
    hide ChainView;
    ChainRange(cs, heads, next, chains, h, b);
    forall c: Client | c.user == ""
      ensures ChainView(cs[chains[b][p] := c], if p == 0 then heads[b := next[chains[b][0]]] else heads,
        NextCut(next, chains[b], p), chains[b := Cut(chains[b], p)], h)
    {
      ChainCut(cs, heads, next, chains, h, b, p, c);
    }
  }

  lemma ChainRange(cs: seq<Client>, heads: seq<int>, next: seq<int>, chains: seq<seq<int>>, h: string -> nat, b: int)
    requires ChainView(cs, heads, next, chains, h) && 0 <= b < |heads|
    ensures |heads| == |chains| && forall i :: 0 <= i < |chains[b]| ==> 0 <= chains[b][i] < |cs| <= |next|
  {
    ChainFacts(cs, heads, next, chains, h, b);
  }

  lemma CutLinks(next: seq<int>, ch: seq<int>, p: int)
    requires 0 <= p < |ch| && forall i :: 0 <= i < |ch| ==> 0 <= ch[i] < |next|
    ensures p == 0 ==> NextCut(next, ch, p) == next[ch[0] := -1]
    ensures p > 0 ==> NextCut(next, ch, p) == next[ch[p - 1] := next[ch[p]]][ch[p] := -1]
  {}

  lemma OnlineFd(cs: seq<Client>, fdMap: seq<int>, free: seq<int>, online: int, i: int)
    requires FdView(cs, fdMap) && FreeView(cs, free, online) && 0 <= i < |cs| && cs[i].online
    ensures cs[i].fd >= 0 && online >= 1 && |free| < |cs|
  {
    OnlineUpdate(cs, i, OFFLINE);
  }

  class Table {
    const h: string -> nat
    var clients: seq<Client>
    var fdMap: seq<int>
    var userHead: seq<int>
    var userNext: seq<int>
    var free: seq<int>
    var onlineCount: int
    ghost var chains: seq<seq<int>>

    ghost predicate Valid()
      reads this
    {
      AllViews(clients, fdMap, userHead, userNext, chains, free, onlineCount, h)
    }

    constructor (h: string -> nat, maxClients: nat, fds: nat, buckets: nat)
      requires buckets > 0
      ensures Valid() && clients == [] && |userNext| == maxClients && |fdMap| == fds
    {
      this.h := h;
      clients, free, onlineCount := [], [], 0;
      fdMap, userHead, userNext := seq(fds, _ => -1), seq(buckets, _ => -1), seq(maxClients, _ => -1);
      chains := seq(buckets, _ => []);
    }

    // The session on a descriptor: through the map, or by a scan when the map does not answer.
    method FindByFd(fd: int) returns (idx: int)
      requires Valid()
      ensures idx == -1 <==> FreshFd(clients, fd)
      ensures idx != -1 ==> 0 <= idx < |clients| && clients[idx].online && clients[idx].fd == fd
    {
      hide FreeView, ChainView;
      if 0 <= fd < |fdMap| {
        idx := fdMap[fd];
        if 0 <= idx < |clients| && clients[idx].fd == fd && clients[idx].online { return; }
      }
      for i := 0 to |clients|
        invariant forall j :: 0 <= j < i && clients[j].online ==> clients[j].fd != fd
      {
        if clients[i].fd == fd && clients[i].online { return i; }
      }
      idx := -1;
    }

    // A new free slot at the end of the table.
    method AddSlot()
      requires Valid() && |clients| < |userNext|
      modifies this`clients, this`free
      ensures Valid() && clients == old(clients) + [OFFLINE] && free == old(free) + [|old(clients)|]
    {
      hide FreeView, ChainView, FdView, Online;
      FdGrow(clients, fdMap);
      FreeGrow(clients, free, onlineCount);
      ChainGrow(clients, userHead, userNext, chains, h);
      free := free + [|clients|];
      clients := clients + [OFFLINE];
    }

    // The slot on top of the free stack starts a session.
    method TakeSlot(fd: int) returns (idx: int)
      requires Valid() && fd >= 0 && |free| > 0 && FreshFd(clients, fd)
      modifies this
      ensures Valid() && |userNext| == old(|userNext|) && onlineCount == old(onlineCount) + 1
      ensures 0 <= idx < |old(clients)| && !old(clients)[idx].online
      ensures clients == old(clients)[idx := Client(fd, true, false, "", 0)]
    {
      hide FreeView, ChainView, FdView, Online;
      ViewSizes(clients, userHead, userNext, chains, h);
      var c := Client(fd, true, false, "", 0);
      FreePop(clients, free, onlineCount, c);
      idx := free[|free| - 1];
      OfflineUser(clients, fdMap, idx);
      FdAdd(clients, fdMap, idx, fd);
      ChainSame(clients, userHead, userNext, chains, h, idx, c);
      free := free[..|free| - 1];
      clients := clients[idx := c];
      userNext := userNext[idx := -1];
      onlineCount := onlineCount + 1;
      fdMap := SetFd(fdMap, fd, idx);
    }

    // A connection takes a free slot, or a new one while there is room.
    method FindOrAdd(fd: int) returns (idx: int)
      requires Valid() && fd >= 0
      modifies this
      ensures Valid() && |userNext| == old(|userNext|)
      ensures idx == -1 <==> FreshFd(old(clients), fd) && old(free) == [] && |old(clients)| >= |userNext|
      ensures idx == -1 || !FreshFd(old(clients), fd) ==> clients == old(clients) && onlineCount == old(onlineCount)
      ensures idx != -1 ==> 0 <= idx < |clients| && clients[idx].online && clients[idx].fd == fd
      ensures idx != -1 && FreshFd(old(clients), fd) ==> onlineCount == old(onlineCount) + 1
      ensures idx != -1 && FreshFd(old(clients), fd) ==> Joined(old(clients), clients, idx, fd)
    {
      hide FreeView, ChainView, FdView, Online;
      idx := FindByFd(fd);
      if idx >= 0 { return; }
      if |free| == 0 {
        if |clients| >= |userNext| { return -1; }
        AddSlot();
      }
      idx := TakeSlot(fd);
    }

    // A handshake names the session's user.
    method Upgrade(idx: int, user: string, platform: int)
      requires Valid() && 0 <= idx < |clients| && clients[idx].online && !clients[idx].upgraded
      modifies this
      ensures Valid() && |userNext| == old(|userNext|) && onlineCount == old(onlineCount)
      ensures clients == old(clients)[idx := old(clients)[idx].(upgraded := true, user := user, platform := platform)]
    {
      hide FreeView, ChainView, FdView, Online;
      PlainUser(clients, fdMap, idx);
      ViewSizes(clients, userHead, userNext, chains, h);
      var c := clients[idx].(upgraded := true, user := user, platform := platform);
      FdUpgrade(clients, fdMap, idx, user, platform);
      FreeSame(clients, free, onlineCount, idx, c);
      if user != "" {
        ChainAdd(clients, userHead, userNext, chains, h, idx, c);
        var b := Bucket(h, |userHead|, user);
        userNext := userNext[idx := userHead[b]];
        userHead := userHead[b := idx];
        chains := chains[b := [idx] + chains[b]];
      } else {
        ChainSame(clients, userHead, userNext, chains, h, idx, c);
      }
      clients := clients[idx := c];
    }

    // Splices a session out of its user's chain.
    method UserIndexDel(idx: int) returns (ghost b: int, ghost p: int)
      requires Valid() && 0 <= idx < |clients| && clients[idx].user != ""
      modifies this`userHead, this`userNext, this`chains
      ensures b == Bucket(h, |old(userHead)|, clients[idx].user) && 0 <= b < |old(chains)| && 0 <= p < |old(chains)[b]|
      ensures old(chains)[b][p] == idx
      ensures chains == old(chains)[b := Cut(old(chains)[b], p)] && |userHead| == old(|userHead|)
      ensures |userNext| == old(|userNext|)
      ensures forall c: Client :: c.user == "" ==> ChainView(clients[idx := c], userHead, userNext, chains, h)
    {
      hide FreeView, ChainView, FdView, Online, NextCut;
      ViewSizes(clients, userHead, userNext, chains, h);
      b, p := Position(clients, userHead, userNext, chains, h, idx);
      var bucket := Bucket(h, |userHead|, clients[idx].user);
      CutAll(clients, userHead, userNext, chains, h, b, p);
      var prev, cur := -1, userHead[bucket];
      ghost var q := 0;
      ChainStep(clients, userHead, userNext, chains, h, b, 0);
      while cur != idx
        invariant userHead == old(userHead) && userNext == old(userNext) && chains == old(chains)
        invariant 0 <= q <= p && cur == chains[b][q] && (q == 0 ==> prev == -1) && (q > 0 ==> prev == chains[b][q - 1])
        decreases p - q
      {
        ChainStep(clients, userHead, userNext, chains, h, b, q);
        prev, cur := cur, userNext[cur];
        q := q + 1;
      }
      ChainStep(clients, userHead, userNext, chains, h, b, p);
      CutLinks(userNext, chains[b], p);
      if prev < 0 {
        userHead := userHead[bucket := userNext[idx]];
      } else {
        userNext := userNext[prev := userNext[idx]];
      }
      userNext := userNext[idx := -1];
      chains := chains[b := Cut(chains[b], p)];
    }

    // A session ends: it leaves its chain and the fd map, and its slot becomes free.
    method ClientOffline(idx: int) returns (ghost b: int, ghost p: int)
      requires Valid() && 0 <= idx < |clients| && clients[idx].online
      modifies this
      ensures Valid() && |userHead| == old(|userHead|) && |userNext| == old(|userNext|)
      ensures clients == old(clients)[idx := Client(-1, false, false, "", old(clients)[idx].platform)]
      ensures onlineCount == old(onlineCount) - 1 && free == old(free) + [idx]
      ensures old(clients)[idx].user != "" ==>
        b == Bucket(h, |old(userHead)|, old(clients)[idx].user) && 0 <= b < |old(chains)|
      ensures old(clients)[idx].user != "" ==>
        0 <= p < |old(chains)[b]| && old(chains)[b][p] == idx && chains == old(chains)[b := Cut(old(chains)[b], p)]
      ensures old(clients)[idx].user == "" ==> chains == old(chains)
    {
      hide FreeView, ChainView, FdView, Online, NextCut, Cut;
      var c := OFFLINE.(platform := clients[idx].platform);
      ViewSizes(clients, userHead, userNext, chains, h);
      OnlineFd(clients, fdMap, free, onlineCount, idx);
      FdDrop(clients, fdMap, idx, c.platform);
      FreePush(clients, free, onlineCount, idx, c);
      b, p := 0, 0;
      if clients[idx].user != "" {
        b, p := UserIndexDel(idx);
      } else {
        ChainSame(clients, userHead, userNext, chains, h, idx, c);
      }
      if clients[idx].fd >= 0 { fdMap := SetFd(fdMap, clients[idx].fd, -1); }
      clients := clients[idx := c];
      onlineCount := if onlineCount > 0 then onlineCount - 1 else 0;
      if |free| < |userNext| { free := free + [idx]; }
    }

    // Ends exactly the user's sessions on the platform (all platforms if negative), walking the chain it edits.
    method KickUser(user: string, platform: int) returns (kicked: int)
      requires Valid()
      modifies this
      ensures Valid() && |clients| == |old(clients)| && kicked == old(onlineCount) - onlineCount
      ensures forall i :: 0 <= i < |clients| ==>
        clients[i] ==
          if user != "" && old(clients)[i].online && old(clients)[i].user == user &&
            (platform < 0 || old(clients)[i].platform == platform)
          then Client(-1, false, false, "", old(clients)[i].platform)
          else old(clients)[i]
    {
      hide FreeView, ChainView, FdView, Online, NextCut;
      kicked := 0;
      ViewSizes(clients, userHead, userNext, chains, h);
      var b := Bucket(h, |userHead|, user);
      var idx := userHead[b];
      ghost var p := 0;
      ChainStep(clients, userHead, userNext, chains, h, b, 0);
      while idx >= 0
        invariant Valid() && |userHead| == |old(userHead)| == |chains| && |clients| == |old(clients)|
        invariant 0 <= p <= |chains[b]| && idx == if p < |chains[b]| then chains[b][p] else -1
        invariant forall i :: 0 <= i < |clients| ==> KickedOrSame(old(clients)[i], clients[i], user, platform)
        invariant forall q :: 0 <= q < p && 0 <= chains[b][q] < |clients| ==>
          !Matches(clients[chains[b][q]], user, platform)
        invariant kicked == old(onlineCount) - onlineCount
        decreases |chains[b]| - p
      {
        ViewSizes(clients, userHead, userNext, chains, h);
        ChainStep(clients, userHead, userNext, chains, h, b, p);
        var next := userNext[idx];
        if Matches(clients[idx], user, platform) {
          ghost var ch := chains[b];
          ghost var b', p' := ClientOffline(idx);
          kicked := kicked + 1;
        } else {
          p := p + 1;
        }
        idx := next;
        ViewSizes(clients, userHead, userNext, chains, h);
      }
      ChainStep(clients, userHead, userNext, chains, h, b, p);
      forall i | 0 <= i < |clients| && user != "" ensures !Matches(clients[i], user, platform) {
        if clients[i].user == user { var b', q := Position(clients, userHead, userNext, chains, h, i); }
      }
    }

    // Ends every session and starts over with an empty table.
    method Stop()
      requires Valid()
      modifies this
      ensures Valid() && clients == [] && free == [] && onlineCount == 0
    {
      hide FreeView, ChainView, FdView, Online, NextCut;
      ViewSizes(clients, userHead, userNext, chains, h);
      for i := 0 to |clients|
        invariant Valid() && |clients| == |old(clients)| && |userHead| == |old(userHead)|
      {
        if clients[i].online { var _, _ := ClientOffline(i); }
      }
      clients, free, onlineCount := [], [], 0;
      fdMap, userHead, userNext := seq(|fdMap|, _ => -1), seq(|userHead|, _ => -1), seq(|userNext|, _ => -1);
      chains := seq(|userHead|, _ => []);
      Fresh(fdMap, userHead, userNext, h);
    }

    // The sessions a message to the user goes out on.
    method SendToUser(user: string) returns (sent: seq<int>)
      requires Valid()
      ensures forall i, j :: 0 <= i < j < |sent| ==> sent[i] != sent[j]
      ensures forall i :: i in sent <==>
        0 <= i < |clients| && user != "" && clients[i].online && clients[i].upgraded && clients[i].user == user
    {
      hide FreeView, ChainView, FdView, Online, NextCut;
      sent := [];
      ViewSizes(clients, userHead, userNext, chains, h);
      var b := Bucket(h, |userHead|, user);
      var idx := userHead[b];
      ghost var p := 0;
      ghost var ch := chains[b];
      ChainStep(clients, userHead, userNext, chains, h, b, 0);
      while idx >= 0
        invariant 0 <= p <= |ch| && idx == if p < |ch| then ch[p] else -1
        invariant forall i, j :: 0 <= i < j < |sent| ==> sent[i] != sent[j]
        invariant forall i :: i in sent <==>
          i in ch[..p] && 0 <= i < |clients| && user != "" && clients[i].online && clients[i].upgraded
          && clients[i].user == user
        decreases |ch| - p
      {
        ChainStep(clients, userHead, userNext, chains, h, b, p);
        assert ch[..p + 1] == ch[..p] + [ch[p]];
        assert idx !in ch[..p];
        if clients[idx].online && clients[idx].upgraded && clients[idx].user == user { sent := sent + [idx]; }
        idx := userNext[idx];
        p := p + 1;
      }
      ChainStep(clients, userHead, userNext, chains, h, b, p);
      forall i | 0 <= i < |clients| && user != "" && clients[i].user == user ensures i in ch[..p] {
        var b', q := Position(clients, userHead, userNext, chains, h, i);
        assert ch[..p][q] == i;
      }
    }
  }

  lemma Fresh(fdMap: seq<int>, heads: seq<int>, next: seq<int>, h: string -> nat)
    requires |heads| > 0 && (forall f :: 0 <= f < |fdMap| ==> fdMap[f] == -1)
    requires forall b :: 0 <= b < |heads| ==> heads[b] == -1
    ensures AllViews([], fdMap, heads, next, seq(|heads|, _ => []), [], 0, h)
  {}

  lemma OfflineUser(cs: seq<Client>, fdMap: seq<int>, i: int)
    requires FdView(cs, fdMap) && 0 <= i < |cs| && !cs[i].online
    ensures cs[i].user == "" && cs[i].fd == -1
  {}

  lemma PlainUser(cs: seq<Client>, fdMap: seq<int>, i: int)
    requires FdView(cs, fdMap) && 0 <= i < |cs| && !cs[i].upgraded
    ensures cs[i].user == ""
  {}
}
