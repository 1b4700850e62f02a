// The in-memory message store: every operation keeps the four views in agreement.
module MsgStore {
  import opened Basics
  import opened Probe
  import opened MsgViews
  import opened Turns

  // What decides where the next message goes.
  datatype Pool = Pool(mem: seq<Cell>, free: seq<int>, cursor: int)

  ghost predicate PoolOk(p: Pool) {
    0 <= p.cursor < |p.mem| && forall i :: 0 <= i < |p.free| ==> 0 <= p.free[i] < |p.mem|
  }

  // A free slot if there is one, else the slot under the rotating cursor.
  ghost function Slot(p: Pool): int
    requires PoolOk(p)
  { if |p.free| > 0 then p.free[|p.free| - 1] else p.cursor }

  ghost function Inserted(p: Pool, m: Msg): Pool
    requires PoolOk(p)
  {
    if |p.free| > 0 then Pool(p.mem[Slot(p) := Used(m)], p.free[..|p.free| - 1], p.cursor)
    else Pool(p.mem[p.cursor := Used(m)], [], (p.cursor + 1) % |p.mem|)
  }

  // ----- lemmas about the views that the methods use -----

  // Every used cell of m0 is the same in mem.
  ghost predicate Agrees(m0: seq<Cell>, mem: seq<Cell>) {
    |m0| == |mem| && forall i :: 0 <= i < |m0| && m0[i].Used? ==> mem[i] == m0[i]
  }

  // While only the messages of m0 are linked, probing with the keys of mem is the same.
  lemma LinkReady(m0: seq<Cell>, mem: seq<Cell>, t: seq<int>, next: seq<int>, chains: map<string, seq<int>>,
          h: string -> nat, s: int)
    requires ConvView(m0, t, next, chains, h) && Agrees(m0, mem) && 0 <= s < |mem| && m0[s].Free? && mem[s].Used?
    ensures Table(t, ConvKeys(mem), KeyHash(h))
    ensures forall i :: 0 <= i < |t| && t[i] >= 0 ==>
      t[i] < |mem| && ConvKeys(m0[s := mem[s]])[t[i]] == ConvKeys(mem)[t[i]]
    ensures Slots(t, ConvKeys(m0[s := mem[s]]))
    ensures forall k :: Absent(t, ConvKeys(mem), k) ==> Absent(t, ConvKeys(m0[s := mem[s]]), k)
  {
    forall i | 0 <= i < |t| && t[i] >= 0
      ensures t[i] < |mem| && ConvKeys(m0)[t[i]] == ConvKeys(mem)[t[i]]
      ensures ConvKeys(m0[s := mem[s]])[t[i]] == ConvKeys(mem)[t[i]]
    {
      assert t[i] in t;
      assert m0[t[i]].Used?;
    }
    TableAgree(t, ConvKeys(m0), ConvKeys(mem), KeyHash(h));
  }

  lemma SlotAt(mem: seq<Cell>, t: seq<int>, next: seq<int>, chains: map<string, seq<int>>, h: string -> nat,
          s: int) returns (q: int)
    requires ConvView(mem, t, next, chains, h) && 0 <= s < |mem| && mem[s].Used?
    ensures mem[s].msg.conv in chains && 0 <= q < |chains[mem[s].msg.conv]| && chains[mem[s].msg.conv][q] == s
    ensures Table(t, ConvKeys(mem), KeyHash(h))
  {
    q :| 0 <= q < |chains[mem[s].msg.conv]| && chains[mem[s].msg.conv][q] == s;
  }

  // The probe for a conversation with a chain ends at its head.
  lemma HeadFound(mem: seq<Cell>, t: seq<int>, next: seq<int>, chains: map<string, seq<int>>, h: string -> nat,
          c: string, i: int)
    requires ConvView(mem, t, next, chains, h) && 0 <= i < |t|
    requires t[i] < 0 ==> Slots(t, ConvKeys(mem)) && Absent(t, ConvKeys(mem), Some(c))
    requires t[i] >= 0 ==> t[i] < |mem| && ConvKeys(mem)[t[i]] == Some(c)
    ensures t[i] >= 0 <==> c in chains
    ensures t[i] >= 0 ==> |chains[c]| > 0 && t[i] == chains[c][0] && t[i] in t
  {
    if c in chains { var j := HeadListed(mem, t, next, chains, h, c); }
    if t[i] >= 0 { assert t[i] in t; }
  }

  lemma SoleSlot(mem: seq<Cell>, t: seq<int>, next: seq<int>, chains: map<string, seq<int>>, h: string -> nat, s: int)
    requires ConvView(mem, t, next, chains, h) && 0 <= s < |mem| && mem[s].Used? && s in t && next[s] < 0
    ensures chains[mem[s].msg.conv] == [s]
  {
    hide Chain, Table;
    HeadsUsed(mem, t, next, chains, h);
    WalkStep(mem, t, next, chains, h, mem[s].msg.conv, 0);
    var ch := chains[mem[s].msg.conv];
    if |ch| > 1 { WalkStep(mem, t, next, chains, h, mem[s].msg.conv, 1); }
  }

  lemma WalkStep(mem: seq<Cell>, t: seq<int>, next: seq<int>, chains: map<string, seq<int>>, h: string -> nat,
          c: string, p: int)
    requires ConvView(mem, t, next, chains, h) && c in chains && 0 <= p < |chains[c]|
    ensures 0 <= chains[c][p] < |mem| && mem[chains[c][p]].Used? && mem[chains[c][p]].msg.conv == c
    ensures next[chains[c][p]] == if p + 1 < |chains[c]| then chains[c][p + 1] else -1
  {
    assert Chain(mem, next, c, chains[c]);
  }

  lemma SameSlot(mem: seq<Cell>, t: seq<int>, next: seq<int>, chains: map<string, seq<int>>, h: string -> nat,
          c: string, p: int, q: int)
    requires ConvView(mem, t, next, chains, h) && c in chains && 0 <= p < |chains[c]| && 0 <= q < |chains[c]|
    ensures chains[c][p] == chains[c][q] <==> p == q
  {
    assert Chain(mem, next, c, chains[c]);
  }

  lemma IdTable(mem: seq<Cell>, t: seq<int>, h: string -> nat, s: int)
    requires IdView(mem, t, h) && 0 <= s < |mem| && mem[s].Used?
    ensures Table(t, IdKeys(mem), KeyHash(h)) && Slots(t, IdKeys(mem)) && !Absent(t, IdKeys(mem), Some(mem[s].msg.id))
  {
    assert s in t;
    var i :| 0 <= i < |t| && t[i] == s;
    assert IdKeys(mem)[t[i]] == Some(mem[s].msg.id);
  }

  lemma IdGone(mem: seq<Cell>, t: seq<int>, h: string -> nat, s: int, gone: int, t': seq<int>)
    requires IdView(mem, t, h) && 0 <= s < |mem| && mem[s].Used? && |t'| == |t| && Table(t', IdKeys(mem), KeyHash(h))
    requires Slots(t, IdKeys(mem)) && !Absent(t, IdKeys(mem), Some(mem[s].msg.id))
    requires gone == -1 ==> Absent(t, IdKeys(mem), Some(mem[s].msg.id))
    requires gone != -1 ==>
      gone in t && 0 <= gone < |mem| && IdKeys(mem)[gone] == Some(mem[s].msg.id)
      && Moved(t, t', IdKeys(mem), KeyHash(h), gone)
    ensures IdView(mem[s := Free], t', h)
  {
    IdRemove(mem, t, t', h, s, gone);
  }

  lemma IdEmpty(t: seq<int>, keys: seq<Key>, h: string -> nat, id: string, i: int)
    requires Table(t, keys, KeyHash(h)) && Absent(t, keys, Some(id)) && 0 <= i < |t|
    requires t[i] >= 0 ==> t[i] < |keys| && keys[t[i]] == Some(id)
    ensures t[i] < 0
  {}

  lemma FreeRoom(mem: seq<Cell>, free: seq<int>, count: int, s: int)
    requires FreeView(mem, free, count) && 0 <= s < |mem| && mem[s].Used?
    ensures count >= 1 && |free| < |mem|
  {
    CountUpdate(mem, s, Free);
  }

  lemma PoolFacts(mem: seq<Cell>, free: seq<int>, count: int, cursor: int)
    requires FreeView(mem, free, count) && 0 <= cursor < |mem|
    ensures PoolOk(Pool(mem, free, cursor)) && (|free| == 0 ==> mem[cursor].Used?)
  {
    if |free| == 0 { AllUsed(mem, cursor); }
  }

  lemma FreeOnTop(mem: seq<Cell>, free: seq<int>, count: int)
    requires FreeView(mem, free, count) && |free| > 0
    ensures 0 <= free[|free| - 1] < |mem| && mem[free[|free| - 1]].Free?
  {
    assert free[|free| - 1] in free;
  }

  lemma IdsFound(mem: seq<Cell>, t: seq<int>, h: string -> nat, id: string)
    requires IdView(mem, t, h)
    ensures Table(t, IdKeys(mem), KeyHash(h)) && Slots(t, IdKeys(mem))
    ensures Absent(t, IdKeys(mem), Some(id)) ==> FreshId(mem, id)
  {
    if Absent(t, IdKeys(mem), Some(id)) {
      forall s | 0 <= s < |mem| && mem[s].Used? ensures mem[s].msg.id != id { IdTable(mem, t, h, s); }
    }
  }

  lemma OnlyId(mem: seq<Cell>, t: seq<int>, h: string -> nat, slot: int)
    requires IdView(mem, t, h) && 0 <= slot < |mem| && mem[slot].Used?
    ensures forall s :: 0 <= s < |mem| && s != slot && mem[s].Used? ==> mem[s].msg.id != mem[slot].msg.id
  {
    forall s | 0 <= s < |mem| && s != slot && mem[s].Used? ensures mem[s].msg.id != mem[slot].msg.id {
      if mem[s].msg.id == mem[slot].msg.id { IdsDistinct(mem, t, h, s, slot); }
    }
  }

  function WithStatus(mem: seq<Cell>, s: int, status: int): seq<Cell>
    requires 0 <= s < |mem| && mem[s].Used?
  { mem[s := Used(mem[s].msg.(status := status))] }

  lemma StatusKeeps(mem: seq<Cell>, free: seq<int>, count: int, it: seq<int>, h: string -> nat, s: int, status: int)
    requires FreeView(mem, free, count) && IdView(mem, it, h) && 0 <= s < |mem| && mem[s].Used?
    ensures FreeView(WithStatus(mem, s, status), free, count) && IdView(WithStatus(mem, s, status), it, h)
  {
    hide Table, FirstEmpty;
    CountUpdate(mem, s, WithStatus(mem, s, status)[s]);
    assert IdKeys(WithStatus(mem, s, status)) == IdKeys(mem);
  }

  lemma StatusChains(mem: seq<Cell>, t: seq<int>, next: seq<int>, chains: map<string, seq<int>>, h: string -> nat,
          s: int, status: int)
    requires ConvView(mem, t, next, chains, h) && 0 <= s < |mem| && mem[s].Used?
    ensures ConvView(WithStatus(mem, s, status), t, next, chains, h)
  {
    hide Table, FirstEmpty, Chain;
    assert ConvKeys(WithStatus(mem, s, status)) == ConvKeys(mem);
    HeadsUsed(mem, t, next, chains, h);
    forall c | c in chains
      ensures Chain(WithStatus(mem, s, status), next, c, chains[c])
    {
      StatusChain(mem, next, c, chains[c], s, status);
    }
  }

  lemma StatusChain(mem: seq<Cell>, next: seq<int>, c: string, ch: seq<int>, s: int, status: int)
    requires Chain(mem, next, c, ch) && 0 <= s < |mem| && mem[s].Used?
    ensures Chain(WithStatus(mem, s, status), next, c, ch)
  {}

  // The first n cells; the others count as free.
  ghost function Masked(mem: seq<Cell>, n: int): (r: seq<Cell>)
    ensures |r| == |mem|
  { seq(|mem|, i requires 0 <= i < |mem| => if i < n then mem[i] else Free) }

  lemma NothingLinked(mem: seq<Cell>, t: seq<int>, next: seq<int>, h: string -> nat)
    requires |t| > |mem| == |next| && forall i :: 0 <= i < |t| ==> t[i] == -1
    ensures ConvView(Masked(mem, 0), t, next, map[], h)
  {
    assert t[0] == -1;
  }

  lemma MaskStep(mem: seq<Cell>, n: int)
    requires 0 <= n < |mem|
    ensures Agrees(Masked(mem, n), mem) && Masked(mem, n)[n].Free? && Masked(mem, n)[n := mem[n]] == Masked(mem, n + 1)
    ensures mem[n].Free? ==> Masked(mem, n) == Masked(mem, n + 1)
  {}

  lemma RebuildReady(mem: seq<Cell>, n: int, t: seq<int>, next: seq<int>, chains: map<string, seq<int>>,
          h: string -> nat)
    requires 0 <= n < |mem| && mem[n].Used? && ConvView(Masked(mem, n), t, next, chains, h)
    ensures Slots(t, ConvKeys(mem)) && -1 in t
  {
    MaskStep(mem, n);
    LinkReady(Masked(mem, n), mem, t, next, chains, h, n);
  }

  lemma MaskFull(mem: seq<Cell>)
    ensures Masked(mem, |mem|) == mem
  {}

  predicate InRange(m: Msg, start: int, end: int) { m.seqNo >= start && !(end > 0 && m.seqNo > end) }

  ghost predicate Slotted(mem: seq<Cell>, ch: seq<int>) {
    forall i :: 0 <= i < |ch| ==> 0 <= ch[i] < |mem| && mem[ch[i]].Used?
  }

  // The messages of a chain that lie in the range, in chain order.
  ghost function Picked(mem: seq<Cell>, ch: seq<int>, start: int, end: int): seq<Msg>
    requires Slotted(mem, ch)
  {
    if ch == [] then [] else
      var r, m := Picked(mem, ch[..|ch| - 1], start, end), mem[ch[|ch| - 1]].msg;
        if InRange(m, start, end) then r + [m] else r
  }

  ghost predicate InChain(mem: seq<Cell>, ch: seq<int>, m: Msg)
    requires Slotted(mem, ch)
  {
    exists i :: 0 <= i < |ch| && mem[ch[i]].msg == m
  }

  lemma {:induction false} PickedMembers(mem: seq<Cell>, ch: seq<int>, start: int, end: int)
    requires Slotted(mem, ch)
    ensures forall m :: m in Picked(mem, ch, start, end) <==> InRange(m, start, end) && InChain(mem, ch, m)
  {
    if ch != [] {
      var n := |ch| - 1;
      PickedMembers(mem, ch[..n], start, end);
      forall m ensures InChain(mem, ch, m) <==> InChain(mem, ch[..n], m) || m == mem[ch[n]].msg {
        if InChain(mem, ch[..n], m) { var i :| 0 <= i < n && mem[ch[..n][i]].msg == m; assert mem[ch[i]].msg == m; }
        if InChain(mem, ch, m) {
          var i :| 0 <= i <= n && mem[ch[i]].msg == m;
          if i < n { assert mem[ch[..n][i]].msg == m; }
        }
      }
    }
  }

  ghost predicate DistinctIds(r: seq<Msg>) { forall i, j :: 0 <= i < j < |r| ==> r[i].id != r[j].id }

  lemma {:induction false} PickedDistinct(mem: seq<Cell>, ch: seq<int>, start: int, end: int)
    requires Slotted(mem, ch) && forall i, j :: 0 <= i < j < |ch| ==> mem[ch[i]].msg.id != mem[ch[j]].msg.id
    ensures DistinctIds(Picked(mem, ch, start, end))
  {
    if ch != [] {
      var n := |ch| - 1;
      PickedDistinct(mem, ch[..n], start, end);
      PickedMembers(mem, ch[..n], start, end);
      var r := Picked(mem, ch[..n], start, end);
      var m := mem[ch[n]].msg;
      assert Picked(mem, ch, start, end) == if InRange(m, start, end) then r + [m] else r;
      forall i | 0 <= i < |r| ensures r[i].id != mem[ch[n]].msg.id {
        assert r[i] in r;
        var k :| 0 <= k < n && mem[ch[..n][k]].msg == r[i];
        assert ch[..n][k] == ch[k];
      }
    }
  }

  lemma PickedStep(mem: seq<Cell>, ch: seq<int>, p: int, start: int, end: int)
    requires Slotted(mem, ch) && 0 <= p < |ch|
    ensures Slotted(mem, ch[..p]) && Slotted(mem, ch[..p + 1])
    ensures Picked(mem, ch[..p + 1], start, end) ==
      Picked(mem, ch[..p], start, end) + if InRange(mem[ch[p]].msg, start, end) then [mem[ch[p]].msg] else []
  {
    assert ch[..p + 1][..p] == ch[..p];
  }

  ghost function ChainOf(chains: map<string, seq<int>>, c: string): seq<int> { if c in chains then chains[c] else [] }

  // ----- the order of the chains -----

  // ch without slot s.
  ghost function Dropped(ch: seq<int>, s: int): seq<int> {
    if ch == [] then [] else (if ch[0] == s then [] else [ch[0]]) + Dropped(ch[1..], s)
  }

  // Slot s has gone in front of the chain of c, and nothing else has moved.
  ghost predicate InFront(cs: map<string, seq<int>>, cs': map<string, seq<int>>, c: string, s: int) {
    forall d :: ChainOf(cs', d) == (if d == c then [s] else []) + ChainOf(cs, d)
  }

  // Slot s has left its chain, and nothing else has moved.
  ghost predicate Left(cs: map<string, seq<int>>, cs': map<string, seq<int>>, s: int) {
    forall d :: ChainOf(cs', d) == Dropped(ChainOf(cs, d), s)
  }

  // Slot s has left its chain, if any, and gone in front of that of c.
  ghost predicate Relisted(cs: map<string, seq<int>>, cs': map<string, seq<int>>, c: string, s: int) {
    forall d :: ChainOf(cs', d) == (if d == c then [s] else []) + Dropped(ChainOf(cs, d), s)
  }

  lemma {:induction false} DroppedAbsent(ch: seq<int>, s: int)
    requires s !in ch
    ensures Dropped(ch, s) == ch
  {
    if ch != [] { DroppedAbsent(ch[1..], s); }
  }

  lemma {:induction false} DroppedCut(ch: seq<int>, q: int)
    requires 0 <= q < |ch| && forall i, j :: 0 <= i < j < |ch| ==> ch[i] != ch[j]
    ensures Dropped(ch, ch[q]) == ch[..q] + ch[q + 1..]
  {
    if q == 0 { DroppedAbsent(ch[1..], ch[0]); assert ch[..0] + ch[1..] == ch[1..]; } else {
      DroppedCut(ch[1..], q - 1);
      assert ch[..q] + ch[q + 1..] == [ch[0]] + (ch[1..][..q - 1] + ch[1..][q..]);
    }
  }

  // A free slot is in no chain.
  lemma Unchained(mem: seq<Cell>, t: seq<int>, next: seq<int>, chains: map<string, seq<int>>, h: string -> nat, s: int)
    requires ConvView(mem, t, next, chains, h) && 0 <= s < |mem| && mem[s].Free?
    ensures Left(chains, chains, s)
  {
    forall d ensures Dropped(ChainOf(chains, d), s) == ChainOf(chains, d) {
      if d in chains { assert Chain(mem, next, d, chains[d]); }
      DroppedAbsent(ChainOf(chains, d), s);
    }
  }

  lemma ChainDistinct(mem: seq<Cell>, t: seq<int>, next: seq<int>, chains: map<string, seq<int>>, h: string -> nat,
          c: string)
    requires ConvView(mem, t, next, chains, h) && c in chains
    ensures forall i, j :: 0 <= i < j < |chains[c]| ==> chains[c][i] != chains[c][j]
  {
    assert Chain(mem, next, c, chains[c]);
  }

  lemma NotInOther(mem: seq<Cell>, t: seq<int>, next: seq<int>, chains: map<string, seq<int>>, h: string -> nat,
          s: int, d: string)
    requires ConvView(mem, t, next, chains, h) && 0 <= s < |mem| && mem[s].Used? && mem[s].msg.conv != d
    ensures s !in ChainOf(chains, d)
  {
    if d in chains { assert Chain(mem, next, d, chains[d]); }
  }

  // The chains without position q of the chain of c, which goes when it is empty.
  ghost function Cutting(chains: map<string, seq<int>>, c: string, q: int): map<string, seq<int>>
    requires c in chains && 0 <= q < |chains[c]|
  { if |chains[c]| == 1 then chains - {c} else chains[c := chains[c][..q] + chains[c][q + 1..]] }

  // Cutting slot s out of its chain is all that happens.
  lemma CutLeft(mem: seq<Cell>, t: seq<int>, next: seq<int>, chains: map<string, seq<int>>, h: string -> nat, s: int,
          q: int, cs: map<string, seq<int>>)
    requires ConvView(mem, t, next, chains, h) && 0 <= s < |mem| && mem[s].Used? && mem[s].msg.conv in chains
    requires var ch := chains[mem[s].msg.conv]; 0 <= q < |ch| && ch[q] == s
    requires cs == Cutting(chains, mem[s].msg.conv, q)
    ensures Left(chains, cs, s)
  {
    hide Table, ConvView, Dropped;
    var c := mem[s].msg.conv;
    forall d ensures ChainOf(cs, d) == Dropped(ChainOf(chains, d), s) {
      if d == c { ChainDistinct(mem, t, next, chains, h, c); DroppedCut(chains[c], q); } else {
        NotInOther(mem, t, next, chains, h, s, d);
        DroppedAbsent(ChainOf(chains, d), s);
      }
    }
  }

  lemma RelistedBy(cs: map<string, seq<int>>, cs1: map<string, seq<int>>, cs2: map<string, seq<int>>, c: string, s: int)
    requires Left(cs, cs1, s) && InFront(cs1, cs2, c, s)
    ensures Relisted(cs, cs2, c, s)
  {
    forall d ensures ChainOf(cs2, d) == (if d == c then [s] else []) + Dropped(ChainOf(cs, d), s) {}
  }

  // The slots of every chain below n, the highest first.
  ghost predicate Descending(cs: map<string, seq<int>>, n: int) {
    forall d, i, j :: 0 <= i < j < |ChainOf(cs, d)| ==> n > ChainOf(cs, d)[i] > ChainOf(cs, d)[j]
  }

  ghost predicate Below(cs: map<string, seq<int>>, n: int) {
    forall d, i :: 0 <= i < |ChainOf(cs, d)| ==> ChainOf(cs, d)[i] < n
  }

  lemma NoChains()
    ensures Descending(map[], 0) && Below(map[], 0)
  {
    var none: map<string, seq<int>> := map[];
    assert forall d :: ChainOf(none, d) == [];
  }

  lemma DescendingWider(cs: map<string, seq<int>>, n: int)
    requires Descending(cs, n) && Below(cs, n)
    ensures Descending(cs, n + 1) && Below(cs, n + 1)
  {}

  lemma DescendingPush(cs: map<string, seq<int>>, cs': map<string, seq<int>>, c: string, s: int)
    requires Descending(cs, s) && Below(cs, s) && InFront(cs, cs', c, s)
    ensures Descending(cs', s + 1) && Below(cs', s + 1)
  {
    forall d ensures ChainOf(cs', d) == (if d == c then [s] else []) + ChainOf(cs, d) {}
  }

  lemma ChainFacts(mem: seq<Cell>, it: seq<int>, t: seq<int>, next: seq<int>, chains: map<string, seq<int>>,
          h: string -> nat, c: string)
    requires IdView(mem, it, h) && ConvView(mem, t, next, chains, h)
    ensures Table(t, ConvKeys(mem), KeyHash(h)) && Slots(t, ConvKeys(mem)) && Slotted(mem, ChainOf(chains, c))
    ensures var ch := ChainOf(chains, c); forall i, j :: 0 <= i < j < |ch| ==> mem[ch[i]].msg.id != mem[ch[j]].msg.id
    ensures forall m :: InChain(mem, ChainOf(chains, c), m) <==> Used(m) in mem && m.conv == c
  {
    var ch := ChainOf(chains, c);
    if c in chains { assert Chain(mem, next, c, chains[c]); }
    forall i, j | 0 <= i < j < |ch| ensures mem[ch[i]].msg.id != mem[ch[j]].msg.id { OnlyId(mem, it, h, ch[i]); }
    forall m | Used(m) in mem && m.conv == c ensures InChain(mem, ch, m) {
      var s :| 0 <= s < |mem| && mem[s] == Used(m);
      var q := SlotAt(mem, t, next, chains, h, s);
      assert mem[ch[q]].msg == m;
    }
    forall m | InChain(mem, ch, m)
      ensures Used(m) in mem && m.conv == c
    {
      var i :| 0 <= i < |ch| && mem[ch[i]].msg == m;
      assert mem[ch[i]] == Used(m);
    }
  }

  ghost function FreshPool(cap: int): Pool
    requires cap > 0
  { Pool(seq(cap, _ => Free), seq(cap, i => cap - 1 - i), 0) }

  lemma {:induction false} NoneUsed(mem: seq<Cell>)
    requires forall i :: 0 <= i < |mem| ==> mem[i].Free?
    ensures CountUsed(mem) == 0
  {
    if mem != [] { NoneUsed(mem[..|mem| - 1]); }
  }

  lemma FreshViews(cap: int, it: seq<int>, ct: seq<int>, h: string -> nat)
    requires 0 < cap < |it| && cap < |ct| && (forall i :: 0 <= i < |it| ==> it[i] == -1)
    requires forall i :: 0 <= i < |ct| ==> ct[i] == -1
    ensures var p := FreshPool(cap);
      FreeView(p.mem, p.free, 0) && IdView(p.mem, it, h) && ConvView(p.mem, ct, seq(cap, _ => -1), map[], h)
  {
    var p := FreshPool(cap);
    NoneUsed(p.mem);
    assert it[0] == -1 && ct[0] == -1;
    forall s | 0 <= s < cap ensures s in p.free { assert p.free[cap - 1 - s] == s; }
  }

  // ----- insert-only runs fill the slots in turn -----

  ghost function InsertAll(cap: int, ms: seq<Msg>): (p: Pool)
    requires cap > 0
    ensures PoolOk(p) && |p.mem| == cap
  {
    if ms == [] then FreshPool(cap) else Inserted(InsertAll(cap, ms[..|ms| - 1]), ms[|ms| - 1])
  }

  ghost predicate Recent(p: Pool, ms: seq<Msg>)
    requires |p.mem| > 0
  {
    var cap, n := |p.mem|, |ms|;
    && (forall j :: 0 <= j < n && n - cap <= j ==> p.mem[j % cap] == Used(ms[j]))
    && (forall i :: n <= i < cap ==> p.mem[i].Free?)
    && p.free == (if n < cap then seq(cap - n, i => cap - 1 - i) else [])
    && p.cursor == if n < cap then 0 else n % cap
  }

  lemma RecentSlot(p: Pool, ms: seq<Msg>)
    requires PoolOk(p) && Recent(p, ms)
    ensures Slot(p) == |ms| % |p.mem|
  {
    if |ms| < |p.mem| { DivUnique(|ms|, |p.mem|, 0, |ms|); }
  }

  // Filling slot n mod cap keeps the latest cap messages in their places.
  lemma RecentCells(mem: seq<Cell>, ms: seq<Msg>, m: Msg, j: int)
    requires |mem| > 0 && 0 <= j <= |ms| && |ms| + 1 - |mem| <= j
    requires forall k :: 0 <= k < |ms| && |ms| - |mem| <= k ==> mem[k % |mem|] == Used(ms[k])
    ensures mem[|ms| % |mem| := Used(m)][j % |mem|] == Used((ms + [m])[j])
  {
    if j < |ms| { ModDistinct(j, |ms|, |mem|); }
  }

  lemma InsertRecent(p: Pool, ms: seq<Msg>, m: Msg)
    requires PoolOk(p) && Recent(p, ms)
    ensures Recent(Inserted(p, m), ms + [m]) && Slot(p) == |ms| % |p.mem|
  {
    var cap, n, p' := |p.mem|, |ms|, Inserted(p, m);
    RecentSlot(p, ms);
    forall j | 0 <= j <= n && n + 1 - cap <= j
      ensures p'.mem[j % cap] == Used((ms + [m])[j])
    {
      RecentCells(p.mem, ms, m, j);
    }
    NextTurn(n, cap);
    if n < cap { DivUnique(n, cap, 0, n); }
  }

  // The n-th message lands in slot n mod cap, and the store holds exactly the most recent min(n, cap) messages.
  lemma {:induction false} Ring(cap: int, ms: seq<Msg>)
    requires cap > 0
    ensures Recent(InsertAll(cap, ms), ms) && Slot(InsertAll(cap, ms)) == |ms| % cap
    ensures forall m :: Used(m) in InsertAll(cap, ms).mem <==> m in ms[if |ms| < cap then 0 else |ms| - cap..]
  {
    hide Recent, Inserted, Slot;
    RingRecent(cap, ms);
    var p := InsertAll(cap, ms);
    InsertRecent(p, ms, Msg("", "", "", "", 0, 0, 0, 0));
    forall m ensures Used(m) in p.mem <==> m in ms[if |ms| < cap then 0 else |ms| - cap..] { RecentHolds(p, ms, m); }
  }

  lemma {:induction false} RingRecent(cap: int, ms: seq<Msg>)
    requires cap > 0
    ensures Recent(InsertAll(cap, ms), ms)
  {
    hide Inserted, Slot;
    var n := |ms| - 1;
    if ms != [] {
      RingRecent(cap, ms[..n]);
      InsertRecent(InsertAll(cap, ms[..n]), ms[..n], ms[n]);
      assert ms[..n] + [ms[n]] == ms;
    }
  }

  lemma RecentHolds(p: Pool, ms: seq<Msg>, m: Msg)
    requires |p.mem| > 0 && Recent(p, ms)
    ensures Used(m) in p.mem <==> m in ms[if |ms| < |p.mem| then 0 else |ms| - |p.mem|..]
  {
    var cap, n := |p.mem|, |ms|;
    var lo := if n < cap then 0 else n - cap;
    if m in ms[lo..] { var j :| 0 <= j < n - lo && ms[lo..][j] == m; assert p.mem[(lo + j) % cap] == Used(m); }
    if Used(m) in p.mem {
      var i :| 0 <= i < cap && p.mem[i] == Used(m);
      var j := Turn(n, cap, i);
      assert ms[lo..][j - lo] == ms[j];
    }
  }

  lemma NextUsed(mem: seq<Cell>, t: seq<int>, next: seq<int>, chains: map<string, seq<int>>, h: string -> nat, x: int)
    requires ConvView(mem, t, next, chains, h) && 0 <= x < |mem| && mem[x].Used?
    ensures next[x] == -1 || (0 <= next[x] < |mem| && mem[next[x]].Used?)
  {
    var q := SlotAt(mem, t, next, chains, h, x);
    var c := mem[x].msg.conv;
    WalkStep(mem, t, next, chains, h, c, q);
    if q + 1 < |chains[c]| { WalkStep(mem, t, next, chains, h, c, q + 1); }
  }

  // ----- messages without a conversation id -----

  // The links form right chains for some choice of chains.
  ghost predicate Threads(mem: seq<Cell>, t: seq<int>, next: seq<int>, h: string -> nat) {
    exists cs :: ConvView(mem, t, next, cs, h)
  }

  // conv_unlink returns early on an empty conversation id, only clearing the slot's own link. Then no choice of chains
  // makes the view right again.
  lemma EmptyConvStays(mem: seq<Cell>, t: seq<int>, next: seq<int>, chains: map<string, seq<int>>, h: string -> nat,
          s: int)
    requires ConvView(mem, t, next, chains, h) && 0 <= s < |mem| && mem[s].Used? && mem[s].msg.conv == ""
    ensures !Threads(mem[s := Free], t, next[s := -1], h)
  {
    hide Table;
    var mem', next' := mem[s := Free], next[s := -1];
    if Threads(mem', t, next', h) {
      var cs :| ConvView(mem', t, next', cs, h);
      if s !in t {
        var x := Before(mem, t, next, chains, h, s);
        NextUsed(mem', t, next', cs, h, x);
      }
    }
  }

  // A slot that is not at the head of its chain has a predecessor in it.
  lemma Before(mem: seq<Cell>, t: seq<int>, next: seq<int>, chains: map<string, seq<int>>, h: string -> nat,
          s: int) returns (x: int)
    requires ConvView(mem, t, next, chains, h) && 0 <= s < |mem| && mem[s].Used? && s !in t
    ensures 0 <= x < |mem| && mem[x].Used? && next[x] == s && x != s
  {
    hide Table;
    var c := mem[s].msg.conv;
    var q := SlotAt(mem, t, next, chains, h, s);
    HeadsUsed(mem, t, next, chains, h);
    x := chains[c][q - 1];
    WalkStep(mem, t, next, chains, h, c, q - 1);
    SameSlot(mem, t, next, chains, h, c, q - 1, q);
  }

  // The new message of an evicting insert takes the very slot that was left in the chains. Linking it there, wherever
  // the probe ends, cannot mend them: the slot is in the table twice, or is its own successor, or is both the head of
  // a chain and the successor of another slot.
  lemma StaleLink(mem: seq<Cell>, t: seq<int>, next: seq<int>, chains: map<string, seq<int>>, h: string -> nat,
          s: int, m: Msg, i: int)
    requires ConvView(mem, t, next, chains, h) && 0 <= s < |mem| && mem[s].Used? && 0 <= i < |t|
    ensures !Threads(mem[s := Used(m)], t[i := s], next[s := if t[i] < 0 then -1 else t[i]], h)
  {
    hide Table;
    var mem', t', next' := mem[s := Used(m)], t[i := s], next[s := if t[i] < 0 then -1 else t[i]];
    if Threads(mem', t', next', h) {
      var chains' :| ConvView(mem', t', next', chains', h);
      assert t'[i] == s;
      if s !in t {
        var x := Before(mem, t, next, chains, h, s);
        NotNext(mem', t', next', chains', h, x, s);
      } else if t[i] == s {
        NotNext(mem', t', next', chains', h, s, s);
      } else {
        var j :| 0 <= j < |t| && t[j] == s;
        assert t'[j] == s;
        Twice(t', ConvKeys(mem'), KeyHash(h), i, j);
      }
    }
  }

  lemma Twice(t: seq<int>, keys: seq<Key>, h: Key -> nat, i: int, j: int)
    requires Table(t, keys, h) && 0 <= i < |t| && 0 <= j < |t| && t[i] == t[j] >= 0
    ensures i == j
  {}

  // No slot leads to the head of a chain.
  lemma NotNext(mem: seq<Cell>, t: seq<int>, next: seq<int>, chains: map<string, seq<int>>, h: string -> nat, x: int,
          s: int)
    requires ConvView(mem, t, next, chains, h) && 0 <= x < |mem| && mem[x].Used? && s in t && s >= 0
    ensures next[x] != s
  {
    hide Table;
    var q := SlotAt(mem, t, next, chains, h, x);
    var c := mem[x].msg.conv;
    WalkStep(mem, t, next, chains, h, c, q);
    if q + 1 < |chains[c]| {
      WalkStep(mem, t, next, chains, h, c, q + 1);
      SameSlot(mem, t, next, chains, h, c, 0, q + 1);
    }
  }

  lemma Probing(mem: seq<Cell>, t: seq<int>, next: seq<int>, chains: map<string, seq<int>>, h: string -> nat)
    requires ConvView(mem, t, next, chains, h)
    ensures Slots(t, ConvKeys(mem)) && -1 in t
  {}

  lemma ProbingFreed(mem: seq<Cell>, t: seq<int>, s: int)
    requires Slots(t, ConvKeys(mem)) && 0 <= s < |mem|
    ensures Slots(t, ConvKeys(mem[s := Free]))
  {}

  lemma ProbingUsed(mem: seq<Cell>, t: seq<int>, s: int, m: Msg)
    requires Slots(t, ConvKeys(mem)) && 0 <= s < |mem|
    ensures Slots(t, ConvKeys(mem[s := Used(m)]))
  {}

  lemma StaleInsert(mem: seq<Cell>, t: seq<int>, next: seq<int>, chains: map<string, seq<int>>, h: string -> nat,
          s: int, m: Msg, t': seq<int>, next': seq<int>)
    requires ConvView(mem, t, next, chains, h) && 0 <= s < |mem| == |next| && mem[s].Used?
    requires Relinked(t, t', next[s := -1], next', s, ConvKeys(mem[s := Used(m)]), KeyHash(h))
    ensures !Threads(mem[s := Used(m)], t', next', h)
  {
    hide ConvView;
    var keys := ConvKeys(mem[s := Used(m)]);
    var i :| EndsAt(t, keys, KeyHash(h), keys[s], i) && t' == t[i := s]
      && next' == next[s := -1][s := if t[i] < 0 then -1 else t[i]];
    assert next' == next[s := if t[i] < 0 then -1 else t[i]];
    StaleLink(mem, t, next, chains, h, s, m, i);
  }

  // The probe for key k ends at table slot i.
  ghost predicate EndsAt(t: seq<int>, keys: seq<Key>, h: Key -> nat, k: Key, i: int) {
    0 <= i < |t| && t[i] < |keys| && Passed(t, keys, h, k, i) && (t[i] < 0 || keys[t[i]] == k)
  }

  // Linking slot s: it goes where the probe for its key ends, in front of what was there.
  ghost predicate Relinked(t: seq<int>, t': seq<int>, next: seq<int>, next': seq<int>, s: int, keys: seq<Key>,
          h: Key -> nat)
    requires 0 <= s < |next| && s < |keys|
  {
    exists i :: EndsAt(t, keys, h, keys[s], i) && t' == t[i := s] && next' == next[s := if t[i] < 0 then -1 else t[i]]
  }

  // ----- a pull that never ends -----

  // The slot that n steps along the links lead to.
  ghost function Follow(next: seq<int>, s: int, n: nat): int {
    if n == 0 then s else var x := Follow(next, s, n - 1); if 0 <= x < |next| then next[x] else -1
  }

  // The walk over the chain of c never comes to an end.
  ghost predicate Endless(mem: seq<Cell>, t: seq<int>, next: seq<int>, c: string, h: string -> nat) {
    exists i :: EndsAt(t, ConvKeys(mem), KeyHash(h), Some(c), i) && forall n: nat :: Follow(next, t[i], n) >= 0
  }

  // From the last of the slots ch, which leads back to the first, the links go round.
  lemma {:induction false} Round(next: seq<int>, ch: seq<int>, n: nat) returns (p: int)
    requires ch != [] && forall i :: 0 <= i < |ch| ==> 0 <= ch[i] < |next|
    requires forall i :: 0 <= i < |ch| ==> next[ch[i]] == ch[if i + 1 < |ch| then i + 1 else 0]
    ensures 0 <= p < |ch| && Follow(next, ch[|ch| - 1], n) == ch[p]
  {
    if n == 0 { p := |ch| - 1; } else {
      var q := Round(next, ch, n - 1);
      p := if q + 1 < |ch| then q + 1 else 0;
    }
  }

  // A message without a conversation id that takes the slot of another such message closes the chain into a ring.
  lemma RingClosed(mem: seq<Cell>, t: seq<int>, next: seq<int>, chains: map<string, seq<int>>, h: string -> nat, s: int,
          i: int, next': seq<int>)
    requires ConvView(mem, t, next, chains, h) && 0 <= s < |mem| && mem[s].Used? && mem[s].msg.conv == ""
    requires EndsAt(t, ConvKeys(mem), KeyHash(h), Some(""), i)
    requires next' == next[s := if t[i] < 0 then -1 else t[i]]
    ensures forall n: nat :: Follow(next', s, n) >= 0
  {
    hide Table, Passed;
    var q := SlotAt(mem, t, next, chains, h, s);
    ProbeHead(mem, t, next, chains, h, "", i);
    var ch := chains[""][..q + 1];
    forall p | 0 <= p < |ch|
      ensures 0 <= ch[p] < |next'| && next'[ch[p]] == ch[if p + 1 < |ch| then p + 1 else 0]
    {
      WalkStep(mem, t, next, chains, h, "", p);
      SameSlot(mem, t, next, chains, h, "", p, q);
    }
    forall n: nat ensures Follow(next', s, n) >= 0 { var p := Round(next', ch, n); }
  }

  lemma ProbeHead(mem: seq<Cell>, t: seq<int>, next: seq<int>, chains: map<string, seq<int>>, h: string -> nat,
          c: string, i: int)
    requires ConvView(mem, t, next, chains, h) && c in chains && EndsAt(t, ConvKeys(mem), KeyHash(h), Some(c), i)
    ensures |chains[c]| > 0 && t[i] == chains[c][0]
  {
    if t[i] < 0 { NotFurther(t, ConvKeys(mem), KeyHash(h), Some(c), i); }
    HeadFound(mem, t, next, chains, h, c, i);
  }

  lemma EndlessInsert(mem: seq<Cell>, t: seq<int>, next: seq<int>, chains: map<string, seq<int>>, h: string -> nat,
          s: int, m: Msg, t': seq<int>, next': seq<int>)
    requires ConvView(mem, t, next, chains, h) && 0 <= s < |mem| == |next| && mem[s].Used? && mem[s].msg.conv == ""
    requires m.conv == "" && Relinked(t, t', next[s := -1], next', s, ConvKeys(mem[s := Used(m)]), KeyHash(h))
    ensures Endless(mem[s := Used(m)], t', next', "", h)
  {
    hide ConvView;
    var keys := ConvKeys(mem[s := Used(m)]);
    assert keys == ConvKeys(mem);
    var i :| EndsAt(t, keys, KeyHash(h), keys[s], i) && t' == t[i := s]
      && next' == next[s := -1][s := if t[i] < 0 then -1 else t[i]];
    assert next' == next[s := if t[i] < 0 then -1 else t[i]];
    RingClosed(mem, t, next, chains, h, s, i, next');
    assert EndsAt(t', keys, KeyHash(h), Some(""), i);
  }

  // The live message with this id, if any, names a conversation.
  ghost predicate Named(mem: seq<Cell>, id: string) {
    forall s :: 0 <= s < |mem| && mem[s].Used? && mem[s].msg.id == id ==> mem[s].msg.conv != ""
  }

  // Such a message gets into a fresh store, where all views agree, and then no delete takes it off its chain.
  lemma UnnamedReached(cap: int, it: seq<int>, ct: seq<int>, h: string -> nat, m: Msg, p: int)
    requires 0 < cap < |it| && cap < |ct| && (forall i :: 0 <= i < |it| ==> it[i] == -1) && m.conv == ""
    requires (forall i :: 0 <= i < |ct| ==> ct[i] == -1) && FirstEmpty(ct, KeyHash(h), Some(""), p)
    ensures var mem, t, next := FreshPool(cap).mem[0 := Used(m)], ct[p := 0], seq(cap, _ => -1);
      ConvView(mem, t, next, map["" := [0]], h) && !Threads(mem[0 := Free], t, next[0 := -1], h)
  {
    var mem0, next := FreshPool(cap).mem, seq(cap, _ => -1);
    FreshViews(cap, it, ct, h);
    LinkNew(mem0, ct, next, map[], h, 0, m, p);
    assert next[0 := -1] == next && map[]["" := [0]] == map["" := [0]];
    EmptyConvStays(mem0[0 := Used(m)], ct[p := 0], next, map["" := [0]], h, 0);
  }

  class Store {
    const h: string -> nat
    const idHash: array<int>
    const convHash: array<int>
    var mem: seq<Cell>
    var count: int
    var free: seq<int>
    var next: seq<int>
    var cursor: int
    ghost var chains: map<string, seq<int>>

    // All views agree.
    ghost predicate Valid()
      reads this, idHash, convHash
    { Kept() && ConvView(mem, convHash[..], next, chains, h) }

    // All views but the chains agree.
    ghost predicate Kept()
      reads this, idHash, convHash
    {
      && idHash != convHash && 0 <= cursor < |mem| == |next| < convHash.Length
      && FreeView(mem, free, count) && IdView(mem, idHash[..], h)
    }

    ghost predicate Threaded()
      reads this, convHash
    { Threads(mem, convHash[..], next, h) }

    // The server uses 8192 slots and 16384 buckets in each table.
    constructor (h: string -> nat, cap: int, idBuckets: int, convBuckets: int)
      requires 0 < cap < idBuckets && cap < convBuckets
      ensures Valid() && Pool(mem, free, cursor) == FreshPool(cap) && fresh(idHash) && fresh(convHash)
    {
      this.h := h;
      var it, ct := new int[idBuckets](_ => -1), new int[convBuckets](_ => -1);
      idHash, convHash := it, ct;
      mem, next := seq(cap, _ => Free), seq(cap, _ => -1);
      free, count, cursor, chains := seq(cap, i => cap - 1 - i), 0, 0, map[];
      new;
      FreshViews(cap, it[..], ct[..], h);
    }

    // Links a slot in front of its conversation's chain; m0 is what the chains hold so far if they are in order.
    method ConvLink(slot: int, ghost m0: seq<Cell>, ghost ordered: bool)
      requires Slots(convHash[..], ConvKeys(mem)) && -1 in convHash[..] && 0 <= slot < |mem| == |next|
      requires mem[slot].Used?
      requires ordered ==> ConvView(m0, convHash[..], next, chains, h) && Agrees(m0, mem) && m0[slot].Free?
      modifies this`next, this`chains, convHash
      ensures |next| == |mem|
      ensures Relinked(old(convHash[..]), convHash[..], old(next), next, slot, ConvKeys(mem), KeyHash(h))
      ensures ordered ==> ConvView(m0[slot := mem[slot]], convHash[..], next, chains, h)
      ensures ordered ==> InFront(old(chains), chains, mem[slot].msg.conv, slot)
    {
      hide ConvView, Table, FirstEmpty, Absent, Slots, Passed;
      ghost var t, m := convHash[..], mem[slot].msg;
      var i := Scan(convHash, ConvKeys(mem), KeyHash(h), Some(mem[slot].msg.conv));
      if ordered {
        LinkReady(m0, mem, t, next, chains, h, slot);
        if convHash[i] < 0 {
          NotFurther(t, ConvKeys(mem), KeyHash(h), Some(m.conv), i);
          LinkNew(m0, t, next, chains, h, slot, m, i);
          chains := chains[m.conv := [slot]];
        } else {
          LinkOld(m0, t, next, chains, h, slot, m, i);
          chains := chains[m.conv := [slot] + chains[m.conv]];
        }
      }
      next := next[slot := if convHash[i] < 0 then -1 else convHash[i]];
      convHash[i] := slot;
      assert convHash[..] == t[i := slot];
    }

    // Takes a slot off its conversation's chain, repairing the head table when the chain ends. A slot without a
    // conversation id stays where it is.
    method ConvUnlink(slot: int)
      requires ConvView(mem, convHash[..], next, chains, h) && 0 <= slot < |mem| && mem[slot].Used?
      modifies this`next, this`chains, convHash
      ensures |next| == |mem|
      ensures mem[slot].msg.conv != "" ==> ConvView(mem[slot := Free], convHash[..], next, chains, h)
      ensures mem[slot].msg.conv != "" ==> Left(old(chains), chains, slot)
      ensures mem[slot].msg.conv == "" ==> !Threads(mem[slot := Free], convHash[..], next, h)
      ensures mem[slot].msg.conv == "" ==> convHash[..] == old(convHash[..]) && next == old(next)[slot := -1]
    {
      hide ConvView;
      var cid := mem[slot].msg.conv;
      ViewSize(mem, convHash[..], next, chains, h);
      if cid == "" {
        EmptyConvStays(mem, convHash[..], next, chains, h, slot);
        next := next[slot := -1];
      } else {
        ConvSplice(slot);
      }
    }

    method ConvSplice(slot: int)
      requires ConvView(mem, convHash[..], next, chains, h) && 0 <= slot < |mem| && mem[slot].Used?
      modifies this`next, this`chains, convHash
      ensures ConvView(mem[slot := Free], convHash[..], next, chains, h) && |next| == |mem|
      ensures Left(old(chains), chains, slot)
    {
      hide ConvView, Table, FirstEmpty, Absent, Moved, Slots, Chain, Left;
      var cid := mem[slot].msg.conv;
      ghost var t := convHash[..];
      ViewSize(mem, t, next, chains, h);
      ghost var q := SlotAt(mem, t, next, chains, h, slot);
      var i := Locate(convHash, ConvKeys(mem), KeyHash(h), Some(cid));
      HeadFound(mem, t, next, chains, h, cid, i);
      SameSlot(mem, t, next, chains, h, cid, 0, q);
      CutLeft(mem, t, next, chains, h, slot, q, Cutting(chains, cid, q));
      var head := convHash[i];
      if head == slot {
        if next[slot] >= 0 {
          UnlinkHead(mem, t, next, chains, h, slot, i);
          convHash[i] := next[slot];
          assert convHash[..] == t[i := next[slot]];
          assert chains[cid][..0] + chains[cid][1..] == chains[cid][1..];
          chains := chains[cid := chains[cid][1..]];
        } else {
          RemoveAt(convHash, ConvKeys(mem), KeyHash(h), i);
          SoleSlot(mem, t, next, chains, h, slot);
          UnlinkOnly(mem, t, next, chains, h, slot, convHash[..]);
          chains := chains - {cid};
        }
        next := next[slot := -1];
        return;
      }
      var prev, cur := head, next[head];
      ghost var p := 0;
      WalkStep(mem, t, next, chains, h, cid, 0);
      while cur != slot
        invariant next == old(next) && chains == old(chains) && convHash[..] == t
        invariant 0 <= p < q && prev == chains[cid][p] && cur == chains[cid][p + 1]
        decreases q - p
      {
        WalkStep(mem, t, next, chains, h, cid, p + 1);
        SameSlot(mem, t, next, chains, h, cid, p + 1, q);
        prev, cur := cur, next[cur];
        p := p + 1;
      }
      SameSlot(mem, t, next, chains, h, cid, p + 1, q);
      UnlinkInner(mem, t, next, chains, h, slot, q);
      next := next[prev := next[slot]][slot := -1];
      chains := chains[cid := chains[cid][..q] + chains[cid][q + 1..]];
    }

    // Frees a slot without touching the chains: drops it from the id index and pushes it on the free stack.
    method FreeRaw(slot: int)
      requires FreeView(mem, free, count) && IdView(mem, idHash[..], h) && 0 <= slot < |mem| && mem[slot].Used?
      modifies this`mem, this`count, this`free, idHash
      ensures mem == old(mem)[slot := Free] && free == old(free) + [slot] && count == old(count) - 1
      ensures FreeView(mem, free, count) && IdView(mem, idHash[..], h)
    {
      hide FreeView, IdView, Table, Absent, Moved, FirstEmpty, Slots;
      ghost var t := idHash[..];
      FreeRoom(mem, free, count, slot);
      IdTable(mem, t, h, slot);
      ghost var gone := Remove(idHash, IdKeys(mem), KeyHash(h), Some(mem[slot].msg.id));
      IdGone(mem, t, h, slot, gone, idHash[..]);
      Push(mem, free, count, slot);
      mem := mem[slot := Free];
      count := if count >= 1 then count - 1 else 0;
      if |free| < |mem| { free := free + [slot]; }
    }

    method FreeSlot(slot: int)
      requires Valid() && 0 <= slot < |mem| && mem[slot].Used?
      modifies this`mem, this`count, this`free, this`next, this`chains, idHash, convHash
      ensures Kept() && mem == old(mem)[slot := Free] && free == old(free) + [slot] && count == old(count) - 1
      ensures Valid() <==> old(mem)[slot].msg.conv != ""
      ensures Valid() ==> Left(old(chains), chains, slot)
      ensures Threaded() <==> old(mem)[slot].msg.conv != ""
      ensures old(mem)[slot].msg.conv == "" ==> convHash[..] == old(convHash[..]) && next == old(next)[slot := -1]
    {
      hide FreeView, IdView, ConvView;
      ConvUnlink(slot);
      FreeRaw(slot);
    }

    // The id is fresh, as generated ids are; a non-positive time means now. The chains stay right exactly if no
    // message without a conversation is evicted. If another such message takes its place, walking them never ends.
    method Insert(id: string, conv: string, sender: string, contentType: int, content: string, sendTime: int,
            seqNo: int, now: int)
      returns (slot: int)
      requires Valid() && FreshId(mem, id)
      modifies this`mem, this`count, this`free, this`next, this`chains, this`cursor, idHash, convHash
      ensures Kept() && PoolOk(old(Pool(mem, free, cursor))) && slot == Slot(old(Pool(mem, free, cursor)))
      ensures Pool(mem, free, cursor) ==
        Inserted(old(Pool(mem, free, cursor)),
          Msg(id, conv, sender, content, contentType, if sendTime > 0 then sendTime else now, seqNo, 1))
      ensures Valid() <==> old(|free| > 0 || (mem[cursor].Used? && mem[cursor].msg.conv != ""))
      ensures Threaded() <==> old(|free| > 0 || (mem[cursor].Used? && mem[cursor].msg.conv != ""))
      ensures conv == "" && old(|free| == 0 && mem[cursor].Used? && mem[cursor].msg.conv == "") ==>
        Endless(mem, convHash[..], next, "", h)
      ensures Valid() ==> Relisted(old(chains), chains, conv, slot)
    {
      hide FreeView, IdView, ConvView, Table, Absent, FirstEmpty, Slots, Relinked, Endless, Left, InFront, Relisted;
      PoolFacts(mem, free, count, cursor);
      ghost var m0, t, nx, ch := mem, convHash[..], next, chains;
      ghost var ordered := true;
      Probing(m0, t, nx, ch, h);
      if |free| == 0 {
        slot := cursor;
        cursor := (cursor + 1) % |mem|;
        ordered := mem[slot].msg.conv != "";
        FreeSlot(slot);
        if ordered { Probing(mem, convHash[..], next, chains, h); } else { ProbingFreed(m0, t, slot); }
        assert FreshId(mem, id);
        assert mem[slot := Free] == mem;
      }
      slot := free[|free| - 1];
      var m := Msg(id, conv, sender, content, contentType, if sendTime > 0 then sendTime else now, seqNo, 1);
      if |old(free)| > 0 { FreeOnTop(mem, free, count); Unchained(mem, convHash[..], next, chains, h, slot); }
      ghost var ch1 := chains;
      Place(slot, m, ordered);
      if ordered { RelistedBy(ch, ch1, chains, conv, slot); }
      assert |old(free)| == 0 ==> mem == m0[old(cursor) := Used(m)];
      if !ordered {
        StaleInsert(m0, t, nx, ch, h, slot, m, convHash[..], next);
        if conv == "" { EndlessInsert(m0, t, nx, ch, h, slot, m, convHash[..], next); }
      }
    }

    // Fills the slot on top of the free stack and enters it in both indexes.
    method Place(slot: int, m: Msg, ghost ordered: bool)
      requires Kept() && |free| > 0 && slot == free[|free| - 1] && FreshId(mem, m.id)
      requires Slots(convHash[..], ConvKeys(mem)) && -1 in convHash[..]
      requires ordered ==> ConvView(mem, convHash[..], next, chains, h)
      modifies this`mem, this`count, this`free, this`next, this`chains, idHash, convHash
      ensures Kept() && 0 <= slot < |mem| && mem == old(mem)[slot := Used(m)] && free == old(free)[..|old(free)| - 1]
      ensures count == old(count) + 1 && (ordered ==> Valid() && InFront(old(chains), chains, m.conv, slot))
      ensures Relinked(old(convHash[..]), convHash[..], old(next), next, slot, ConvKeys(mem), KeyHash(h))
    {
      hide FreeView, IdView, ConvView, Table, Absent, FirstEmpty, Slots, Relinked;
      ghost var m0, t := mem, idHash[..];
      Pop(mem, free, count, m);
      IdOff(mem, t, h, slot, m);
      ProbingUsed(mem, convHash[..], slot, m);
      mem := mem[slot := Used(m)];
      free := free[..|free| - 1];
      count := count + 1;
      var i := Locate(idHash, IdKeys(mem), KeyHash(h), Some(m.id));
      IdEmpty(t, IdKeys(mem), h, m.id, i);
      IdInsert(m0, t, h, slot, m, i);
      idHash[i] := slot;
      assert idHash[..] == t[i := slot];
      ConvLink(slot, m0, ordered);
      assert m0[slot := mem[slot]] == mem;
    }

    // The slot of the live message with this id, or -1.
    method MemFind(id: string) returns (slot: int)
      requires Kept()
      ensures slot == -1 ==> FreshId(mem, id)
      ensures slot != -1 ==> 0 <= slot < |mem| && mem[slot].Used? && mem[slot].msg.id == id
      ensures slot != -1 ==> forall s :: 0 <= s < |mem| && s != slot && mem[s].Used? ==> mem[s].msg.id != id
    {
      hide FreeView, IdView, ConvView, Table, Absent, FirstEmpty, Slots;
      IdsFound(mem, idHash[..], h, id);
      var i := Locate(idHash, IdKeys(mem), KeyHash(h), Some(id));
      slot := if idHash[i] < 0 then -1 else idHash[i];
      if slot >= 0 { OnlyId(mem, idHash[..], h, slot); }
    }

    method FindOne(id: string) returns (r: Option<Msg>)
      requires Kept()
      ensures r.Some? <==> !FreshId(mem, id)
      ensures r.Some? ==> r.value.id == id && Used(r.value) in mem
    {
      var slot := MemFind(id);
      r := if slot == -1 then None else Some(mem[slot].msg);
    }

    // The chains stay right exactly if the message names its conversation.
    method Delete(id: string)
      requires Valid()
      modifies this`mem, this`count, this`free, this`next, this`chains, idHash, convHash
      ensures Kept() && |mem| == |old(mem)| && (Valid() <==> Named(old(mem), id))
      ensures Threaded() <==> Named(old(mem), id)
      ensures forall s :: 0 <= s < |mem| ==>
        mem[s] == if old(mem)[s].Used? && old(mem)[s].msg.id == id then Free else old(mem)[s]
      ensures Named(old(mem), id) ==>
        forall s :: 0 <= s < |mem| && old(mem)[s].Used? && old(mem)[s].msg.id == id ==> Left(old(chains), chains, s)
    {
      hide FreeView, IdView, ConvView;
      var slot := MemFind(id);
      if slot != -1 { FreeSlot(slot); }
    }

    method UpdateStatus(id: string, status: int)
      requires Kept()
      modifies this`mem
      ensures Kept() && (old(Valid()) ==> Valid()) && |mem| == |old(mem)|
      ensures forall s :: 0 <= s < |mem| ==>
        mem[s] ==
          if old(mem)[s].Free? || old(mem)[s].msg.id != id then old(mem)[s]
          else Used(old(mem)[s].msg.(status := status))
    {
      hide FreeView, IdView, ConvView;
      var slot := MemFind(id);
      if slot != -1 {
        StatusKeeps(mem, free, count, idHash[..], h, slot, status);
        if Valid() { StatusChains(mem, convHash[..], next, chains, h, slot, status); }
        mem := mem[slot := Used(mem[slot].msg.(status := status))];
      }
    }

    // Links every used slot again from scratch.
    method Rebuild()
      requires |next| == |mem| < convHash.Length
      modifies this`next, this`chains, convHash
      ensures ConvView(mem, convHash[..], next, chains, h) && |next| == |mem| && Descending(chains, |mem|)
    {
      hide ConvView, Masked, Agrees, Slots, Table, Relinked, Descending, Below, InFront;
      for i := 0 to convHash.Length
        invariant forall k :: 0 <= k < i ==> convHash[k] == -1
      {
        convHash[i] := -1;
      }
      next := seq(|mem|, _ => -1);
      chains := map[];
      NothingLinked(mem, convHash[..], next, h);
      assert Descending(chains, 0) && Below(chains, 0) by { NoChains(); }
      for slot := 0 to |mem|
        invariant ConvView(Masked(mem, slot), convHash[..], next, chains, h) && |next| == |mem|
        invariant Descending(chains, slot) && Below(chains, slot)
      {
        MaskStep(mem, slot);
        if mem[slot].Used? {
          RebuildReady(mem, slot, convHash[..], next, chains, h);
          ghost var cs := chains;
          ConvLink(slot, Masked(mem, slot), true);
          DescendingPush(cs, chains, mem[slot].msg.conv, slot);
        } else {
          DescendingWider(chains, slot);
        }
      }
      MaskFull(mem);
    }

    // Frees every message that `drop` selects, then rebuilds the chains if any went, which sets them right whatever
    // state they were in.
    method RemoveWhere(drop: Msg -> bool) returns (removed: int)
      requires Kept()
      modifies this`mem, this`count, this`free, this`next, this`chains, idHash, convHash
      ensures Kept() && |mem| == |old(mem)| && removed == old(count) - count >= 0
      ensures removed > 0 || old(Valid()) ==> Valid()
      ensures if removed > 0 then Descending(chains, |mem|) else chains == old(chains)
      ensures forall s :: 0 <= s < |mem| ==>
        mem[s] == if old(mem)[s].Used? && drop(old(mem)[s].msg) then Free else old(mem)[s]
    {
      hide FreeView, IdView, ConvView;
      removed := 0;
      for i := 0 to |mem|
        invariant |mem| == |old(mem)| == |next| && FreeView(mem, free, count) && IdView(mem, idHash[..], h)
        invariant removed == old(count) - count
        invariant removed == 0 ==> mem == old(mem)
        invariant removed >= 0 && next == old(next) && chains == old(chains) && convHash[..] == old(convHash[..])
        invariant forall s :: 0 <= s < |mem| ==>
          mem[s] == if s < i && old(mem)[s].Used? && drop(old(mem)[s].msg) then Free else old(mem)[s]
      {
        if mem[i].Used? && drop(mem[i].msg) {
          FreeRaw(i);
          removed := removed + 1;
        }
      }
      if removed != 0 { Rebuild(); }
    }

    method PurgeOlderThan(cutoff: int) returns (removed: int)
      requires Kept()
      modifies this`mem, this`count, this`free, this`next, this`chains, idHash, convHash
      ensures Kept() && |mem| == |old(mem)| && removed == old(count) - count >= 0
      ensures removed > 0 || old(Valid()) ==> Valid()
      ensures forall s :: 0 <= s < |mem| ==>
        mem[s] == if old(mem)[s].Used? && old(mem)[s].msg.sendTime < cutoff then Free else old(mem)[s]
    {
      removed := RemoveWhere((m: Msg) => m.sendTime < cutoff);
    }

    method ClearUser(user: string) returns (removed: int)
      requires Kept()
      modifies this`mem, this`count, this`free, this`next, this`chains, idHash, convHash
      ensures Kept() && |mem| == |old(mem)| && removed == old(count) - count >= 0
      ensures removed > 0 || old(Valid()) ==> Valid()
      ensures forall s :: 0 <= s < |mem| ==>
        mem[s] == if old(mem)[s].Used? && old(mem)[s].msg.sender == user then Free else old(mem)[s]
    {
      removed := RemoveWhere((m: Msg) => m.sender == user);
    }

    // Walks the chain of one conversation, keeping what lies in the range of sequence numbers, in chain order.
    method FindByConv(conv: string, start: int, end: int) returns (r: seq<Msg>)
      requires Valid()
      ensures forall m :: m in r <==>
        Used(m) in mem && m.conv == conv && start <= m.seqNo && (end <= 0 || m.seqNo <= end)
      ensures DistinctIds(r)
      ensures Slotted(mem, ChainOf(chains, conv)) && r == Picked(mem, ChainOf(chains, conv), start, end)
    {
      hide FreeView, IdView, ConvView, Table, Absent, FirstEmpty, Slots, Chain, InChain;
      ghost var t := convHash[..];
      ChainFacts(mem, idHash[..], t, next, chains, h, conv);
      ViewSize(mem, t, next, chains, h);
      var i := Locate(convHash, ConvKeys(mem), KeyHash(h), Some(conv));
      HeadFound(mem, t, next, chains, h, conv, i);
      r := [];
      var slot := if convHash[i] < 0 then -1 else convHash[i];
      ghost var ch, p := ChainOf(chains, conv), 0;
      while slot >= 0
        invariant 0 <= p <= |ch| && slot == (if p < |ch| then ch[p] else -1)
        invariant Slotted(mem, ch[..p]) && r == Picked(mem, ch[..p], start, end)
        decreases |ch| - p
      {
        WalkStep(mem, t, next, chains, h, conv, p);
        PickedStep(mem, ch, p, start, end);
        if InRange(mem[slot].msg, start, end) { r := r + [mem[slot].msg]; }
        slot := next[slot];
        p := p + 1;
      }
      assert ch[..p] == ch;
      PickedMembers(mem, ch, start, end);
      PickedDistinct(mem, ch, start, end);
    }
  }

  // The shortest run that breaks the chains: store one message without a conversation and delete it.
  method UnnamedDeletion(h: string -> nat, cap: int, idBuckets: int, convBuckets: int, id: string, sender: string,
          content: string, now: int)
    returns (store: Store)
    requires 0 < cap < idBuckets && cap < convBuckets
    ensures fresh(store) && |store.mem| == cap && store.Kept() && !store.Threaded()
  {
    hide FreeView, IdView, ConvView;
    store := new Store(h, cap, idBuckets, convBuckets);
    var slot := store.Insert(id, "", sender, 0, content, 0, 1, now);
    assert store.mem[slot].msg.id == id;
    store.Delete(id);
  }

  // The pool after the first messages without a conversation: all of them are there, and nothing else.
  ghost predicate Unnamed(mem: seq<Cell>, ids: seq<string>, n: int)
    requires n <= |ids|
  {
    forall s :: 0 <= s < |mem| && mem[s].Used? ==>
      mem[s].msg.conv == "" && exists i :: 0 <= i < n && ids[i] == mem[s].msg.id
  }

  // One message without a conversation more than the store has slots, and a pull of that conversation never ends.
  method UnnamedOverflow(h: string -> nat, cap: int, idBuckets: int, convBuckets: int, ids: seq<string>, sender: string,
          content: string, now: int)
    returns (store: Store)
    requires 0 < cap < idBuckets && cap < convBuckets && |ids| == cap + 1 && Different(ids)
    ensures fresh(store) && |store.mem| == cap && Endless(store.mem, store.convHash[..], store.next, "", store.h)
  {
    hide FreeView, IdView, ConvView, Endless;
    store := new Store(h, cap, idBuckets, convBuckets);
    for i := 0 to cap
      invariant fresh(store) && fresh(store.idHash) && fresh(store.convHash) && store.Valid()
      invariant |store.mem| == cap && |store.free| == cap - i && Unnamed(store.mem, ids, i)
    {
      var slot := store.Insert(ids[i], "", sender, 0, content, 0, 1, now);
    }
    PoolFacts(store.mem, store.free, store.count, store.cursor);
    var slot := store.Insert(ids[cap], "", sender, 0, content, 0, 1, now);
  }

  lemma ViewSize(mem: seq<Cell>, t: seq<int>, next: seq<int>, chains: map<string, seq<int>>, h: string -> nat)
    requires ConvView(mem, t, next, chains, h)
    ensures |next| == |mem| < |t|
  {}
}
