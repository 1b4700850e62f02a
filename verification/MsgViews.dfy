// The views of the message store: the slot pool, the free stack, the id index and the conversation chains.
module MsgViews {
  import opened Basics
  import opened Probe

  type Key = Option<string>

  datatype Msg = Msg(id: string, conv: string, sender: string, content: string, contentType: int, sendTime: int,
    seqNo: int, status: int)

  datatype Cell = Free | Used(msg: Msg)

  function IdKeys(mem: seq<Cell>): (r: seq<Key>)
    ensures |r| == |mem| && forall i :: 0 <= i < |r| ==> r[i] == if mem[i].Used? then Some(mem[i].msg.id) else None
  { seq(|mem|, i requires 0 <= i < |mem| => if mem[i].Used? then Some(mem[i].msg.id) else None) }

  function ConvKeys(mem: seq<Cell>): (r: seq<Key>)
    ensures |r| == |mem| && forall i :: 0 <= i < |r| ==> r[i] == if mem[i].Used? then Some(mem[i].msg.conv) else None
  { seq(|mem|, i requires 0 <= i < |mem| => if mem[i].Used? then Some(mem[i].msg.conv) else None) }

  function KeyHash(h: string -> nat): Key -> nat {
    (k: Key) => if k.Some? then h(k.value) else 0
  }

  // ----- the id index lists exactly the used slots -----

  ghost predicate IdView(mem: seq<Cell>, t: seq<int>, h: string -> nat) {
    && |t| > |mem| && Table(t, IdKeys(mem), KeyHash(h))
    && forall s :: 0 <= s < |mem| ==> (mem[s].Used? <==> s in t)
  }

  ghost predicate FreshId(mem: seq<Cell>, id: string) {
    forall s :: 0 <= s < |mem| && mem[s].Used? ==> mem[s].msg.id != id
  }

  lemma IdsDistinct(mem: seq<Cell>, t: seq<int>, h: string -> nat, a: int, b: int)
    requires IdView(mem, t, h) && 0 <= a < |mem| && 0 <= b < |mem| && mem[a].Used? && mem[b].Used?
    requires mem[a].msg.id == mem[b].msg.id
    ensures a == b
  {
    assert a in t && b in t;
    var i :| 0 <= i < |t| && t[i] == a;
    var j :| 0 <= j < |t| && t[j] == b;
  }

  // A change to a slot that no table slot refers to.
  lemma TableOff(t: seq<int>, keys: seq<Key>, keys': seq<Key>, h: Key -> nat, s: int)
    requires Table(t, keys, h) && |keys| == |keys'| && s !in t
    requires forall i :: 0 <= i < |keys| && i != s ==> keys[i] == keys'[i]
    ensures Table(t, keys', h)
  {
    forall i | 0 <= i < |t| && t[i] >= 0 ensures keys[t[i]] == keys'[t[i]] { assert t[i] in t; }
    TableAgree(t, keys, keys', h);
  }

  lemma IdOff(mem: seq<Cell>, t: seq<int>, h: string -> nat, s: int, m: Msg)
    requires IdView(mem, t, h) && 0 <= s < |mem| && mem[s].Free? && FreshId(mem, m.id)
    ensures Table(t, IdKeys(mem[s := Used(m)]), KeyHash(h)) && Absent(t, IdKeys(mem[s := Used(m)]), Some(m.id))
  {
    TableOff(t, IdKeys(mem), IdKeys(mem[s := Used(m)]), KeyHash(h), s);
    forall j | 0 <= j < |t| && t[j] >= 0
      ensures IdKeys(mem[s := Used(m)])[t[j]] != Some(m.id)
    {
      assert t[j] in t;
      assert mem[t[j]].Used?;
    }
  }

  lemma IdInsert(mem: seq<Cell>, t: seq<int>, h: string -> nat, s: int, m: Msg, p: int)
    requires IdView(mem, t, h) && 0 <= s < |mem| && mem[s].Free? && FreshId(mem, m.id)
    requires FirstEmpty(t, KeyHash(h), Some(m.id), p)
    ensures 0 <= p < |t| && IdView(mem[s := Used(m)], t[p := s], h)
  {
    hide Table, Absent, FirstEmpty;
    EmptySlot(t, KeyHash(h), Some(m.id), p);
    IdOff(mem, t, h, s, m);
    InsertTable(t, IdKeys(mem[s := Used(m)]), KeyHash(h), s, p);
    Swapped(t, p, s);
  }

  lemma EmptySlot(t: seq<int>, h: Key -> nat, k: Key, p: int)
    requires FirstEmpty(t, h, k, p)
    ensures 0 <= p < |t| && t[p] < 0
  {}

  lemma Swapped(t: seq<int>, p: int, s: int)
    requires 0 <= p < |t| && s >= 0
    ensures forall x :: x != t[p] ==> (x in t[p := s] <==> x in t || x == s)
    ensures s in t[p := s]
  {
    var t' := t[p := s];
    assert t'[p] == s;
    forall x | x != t[p] && x in t ensures x in t' { var i :| 0 <= i < |t| && t[i] == x; assert t'[i] == x; }
  }

  lemma IdRemove(mem: seq<Cell>, t: seq<int>, t': seq<int>, h: string -> nat, s: int, gone: int)
    requires IdView(mem, t, h) && 0 <= s < |mem| && mem[s].Used? && |t'| == |t| && Table(t', IdKeys(mem), KeyHash(h))
    requires gone in t && 0 <= gone < |mem| && IdKeys(mem)[gone] == Some(mem[s].msg.id)
    requires Moved(t, t', IdKeys(mem), KeyHash(h), gone)
    ensures IdView(mem[s := Free], t', h)
  {
    IdsDistinct(mem, t, h, s, gone);
    TableOff(t', IdKeys(mem), IdKeys(mem[s := Free]), KeyHash(h), s);
  }

  // ----- the free stack holds exactly the unused slots, each once -----

  function CountUsed(mem: seq<Cell>): (c: int)
    ensures 0 <= c <= |mem|
  { if mem == [] then 0 else CountUsed(mem[..|mem| - 1]) + if mem[|mem| - 1].Used? then 1 else 0 }

  lemma {:induction false} CountUpdate(mem: seq<Cell>, s: int, c: Cell)
    requires 0 <= s < |mem|
    ensures CountUsed(mem[s := c]) == CountUsed(mem) - (if mem[s].Used? then 1 else 0) + if c.Used? then 1 else 0
  {
    var n := |mem| - 1;
    if s == n { assert mem[s := c][..n] == mem[..n]; }
    else { CountUpdate(mem[..n], s, c); assert mem[s := c][..n] == mem[..n][s := c]; }
  }

  lemma {:induction false} AllUsed(mem: seq<Cell>, s: int)
    requires CountUsed(mem) == |mem| && 0 <= s < |mem|
    ensures mem[s].Used?
  {
    if s < |mem| - 1 { AllUsed(mem[..|mem| - 1], s); }
  }

  ghost predicate FreeView(mem: seq<Cell>, free: seq<int>, count: int) {
    && count == CountUsed(mem) && |free| == |mem| - count
    && (forall i :: 0 <= i < |free| ==> 0 <= free[i] < |mem|)
    && (forall i, j :: 0 <= i < j < |free| ==> free[i] != free[j])
    && (forall s :: 0 <= s < |mem| ==> (mem[s].Free? <==> s in free))
  }

  lemma Push(mem: seq<Cell>, free: seq<int>, count: int, s: int)
    requires FreeView(mem, free, count) && 0 <= s < |mem| && mem[s].Used?
    ensures FreeView(mem[s := Free], free + [s], count - 1)
  {
    CountUpdate(mem, s, Free);
  }

  lemma Pop(mem: seq<Cell>, free: seq<int>, count: int, m: Msg)
    requires FreeView(mem, free, count) && |free| > 0
    ensures var s := free[|free| - 1];
      0 <= s < |mem| && mem[s].Free? && FreeView(mem[s := Used(m)], free[..|free| - 1], count + 1)
  {
    var n := |free| - 1;
    var s := free[n];
    assert s in free;
    CountUpdate(mem, s, Used(m));
    forall x | x in free && x != s
      ensures x in free[..n]
    {
      var i :| 0 <= i < |free| && free[i] == x;
      assert free[..n][i] == x;
    }
    forall x | x in free[..n]
      ensures x in free && x != s
    {
      var i :| 0 <= i < n && free[..n][i] == x;
      assert free[i] == x;
    }
  }

  // ----- each conversation's chain -----

  ghost predicate Chain(mem: seq<Cell>, next: seq<int>, c: string, ch: seq<int>) {
    && |ch| > 0 && |next| == |mem|
    && (forall i :: 0 <= i < |ch| ==> 0 <= ch[i] < |mem| && mem[ch[i]].Used? && mem[ch[i]].msg.conv == c)
    && (forall i, j :: 0 <= i < j < |ch| ==> ch[i] != ch[j])
    && (forall i :: 0 <= i < |ch| - 1 ==> next[ch[i]] == ch[i + 1])
    && next[ch[|ch| - 1]] == -1
  }

  // The table holds the first slot of every chain, and the chains hold exactly the used slots.
  ghost predicate ConvView(mem: seq<Cell>, t: seq<int>, next: seq<int>, chains: map<string, seq<int>>,
          h: string -> nat)
  {
    && |t| > |mem| == |next| && Table(t, ConvKeys(mem), KeyHash(h))
    && (forall c :: c in chains ==> Chain(mem, next, c, chains[c]) && chains[c][0] in t)
    && (forall s :: 0 <= s < |mem| && mem[s].Used? ==> mem[s].msg.conv in chains && s in chains[mem[s].msg.conv])
    && (forall s :: s in t && s >= 0 ==> mem[s].Used? && mem[s].msg.conv in chains && s == chains[mem[s].msg.conv][0])
  }

  lemma ChainFrame(mem: seq<Cell>, next: seq<int>, mem': seq<Cell>, next': seq<int>, c: string, ch: seq<int>)
    requires Chain(mem, next, c, ch) && |mem'| == |mem| && |next'| == |next|
    requires forall i :: 0 <= i < |ch| ==> mem'[ch[i]] == mem[ch[i]] && next'[ch[i]] == next[ch[i]]
    ensures Chain(mem', next', c, ch)
  {}

  // Chains do not meet a slot that changes if none of them holds it.
  lemma OtherChains(mem: seq<Cell>, t: seq<int>, next: seq<int>, chains: map<string, seq<int>>, h: string -> nat,
          mem': seq<Cell>, next': seq<int>, c: string)
    requires ConvView(mem, t, next, chains, h) && |mem'| == |mem| && |next'| == |next|
    requires forall x :: 0 <= x < |mem| && mem[x].Used? && mem[x].msg.conv != c ==>
      mem'[x] == mem[x] && next'[x] == next[x]
    ensures forall d :: d in chains && d != c ==> Chain(mem', next', d, chains[d])
  {
    forall d | d in chains && d != c ensures Chain(mem', next', d, chains[d]) {
      assert Chain(mem, next, d, chains[d]);
      ChainFrame(mem, next, mem', next', d, chains[d]);
    }
  }

  lemma OffTable(mem: seq<Cell>, t: seq<int>, next: seq<int>, chains: map<string, seq<int>>, h: string -> nat, s: int,
          m: Msg)
    requires ConvView(mem, t, next, chains, h) && 0 <= s < |mem| && mem[s].Free?
    ensures s !in t && Table(t, ConvKeys(mem[s := Used(m)]), KeyHash(h))
  {
    TableOff(t, ConvKeys(mem), ConvKeys(mem[s := Used(m)]), KeyHash(h), s);
  }

  // conv_link where the conversation has no chain yet.
  lemma LinkNew(mem: seq<Cell>, t: seq<int>, next: seq<int>, chains: map<string, seq<int>>, h: string -> nat, s: int,
          m: Msg, p: int)
    requires ConvView(mem, t, next, chains, h) && 0 <= s < |mem| && mem[s].Free?
    requires Absent(t, ConvKeys(mem[s := Used(m)]), Some(m.conv)) && FirstEmpty(t, KeyHash(h), Some(m.conv), p)
    ensures 0 <= p < |t| && m.conv !in chains
    ensures ConvView(mem[s := Used(m)], t[p := s], next[s := -1], chains[m.conv := [s]], h)
  {
    hide FirstEmpty, Table, Absent, Chain;
    EmptySlot(t, KeyHash(h), Some(m.conv), p);
    OffTable(mem, t, next, chains, h, s, m);
    var mem', next', c := mem[s := Used(m)], next[s := -1], m.conv;
    NoChain(mem, t, next, chains, h, s, m);
    InsertTable(t, ConvKeys(mem'), KeyHash(h), s, p);
    Swapped(t, p, s);
    OtherChains(mem, t, next, chains, h, mem', next', c);
    assert Chain(mem', next', c, [s]) by { SingleChain(mem', next', s); }
  }

  lemma SingleChain(mem: seq<Cell>, next: seq<int>, s: int)
    requires 0 <= s < |mem| == |next| && mem[s].Used? && next[s] == -1
    ensures Chain(mem, next, mem[s].msg.conv, [s])
  {}

  lemma NoChain(mem: seq<Cell>, t: seq<int>, next: seq<int>, chains: map<string, seq<int>>, h: string -> nat, s: int,
          m: Msg)
    requires ConvView(mem, t, next, chains, h) && 0 <= s < |mem| && mem[s].Free?
    requires Slots(t, ConvKeys(mem[s := Used(m)])) && Absent(t, ConvKeys(mem[s := Used(m)]), Some(m.conv))
    ensures m.conv !in chains
  {
    if m.conv in chains {
      var i := HeadListed(mem, t, next, chains, h, m.conv);
    }
  }

  lemma HeadListed(mem: seq<Cell>, t: seq<int>, next: seq<int>, chains: map<string, seq<int>>, h: string -> nat,
          c: string) returns (i: int)
    requires ConvView(mem, t, next, chains, h) && c in chains
    ensures 0 <= i < |t| && |chains[c]| > 0 && t[i] == chains[c][0] && 0 <= t[i] < |mem| && mem[t[i]].Used?
    ensures mem[t[i]].msg.conv == c
  {
    assert Chain(mem, next, c, chains[c]) && chains[c][0] in t;
    i :| 0 <= i < |t| && t[i] == chains[c][0];
  }

  // conv_link in front of an existing chain, whose head sits in table slot i.
  lemma LinkOld(mem: seq<Cell>, t: seq<int>, next: seq<int>, chains: map<string, seq<int>>, h: string -> nat, s: int,
          m: Msg, i: int)
    requires ConvView(mem, t, next, chains, h) && 0 <= s < |mem| && mem[s].Free?
    requires 0 <= i < |t| && 0 <= t[i] < |mem| && ConvKeys(mem[s := Used(m)])[t[i]] == Some(m.conv)
    ensures m.conv in chains
    ensures ConvView(mem[s := Used(m)], t[i := s], next[s := t[i]], chains[m.conv := [s] + chains[m.conv]], h)
  {
    hide Table, Chain;
    OffTable(mem, t, next, chains, h, s, m);
    var mem', next', c, hd := mem[s := Used(m)], next[s := t[i]], m.conv, t[i];
    assert hd in t;
    ReplaceKeeps(t, ConvKeys(mem'), KeyHash(h), i, s);
    Swapped(t, i, s);
    OnlyOnce(t, ConvKeys(mem'), KeyHash(h), i, s);
    OtherChains(mem, t, next, chains, h, mem', next', c);
    ChainPush(mem, next, c, chains[c], s, m);
    HeadsUsed(mem, t, next, chains, h);
  }

  // A slot number occurs once in a table.
  lemma OnlyOnce(t: seq<int>, keys: seq<Key>, h: Key -> nat, i: int, s: int)
    requires Table(t, keys, h) && 0 <= i < |t| && t[i] >= 0 && s != t[i]
    ensures t[i] !in t[i := s]
  {}

  lemma ChainPush(mem: seq<Cell>, next: seq<int>, c: string, ch: seq<int>, s: int, m: Msg)
    requires Chain(mem, next, c, ch) && 0 <= s < |mem| && mem[s].Free? && m.conv == c
    ensures Chain(mem[s := Used(m)], next[s := ch[0]], c, [s] + ch)
  {}

  // The last slot of a chain leaves, and its table slot has been cleared and repaired.
  lemma UnlinkOnly(mem: seq<Cell>, t: seq<int>, next: seq<int>, chains: map<string, seq<int>>, h: string -> nat, s: int,
          t': seq<int>)
    requires ConvView(mem, t, next, chains, h) && 0 <= s < |mem| && mem[s].Used? && chains[mem[s].msg.conv] == [s]
    requires |t'| == |t| && Table(t', ConvKeys(mem), KeyHash(h)) && Moved(t, t', ConvKeys(mem), KeyHash(h), s)
    ensures ConvView(mem[s := Free], t', next[s := -1], chains - {mem[s].msg.conv}, h)
  {
    hide Table, Chain, OnPath;
    var c := mem[s].msg.conv;
    TableOff(t', ConvKeys(mem), ConvKeys(mem[s := Free]), KeyHash(h), s);
    OtherChains(mem, t, next, chains, h, mem[s := Free], next[s := -1], c);
    HeadsUsed(mem, t, next, chains, h);
    forall x | 0 <= x < |mem| && x != s && mem[x].Used?
      ensures mem[x].msg.conv != c
    {
      assert x in chains[mem[x].msg.conv];
    }
  }

  ghost predicate HeadOf(mem: seq<Cell>, t: seq<int>, d: string, ch: seq<int>) {
    |ch| > 0 && 0 <= ch[0] < |mem| && mem[ch[0]].Used? && mem[ch[0]].msg.conv == d && ch[0] in t
  }

  lemma HeadsUsed(mem: seq<Cell>, t: seq<int>, next: seq<int>, chains: map<string, seq<int>>, h: string -> nat)
    requires ConvView(mem, t, next, chains, h)
    ensures forall d :: d in chains ==> HeadOf(mem, t, d, chains[d])
  {
    forall d | d in chains ensures HeadOf(mem, t, d, chains[d]) { assert Chain(mem, next, d, chains[d]); }
  }

  // The head of a longer chain leaves; table slot i takes its successor.
  lemma UnlinkHead(mem: seq<Cell>, t: seq<int>, next: seq<int>, chains: map<string, seq<int>>, h: string -> nat, s: int,
          i: int)
    requires ConvView(mem, t, next, chains, h) && 0 <= s < |mem| && mem[s].Used? && 0 <= i < |t| && t[i] == s
    requires next[s] >= 0
    ensures var c := mem[s].msg.conv; |chains[c]| > 1
    ensures var c := mem[s].msg.conv;
      ConvView(mem[s := Free], t[i := next[s]], next[s := -1], chains[c := chains[c][1..]], h)
  {
    hide Table, Chain;
    var c, x := mem[s].msg.conv, next[s];
    assert s in t;
    ChainPop(mem, next, c, chains[c]) by { assert Chain(mem, next, c, chains[c]); }
    ReplaceKeeps(t, ConvKeys(mem), KeyHash(h), i, x);
    OnlyOnce(t, ConvKeys(mem), KeyHash(h), i, x);
    TableOff(t[i := x], ConvKeys(mem), ConvKeys(mem[s := Free]), KeyHash(h), s);
    Swapped(t, i, x);
    OtherChains(mem, t, next, chains, h, mem[s := Free], next[s := -1], c);
    HeadsUsed(mem, t, next, chains, h);
    forall y | 0 <= y < |mem| && y != s && mem[y].Used? && mem[y].msg.conv == c
      ensures y in chains[c][1..]
    {
      assert y in chains[c];
    }
  }

  lemma ChainPop(mem: seq<Cell>, next: seq<int>, c: string, ch: seq<int>)
    requires Chain(mem, next, c, ch) && next[ch[0]] >= 0
    ensures |ch| > 1 && next[ch[0]] == ch[1] != ch[0] && 0 <= ch[1] < |mem| && mem[ch[1]].Used?
    ensures mem[ch[1]].msg.conv == c
    ensures Chain(mem[ch[0] := Free], next[ch[0] := -1], c, ch[1..])
    ensures forall y :: y in ch && y != ch[0] ==> y in ch[1..]
  {}

  // A slot further down leaves its chain.
  lemma UnlinkInner(mem: seq<Cell>, t: seq<int>, next: seq<int>, chains: map<string, seq<int>>, h: string -> nat,
          s: int, p: int)
    requires ConvView(mem, t, next, chains, h) && 0 <= s < |mem| && mem[s].Used? && 0 < p < |chains[mem[s].msg.conv]|
    requires chains[mem[s].msg.conv][p] == s
    ensures var ch := chains[mem[s].msg.conv]; 0 <= ch[p - 1] < |mem|
    ensures var c := mem[s].msg.conv; var ch := chains[c];
      ConvView(mem[s := Free], t, next[ch[p - 1] := next[s]][s := -1], chains[c := ch[..p] + ch[p + 1..]], h)
  {
    hide Table, Chain;
    var c := mem[s].msg.conv;
    var ch := chains[c];
    ChainCut(mem, next, c, ch, p) by { assert Chain(mem, next, c, ch); }
    var next' := next[ch[p - 1] := next[s]][s := -1];
    HeadsUsed(mem, t, next, chains, h);
    assert s !in t;
    TableOff(t, ConvKeys(mem), ConvKeys(mem[s := Free]), KeyHash(h), s);
    OtherChains(mem, t, next, chains, h, mem[s := Free], next', c);
    forall y | 0 <= y < |mem| && y != s && mem[y].Used? && mem[y].msg.conv == c
      ensures y in ch[..p] + ch[p + 1..]
    {
      assert y in chains[c];
    }
  }

  lemma ChainCut(mem: seq<Cell>, next: seq<int>, c: string, ch: seq<int>, p: int)
    requires Chain(mem, next, c, ch) && 0 < p < |ch|
    ensures 0 <= ch[p - 1] < |mem| && mem[ch[p - 1]].Used? && mem[ch[p - 1]].msg.conv == c && ch[p] != ch[0]
    ensures Chain(mem[ch[p] := Free], next[ch[p - 1] := next[ch[p]]][ch[p] := -1], c, ch[..p] + ch[p + 1..])
    ensures forall y :: y in ch && y != ch[p] ==> y in ch[..p] + ch[p + 1..]
  {
    var ch' := ch[..p] + ch[p + 1..];
    forall y | y in ch && y != ch[p]
      ensures y in ch'
    {
      var i :| 0 <= i < |ch| && ch[i] == y;
      assert ch'[if i < p then i else i - 1] == y;
    }
  }
}
