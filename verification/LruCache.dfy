// The cache: a doubly linked list between two sentinels, and a hash map from keys to list nodes.
module LruCache {
  import opened Basics
  import opened LruSpec
  import opened LruUse
  import HashMap

  const HEAD := 0
  const TAIL := 1

  // o lists the nodes from the head sentinel to the tail sentinel, each once, and the links follow it both ways.
  ghost predicate Linked(prev: seq<int>, next: seq<int>, o: seq<int>) {
    && |prev| == |next| && |o| >= 2 && o[0] == HEAD && o[|o| - 1] == TAIL
    && (forall i :: 0 <= i < |o| ==> 0 <= o[i] < |next|)
    && (forall i, j :: 0 <= i < j < |o| ==> o[i] != o[j])
    && (forall i :: 0 <= i < |o| - 1 ==> next[o[i]] == o[i + 1])
    && (forall i :: 0 < i < |o| ==> prev[o[i]] == o[i - 1])
  }

  function Pushed(o: seq<int>, e: int): seq<int>
    requires |o| > 0
  { [o[0], e] + o[1..] }

  lemma UnlinkLinked(prev: seq<int>, next: seq<int>, o: seq<int>, p: int)
    requires Linked(prev, next, o) && 0 < p < |o| - 1
    ensures var e := o[p]; prev[e] == o[p - 1] && next[e] == o[p + 1]
    ensures var e := o[p]; Linked(prev[o[p + 1] := prev[e]], next[o[p - 1] := next[e]], Cut(o, p)) && e !in Cut(o, p)
  {}

  lemma PushLinked(prev: seq<int>, next: seq<int>, o: seq<int>, e: int)
    requires Linked(prev, next, o) && 0 <= e < |prev| && e !in o
    ensures Linked(prev[e := HEAD][o[1] := e], next[e := o[1]][HEAD := e], Pushed(o, e)) && next[HEAD] == o[1]
  {
    forall i | 0 <= i < |o| ensures o[i] != e {}
  }

  // The map sends exactly the keys of the listed nodes to those nodes.
  ghost predicate Indexed(item: seq<Item>, o: seq<int>, m: map<string, int>) {
    && (forall i :: 0 <= i < |o| ==> 0 <= o[i] < |item|)
    && (forall i :: 0 < i < |o| - 1 ==> item[o[i]].key in m && m[item[o[i]].key] == o[i])
    && (forall k :: k in m ==> InList(item, o, k, m[k]))
  }

  ghost predicate InList(item: seq<Item>, o: seq<int>, k: string, e: int) {
    0 <= e < |item| && item[e].key == k && exists i :: 0 < i < |o| - 1 && o[i] == e
  }

  ghost function Items(item: seq<Item>, o: seq<int>): (s: seq<Item>)
    requires |o| >= 2 && forall i :: 0 <= i < |o| ==> 0 <= o[i] < |item|
    ensures |s| == |o| - 2
  { seq(|o| - 2, i requires 0 <= i < |o| - 2 => item[o[i + 1]]) }

  lemma Position(item: seq<Item>, o: seq<int>, m: map<string, int>, k: string) returns (p: int)
    requires |o| >= 2 && Indexed(item, o, m) && k in m
    ensures 0 < p < |o| - 1 && o[p] == m[k] && item[o[p]].key == k && IndexOf(Items(item, o), k) == p - 1
  {
    assert InList(item, o, k, m[k]);
    p :| 0 < p < |o| - 1 && o[p] == m[k];
    var s := Items(item, o);
    var q := IndexOf(s, k);
    assert s[p - 1].key == k;
    assert q >= 0 && s[q].key == k;
    assert m[item[o[q + 1]].key] == o[q + 1];
    p := q + 1;
  }

  lemma NotListed(item: seq<Item>, o: seq<int>, m: map<string, int>, k: string)
    requires |o| >= 2 && Indexed(item, o, m) && k !in m
    ensures IndexOf(Items(item, o), k) < 0
  {
    forall q | 0 <= q < |o| - 2 ensures Items(item, o)[q].key != k { assert item[o[q + 1]].key in m; }
  }

  ghost predicate Ok(prev: seq<int>, next: seq<int>, item: seq<Item>, o: seq<int>, m: map<string, int>, size: int,
          items: seq<Item>)
  {
    Linked(prev, next, o) && |item| == |prev| && Indexed(item, o, m) && size == |o| - 2 && items == Items(item, o)
  }

  lemma CutIndexed(item: seq<Item>, o: seq<int>, m: map<string, int>, p: int)
    requires Indexed(item, o, m) && 0 < p < |o| - 1 && forall i, j :: 0 <= i < j < |o| ==> o[i] != o[j]
    ensures Indexed(item, Cut(o, p), m - {item[o[p]].key})
  {
    var e, o' := o[p], Cut(o, p);
    var m' := m - {item[e].key};
    forall k | k in m' ensures InList(item, o', k, m'[k]) {
      assert InList(item, o, k, m[k]);
      var i :| 0 < i < |o| - 1 && o[i] == m[k];
      assert o'[if i < p then i else i - 1] == m[k];
    }
    forall i | 0 < i < |o'| - 1 ensures item[o'[i]].key in m' && m'[item[o'[i]].key] == o'[i] {
      var i' := if i < p then i else i + 1;
      assert o'[i] == o[i'];
      assert m[item[o[i']].key] == o[i'] != e == m[item[o[p]].key];
    }
  }

  lemma CutOk(prev: seq<int>, next: seq<int>, item: seq<Item>, o: seq<int>, m: map<string, int>, size: int,
          items: seq<Item>, p: int)
    requires Ok(prev, next, item, o, m, size, items) && 0 < p < |o| - 1
    ensures var e := o[p]; 0 <= prev[e] < |next| && 0 <= next[e] < |prev| && prev[e] != e && next[e] != e
    ensures var e := o[p];
      Ok(prev[next[e] := prev[e]], next[prev[e] := next[e]], item, Cut(o, p), m - {item[e].key}, size - 1,
      Cut(items, p - 1))
    ensures o[p] !in Cut(o, p)
  {
    hide InList;
    UnlinkLinked(prev, next, o, p);
    CutIndexed(item, o, m, p);
  }

  lemma PushOk(prev: seq<int>, next: seq<int>, item: seq<Item>, o: seq<int>, m: map<string, int>, size: int,
          items: seq<Item>, e: int)
    requires Ok(prev, next, item, o, m, size, items) && 0 <= e < |prev| && e !in o && item[e].key !in m
    ensures 0 <= next[HEAD] < |prev|
    ensures Ok(prev[e := HEAD][next[HEAD] := e], next[e := next[HEAD]][HEAD := e], item, Pushed(o, e),
      m[item[e].key := e], size + 1, [item[e]] + items)
  {
    PushLinked(prev, next, o, e);
    var o', m' := Pushed(o, e), m[item[e].key := e];
    forall k | k in m' ensures InList(item, o', k, m'[k]) {
      if k == item[e].key { assert o'[1] == e; }
      else {
        assert InList(item, o, k, m[k]);
        var i :| 0 < i < |o| - 1 && o[i] == m[k];
        assert o'[i + 1] == m[k];
      }
    }
    forall i | 0 < i < |o'| - 1 ensures item[o'[i]].key in m' && m'[item[o'[i]].key] == o'[i] {
      if i > 1 { assert o'[i] == o[i - 1]; }
    }
  }

  // A node off the list may change.
  lemma OffListOk(prev: seq<int>, next: seq<int>, item: seq<Item>, o: seq<int>, m: map<string, int>, size: int,
          items: seq<Item>, e: int, x: Item)
    requires Ok(prev, next, item, o, m, size, items) && 0 <= e < |item| && e !in o
    ensures Ok(prev, next, item[e := x], o, m, size, items)
  {
    assert forall i :: 0 <= i < |o| ==> o[i] != e;
    forall k | k in m ensures InList(item[e := x], o, k, m[k]) { assert InList(item, o, k, m[k]); }
  }

  // New nodes may appear.
  lemma GrowOk(prev: seq<int>, next: seq<int>, item: seq<Item>, o: seq<int>, m: map<string, int>, size: int,
          items: seq<Item>, x: Item)
    requires Ok(prev, next, item, o, m, size, items)
    ensures Ok(prev + [0], next + [0], item + [x], o, m, size, items) && |item| !in o
  {
    forall k | k in m ensures InList(item + [x], o, k, m[k]) { assert InList(item, o, k, m[k]); }
  }

  ghost predicate Relinked(prev: seq<int>, next: seq<int>, e: int, prev': seq<int>, next': seq<int>) {
    && 0 <= e < |prev| == |next| && 0 <= prev[e] < |next| && 0 <= next[e] < |prev| && prev[e] != e && next[e] != e
      && |next| > HEAD
    && var p1, n1 := prev[next[e] := prev[e]], next[prev[e] := next[e]];
      0 <= n1[HEAD] < |p1| && prev' == p1[e := HEAD][n1[HEAD] := e] && next' == n1[e := n1[HEAD]][HEAD := e]
  }

  // Unlinking a node, giving it the item x of the same key and pushing it to the front.
  lemma TouchOk(prev: seq<int>, next: seq<int>, item: seq<Item>, o: seq<int>, m: map<string, int>, size: int,
          items: seq<Item>, p: int, x: Item)
    returns (prev': seq<int>, next': seq<int>)
    requires Ok(prev, next, item, o, m, size, items) && 0 < p < |o| - 1 && x.key == item[o[p]].key
    ensures Relinked(prev, next, o[p], prev', next')
    ensures Ok(prev', next', item[o[p] := x], Pushed(Cut(o, p), o[p]), m, size, [x] + Cut(items, p - 1))
  {
    CutOk(prev, next, item, o, m, size, items, p);
    var e, o1, m1, it := o[p], Cut(o, p), m - {x.key}, Cut(items, p - 1);
    var p1, n1 := prev[next[e] := prev[e]], next[prev[e] := next[e]];
    OffListOk(p1, n1, item, o1, m1, size - 1, it, e, x);
    PushOk(p1, n1, item[e := x], o1, m1, size - 1, it, e);
    prev', next' := p1[e := HEAD][n1[HEAD] := e], n1[e := n1[HEAD]][HEAD := e];
    assert m1[x.key := e] == m by { assert m[item[o[p]].key] == e; }
  }

  lemma OkFacts(prev: seq<int>, next: seq<int>, item: seq<Item>, o: seq<int>, m: map<string, int>, size: int,
          items: seq<Item>)
    requires Ok(prev, next, item, o, m, size, items)
    ensures |o| >= 2 && o[0] == HEAD && o[|o| - 1] == TAIL && |item| == |prev| == |next| > TAIL
    ensures size == |o| - 2 == |items|
    ensures forall i :: 0 <= i < |o| ==> 0 <= o[i] < |item|
  {}

  lemma Found(prev: seq<int>, next: seq<int>, item: seq<Item>, o: seq<int>, m: map<string, int>, size: int,
          items: seq<Item>, k: string) returns (p: int)
    requires Ok(prev, next, item, o, m, size, items) && k in m
    ensures 0 < p < |o| - 1 && o[p] == m[k] && 0 <= o[p] < |item| && IndexOf(items, k) == p - 1
    ensures items[p - 1] == item[o[p]] && item[o[p]].key == k
  {
    p := Position(item, o, m, k);
  }

  lemma NotFound(prev: seq<int>, next: seq<int>, item: seq<Item>, o: seq<int>, m: map<string, int>, size: int,
          items: seq<Item>, k: string)
    requires Ok(prev, next, item, o, m, size, items) && k !in m
    ensures IndexOf(items, k) < 0
  {
    NotListed(item, o, m, k);
  }

  lemma LastOk(prev: seq<int>, next: seq<int>, item: seq<Item>, o: seq<int>, m: map<string, int>, size: int,
          items: seq<Item>)
    requires Ok(prev, next, item, o, m, size, items)
    ensures prev[TAIL] == o[|o| - 2] && (prev[TAIL] == HEAD <==> |o| == 2)
  {}

  lemma NodeOk(prev: seq<int>, next: seq<int>, item: seq<Item>, o: seq<int>, m: map<string, int>, size: int,
          items: seq<Item>, p: int)
    requires Ok(prev, next, item, o, m, size, items) && 0 < p < |o| - 1
    ensures items[p - 1] == item[o[p]] && prev[o[p]] == o[p - 1]
  {}

  lemma HeadOk(prev: seq<int>, next: seq<int>, item: seq<Item>, o: seq<int>, m: map<string, int>, size: int,
          items: seq<Item>, p: int)
    requires Ok(prev, next, item, o, m, size, items) && 0 <= p < |o|
    ensures p == 0 <==> o[p] == HEAD
  {}

  lemma DropLast(s: seq<Item>, n: int)
    requires 0 < n <= |s|
    ensures Cut(s[..n], n - 1) == s[..n - 1]
  {}

  lemma CutKeeps(o: seq<int>, items: seq<Item>, p: int)
    requires |items| == |o| - 2 && 0 < p < |o| - 1
    ensures Cut(o, p)[p - 1] == o[p - 1] && |Cut(items, p - 1)| == |items| - 1 && |Cut(o, p)| == |o| - 1
  {}

  // One step of the backward walk.
  lemma LiveStep(s: seq<Item>, p: int, now: int)
    requires 0 < p <= |s|
    ensures var t := s[..p] + Live(s[p..], now); |t| >= p && t[p - 1] == s[p - 1]
    ensures s[..p - 1] + Live(s[p - 1..], now) == var t := s[..p] + Live(s[p..], now);
      if Expired(s[p - 1], now) then Cut(t, p - 1) else t
  {
    assert s[p - 1..][1..] == s[p..];
  }

  class Cache {
    var item: seq<Item>
    var prev: seq<int>
    var next: seq<int>
    const map_: HashMap.Map
    var size: int
    const capacity: int
    ghost var o: seq<int>
    ghost var items: seq<Item>
    ghost var ops: seq<Op> // every operation so far

    ghost predicate Valid()
      reads this, map_, map_.entries
    { Lists() && items == Run(capacity, ops) }

    // List and map hold the same entries.
    ghost predicate Lists()
      reads this, map_, map_.entries
    {
      map_.Valid() && capacity >= 1 && Ok(prev, next, item, o, map_.m, size, items) && size <= capacity
    }

    constructor (h: string -> nat, cap: nat)
      ensures Valid() && ops == [] && fresh(map_) && fresh(map_.entries)
      ensures capacity == if cap > 0 then cap else 1024
    {
      map_ := new HashMap.Map(h, if cap > 0 then cap else 64);
      capacity := if cap > 0 then cap else 1024;
      size := 0;
      item := [Item("", 0, 0), Item("", 0, 0)];
      prev, next := [0, HEAD], [TAIL, 0];
      o, items, ops := [HEAD, TAIL], [], [];
    }

    // Takes the node at position p out of list and map.
    method Remove(e: int, ghost p: int)
      requires Lists() && 0 < p < |o| - 1 && o[p] == e
      modifies this`prev, this`next, this`size, this`o, this`items, map_`count, map_`m, map_.entries
      ensures Lists() && o == Cut(old(o), p) && e !in o && 0 <= e < |item| && map_.m == old(map_.m) - {item[e].key}
      ensures |old(items)| == |old(o)| - 2 && items == Cut(old(items), p - 1)
    {
      hide Ok, HashMap.Ok, Items, Cut;
      OkFacts(prev, next, item, o, map_.m, size, items);
      CutOk(prev, next, item, o, map_.m, size, items, p);
      next := next[prev[e] := next[e]];
      prev := prev[next[e] := prev[e]];
      o, items, size := Cut(o, p), Cut(items, p - 1), size - 1;
      var _ := map_.Del(item[e].key);
    }

    // Moves the node at position p to the front, with the item x of the same key.
    method Touch(e: int, x: Item, ghost p: int)
      requires Lists() && 0 < p < |o| - 1 && o[p] == e && 0 <= e < |item| && item[e].key == x.key
      modifies this`item, this`prev, this`next, this`o, this`items
      ensures Lists() && |old(items)| == |old(o)| - 2 && items == [x] + Cut(old(items), p - 1)
    {
      hide Ok, HashMap.Ok, Items, Cut, Pushed;
      OkFacts(prev, next, item, o, map_.m, size, items);
      ghost var p', n' := TouchOk(prev, next, item, o, map_.m, size, items, p, x);
      item := item[e := x];
      next := next[prev[e] := next[e]];
      prev := prev[next[e] := prev[e]];
      next, prev := next[e := next[HEAD]], prev[e := HEAD];
      prev := prev[next[HEAD] := e];
      next := next[HEAD := e];
      o, items := Pushed(Cut(o, p), e), [x] + Cut(items, p - 1);
    }

    method Get(k: string, now: int) returns (r: int, found: bool)
      requires Valid()
      modifies this, map_`count, map_`m, map_.entries
      ensures Valid() && ops == old(ops) + [OpGet(k, now)]
      ensures found <==> Answers(old(items), k, now)
      ensures found ==> exists x :: x in old(items) && x.key == k && x.val == r
    {
      hide Run, Ok, HashMap.Ok, Items, Cut, IndexOf, Answers, Distinct;
      ops := ops + [OpGet(k, now)];
      RunStep(capacity, old(ops), OpGet(k, now));
      RunBounded(capacity, old(ops));
      HitsAnswers(items, k, now);
      OkFacts(prev, next, item, o, map_.m, size, items);
      var e;
      e, found := map_.Get(k);
      if !found {
        NotFound(prev, next, item, o, map_.m, size, items, k);
        return 0, false;
      }
      ghost var p := Found(prev, next, item, o, map_.m, size, items, k);
      if Expired(item[e], now) {
        Remove(e, p);
        return 0, false;
      }
      r := item[e].val;
      Touch(e, item[e], p);
    }

    // Drops least recent entries until there is room for one more.
    method EvictLru()
      requires Lists()
      modifies this`prev, this`next, this`size, this`o, this`items, map_`count, map_`m, map_.entries
      ensures Lists() && size < capacity && forall k :: k in map_.m ==> k in old(map_.m)
      ensures items == if |old(items)| >= capacity then old(items)[..capacity - 1] else old(items)
    {
      hide Ok, HashMap.Ok, Items, Cut;
      OkFacts(prev, next, item, o, map_.m, size, items);
      while size >= capacity
        invariant Lists() && size == |items| == |o| - 2 && |items| <= |old(items)| && items == old(items)[..|items|]
        invariant |old(items)| < capacity ==> items == old(items)
        invariant |items| >= capacity - 1 || items == old(items)
        invariant forall k :: k in map_.m ==> k in old(map_.m)
        decreases size
      {
        OkFacts(prev, next, item, o, map_.m, size, items);
        var victim := prev[TAIL];
        LastOk(prev, next, item, o, map_.m, size, items);
        if victim == HEAD { break; }
        Remove(victim, |o| - 2);
        DropLast(old(items), |items| + 1);
        OkFacts(prev, next, item, o, map_.m, size, items);
      }
    }

    method Put(k: string, val: int, ttl: int, now: int)
      requires Valid()
      modifies this, map_, map_.entries
      ensures Valid() && ops == old(ops) + [OpPut(Item(k, val, if ttl > 0 then now + ttl else 0))]
    {
      hide Run, Ok, HashMap.Ok, Items, Cut, IndexOf, Pushed;
      ops := ops + [OpPut(Item(k, val, if ttl > 0 then now + ttl else 0))];
      RunStep(capacity, old(ops), OpPut(Item(k, val, if ttl > 0 then now + ttl else 0)));
      OkFacts(prev, next, item, o, map_.m, size, items);
      var x := Item(k, val, if ttl > 0 then now + ttl else 0);
      var e, found := map_.Get(k);
      if found {
        ghost var p := Found(prev, next, item, o, map_.m, size, items, k);
        Touch(e, x, p);
        return;
      }
      NotFound(prev, next, item, o, map_.m, size, items, k);
      EvictLru();
      PushNew(x);
    }

    method PushNew(x: Item)
      requires Lists() && size < capacity && x.key !in map_.m
      modifies this, map_, map_.entries
      ensures Lists() && items == [x] + old(items) && ops == old(ops)
    {
      hide Ok, HashMap.Ok, Items, Pushed;
      OkFacts(prev, next, item, o, map_.m, size, items);
      GrowOk(prev, next, item, o, map_.m, size, items, x);
      PushOk(prev + [0], next + [0], item + [x], o, map_.m, size, items, |item|);
      var e := |item|;
      item, prev, next := item + [x], prev + [0], next + [0];
      next, prev := next[e := next[HEAD]], prev[e := HEAD];
      prev := prev[next[HEAD] := e];
      next := next[HEAD := e];
      o, items, size := Pushed(o, e), [x] + items, size + 1;
      map_.Put(x.key, e);
    }

    method Del(k: string) returns (found: bool)
      requires Valid()
      modifies this, map_`count, map_`m, map_.entries
      ensures Valid() && ops == old(ops) + [OpDel(k)] && found == (IndexOf(old(items), k) >= 0)
    {
      hide Run, Ok, HashMap.Ok, Items, Cut, IndexOf;
      ops := ops + [OpDel(k)];
      RunStep(capacity, old(ops), OpDel(k));
      OkFacts(prev, next, item, o, map_.m, size, items);
      var e;
      e, found := map_.Get(k);
      if !found {
        NotFound(prev, next, item, o, map_.m, size, items, k);
        return;
      }
      ghost var p := Found(prev, next, item, o, map_.m, size, items, k);
      Remove(e, p);
    }

    // Walks from the least recent end and takes out what has expired.
    method EvictExpired(now: int) returns (evicted: int)
      requires Valid()
      modifies this, map_`count, map_`m, map_.entries
      ensures Valid() && ops == old(ops) + [OpEvict(now)] && evicted == |old(items)| - |items|
    {
      hide Run, Ok, HashMap.Ok, Items, Cut;
      ops := ops + [OpEvict(now)];
      RunStep(capacity, old(ops), OpEvict(now));
      evicted := 0;
      OkFacts(prev, next, item, o, map_.m, size, items);
      LastOk(prev, next, item, o, map_.m, size, items);
      var e := prev[TAIL];
      ghost var p := |o| - 2;
      ghost var s := items;
      assert s[..p] + Live(s[p..], now) == s;
      while e != HEAD
        invariant Lists() && 0 <= p < |o| - 1 && o[p] == e && |items| == |o| - 2 && p <= |s|
        invariant ops == old(ops) + [OpEvict(now)]
        invariant p == 0 <==> e == HEAD
        invariant items == s[..p] + Live(s[p..], now) && evicted == |s| - |items|
        decreases p
      {
        OkFacts(prev, next, item, o, map_.m, size, items);
        NodeOk(prev, next, item, o, map_.m, size, items, p);
        LiveStep(s, p, now);
        var before := prev[e];
        if Expired(item[e], now) {
          CutKeeps(o, items, p);
          Remove(e, p);
          evicted := evicted + 1;
          OkFacts(prev, next, item, o, map_.m, size, items);
        }
        e := before;
        p := p - 1;
        HeadOk(prev, next, item, o, map_.m, size, items, p);
      }
      assert s[0..] == s;
    }
  }
}
