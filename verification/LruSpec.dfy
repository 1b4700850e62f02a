// The cache as a most-recent-first sequence, and how caches of different capacity compare on one trace.
module LruSpec {
  import opened Basics

  // An expire of 0 means the entry is permanent.
  datatype Item = Item(key: string, val: int, expire: int)

  predicate Expired(x: Item, now: int) { x.expire > 0 && x.expire < now }

  function IndexOf(s: seq<Item>, k: string): (i: int)
    ensures -1 <= i < |s|
    ensures i >= 0 ==> s[i].key == k
    ensures i < 0 ==> forall j :: 0 <= j < |s| ==> s[j].key != k
  {
    if s == [] then -1 else if s[0].key == k then 0 else
      var i := IndexOf(s[1..], k); if i < 0 then -1 else i + 1
  }

  ghost predicate Distinct(s: seq<Item>) { forall i, j :: 0 <= i < j < |s| ==> s[i].key != s[j].key }

  function Get(s: seq<Item>, k: string, now: int): seq<Item> {
    var i := IndexOf(s, k);
    if i < 0 then s else if Expired(s[i], now) then Cut(s, i) else [s[i]] + Cut(s, i)
  }

  predicate Hits(s: seq<Item>, k: string, now: int) {
    var i := IndexOf(s, k);
    i >= 0 && !Expired(s[i], now)
  }

  // The least recent entries make room.
  function Put(s: seq<Item>, capacity: int, x: Item): seq<Item>
    requires capacity >= 1
  {
    var i := IndexOf(s, x.key);
    if i >= 0 then [x] + Cut(s, i) else [x] + if |s| >= capacity then s[..capacity - 1] else s
  }

  function Del(s: seq<Item>, k: string): seq<Item> {
    var i := IndexOf(s, k);
    if i < 0 then s else Cut(s, i)
  }

  function Live(s: seq<Item>, now: int): (r: seq<Item>)
    ensures |r| <= |s|
  {
    if s == [] then [] else if Expired(s[0], now) then Live(s[1..], now) else [s[0]] + Live(s[1..], now)
  }

  datatype Op = OpGet(k: string, now: int) | OpPut(x: Item) | OpDel(k: string) | OpEvict(now: int)

  function Step(s: seq<Item>, capacity: int, op: Op): seq<Item>
    requires capacity >= 1
  {
    match op
    case OpGet(k, now) => Get(s, k, now)
    case OpPut(x) => Put(s, capacity, x)
    case OpDel(k) => Del(s, k)
    case OpEvict(now) => Live(s, now)
  }

  function Run(capacity: int, ops: seq<Op>): seq<Item>
    requires capacity >= 1
  {
    if ops == [] then [] else Step(Run(capacity, ops[..|ops| - 1]), capacity, ops[|ops| - 1])
  }

  lemma RunStep(capacity: int, ops: seq<Op>, op: Op)
    requires capacity >= 1
    ensures Run(capacity, ops + [op]) == Step(Run(capacity, ops), capacity, op)
  {
    assert (ops + [op])[..|ops|] == ops;
  }

  // ----- every operation keeps keys distinct and the size within capacity -----

  lemma {:induction false} LiveMembers(s: seq<Item>, now: int)
    requires Distinct(s)
    ensures Distinct(Live(s, now)) && forall x :: x in Live(s, now) <==> x in s && !Expired(x, now)
  {
    if s != [] {
      LiveMembers(s[1..], now);
      var r := Live(s[1..], now);
      forall i | 0 <= i < |r| ensures r[i].key != s[0].key { assert r[i] in s[1..]; }
    }
  }

  lemma FrontDistinct(x: Item, s: seq<Item>)
    requires Distinct(s) && forall j :: 0 <= j < |s| ==> s[j].key != x.key
    ensures Distinct([x] + s)
  {}

  lemma DropDistinct(s: seq<Item>, i: int)
    requires Distinct(s) && 0 <= i < |s|
    ensures Distinct(Cut(s, i)) && forall j :: 0 <= j < |s| - 1 ==> Cut(s, i)[j].key != s[i].key
  {}

  lemma TakeDistinct(s: seq<Item>, k: string)
    requires Distinct(s)
    ensures var i := IndexOf(s, k); i >= 0 ==> Distinct(Cut(s, i)) && Distinct([s[i]] + Cut(s, i))
  {
    var i := IndexOf(s, k);
    if i >= 0 { DropDistinct(s, i); FrontDistinct(s[i], Cut(s, i)); }
  }

  lemma PutBounded(s: seq<Item>, capacity: int, x: Item)
    requires capacity >= 1 && Distinct(s) && |s| <= capacity
    ensures Distinct(Put(s, capacity, x)) && |Put(s, capacity, x)| <= capacity
  {
    hide Distinct, IndexOf, Cut;
    var i := IndexOf(s, x.key);
    if i >= 0 { DropDistinct(s, i); FrontDistinct(x, Cut(s, i)); } else {
      var r := if |s| >= capacity then s[..capacity - 1] else s;
      PrefixDistinct(s, |r|);
      assert r == s[..|r|];
      FrontDistinct(x, r);
    }
  }

  lemma PrefixDistinct(s: seq<Item>, n: int)
    requires Distinct(s) && 0 <= n <= |s|
    ensures Distinct(s[..n])
  {}

  lemma StepBounded(s: seq<Item>, capacity: int, op: Op)
    requires capacity >= 1 && Distinct(s) && |s| <= capacity
    ensures Distinct(Step(s, capacity, op)) && |Step(s, capacity, op)| <= capacity
  {
    hide Distinct, IndexOf, Put, Cut;
    match op
    case OpEvict(now) => LiveMembers(s, now);
    case OpPut(x) => PutBounded(s, capacity, x);
    case OpGet(k, _) => TakeDistinct(s, k);
    case OpDel(k) => TakeDistinct(s, k);
  }

  lemma {:induction false} RunBounded(capacity: int, ops: seq<Op>)
    requires capacity >= 1
    ensures Distinct(Run(capacity, ops)) && |Run(capacity, ops)| <= capacity
  {
    if ops != [] {
      hide Step, Distinct;
      var p := ops[..|ops| - 1];
      RunBounded(capacity, p);
      StepBounded(Run(capacity, p), capacity, ops[|ops| - 1]);
    }
  }

  // ----- inclusion: the smaller cache is the larger one with at most one entry taken out -----

  ghost predicate Within(a: seq<Item>, b: seq<Item>) {
    a == b || exists j :: 0 <= j < |b| && a == Cut(b, j)
  }

  // Where a key of b without entry j is found.
  lemma IndexUnique(s: seq<Item>, i: int)
    requires Distinct(s) && 0 <= i < |s|
    ensures IndexOf(s, s[i].key) == i
  {}

  lemma IndexDrop(b: seq<Item>, j: int, k: string)
    requires Distinct(b) && 0 <= j < |b|
    ensures var i := IndexOf(b, k); IndexOf(Cut(b, j), k) == if i == j then -1 else if i > j then i - 1 else i
  {
    var i, a := IndexOf(b, k), Cut(b, j);
    if i >= 0 && i != j { IndexUnique(a, if i > j then i - 1 else i); }
  }

  lemma DropDrop(b: seq<Item>, i: int, j: int)
    requires 0 <= i < j < |b|
    ensures Cut(Cut(b, j), i) == Cut(Cut(b, i), j - 1)
  {}

  lemma DropFront(x: Item, b: seq<Item>, j: int)
    requires 0 <= j < |b|
    ensures [x] + Cut(b, j) == Cut([x] + b, j + 1) && Cut([x] + b, 0) == b
  {}

  lemma {:induction false} LiveDrop(b: seq<Item>, j: int, now: int)
    requires 0 <= j < |b|
    ensures Within(Live(Cut(b, j), now), Live(b, now))
  {
    if j == 0 {
      assert Cut(b, 0) == b[1..];
      if !Expired(b[0], now) { assert Cut(Live(b, now), 0) == Live(b[1..], now); }
    } else {
      LiveDrop(b[1..], j - 1, now);
      var a := Cut(b, j);
      assert a[1..] == Cut(b[1..], j - 1) && a[0] == b[0];
      WithinFront(b[0], Live(a[1..], now), Live(b[1..], now));
    }
  }

  // Taking entry k out of both, where the smaller one lacks entry j.
  lemma TakeOut(b: seq<Item>, j: int, k: string)
    requires Distinct(b) && 0 <= j < |b| && IndexOf(b, k) >= 0 && IndexOf(b, k) != j
    ensures var i, i' := IndexOf(b, k), IndexOf(Cut(b, j), k); i' >= 0 && Cut(b, j)[i'] == b[i]
    ensures var i, i' := IndexOf(b, k), IndexOf(Cut(b, j), k);
      exists q :: 0 <= q < |Cut(b, i)| && Cut(Cut(b, j), i') == Cut(Cut(b, i), q)
  {
    IndexDrop(b, j, k);
    var i := IndexOf(b, k);
    if i < j { DropDrop(b, i, j); } else { DropDrop(b, j, i); }
  }

  lemma WithinFront(x: Item, a: seq<Item>, b: seq<Item>)
    requires Within(a, b)
    ensures Within([x] + a, [x] + b)
  {
    if a != b { var j :| 0 <= j < |b| && a == Cut(b, j); DropFront(x, b, j); }
  }

  lemma LookupWithin(a: seq<Item>, b: seq<Item>, k: string)
    requires Distinct(b) && Within(a, b)
    ensures IndexOf(a, k) >= 0 ==> IndexOf(b, k) >= 0 && a[IndexOf(a, k)] == b[IndexOf(b, k)]
    ensures IndexOf(a, k) >= 0 ==> Within(Cut(a, IndexOf(a, k)), Cut(b, IndexOf(b, k)))
    ensures IndexOf(a, k) < 0 && IndexOf(b, k) >= 0 ==> a == Cut(b, IndexOf(b, k))
  {
    if a != b {
      var j :| 0 <= j < |b| && a == Cut(b, j);
      IndexDrop(b, j, k);
      if IndexOf(a, k) >= 0 { TakeOut(b, j, k); }
    }
  }

  lemma GetWithin(a: seq<Item>, b: seq<Item>, k: string, now: int)
    requires Distinct(b) && Within(a, b)
    ensures Within(Get(a, k, now), Get(b, k, now))
  {
    LookupWithin(a, b, k);
    var i := IndexOf(b, k);
    if IndexOf(a, k) >= 0 { WithinFront(b[i], Cut(a, IndexOf(a, k)), Cut(b, i)); }
    else if i >= 0 && !Expired(b[i], now) { assert Cut(Get(b, k, now), 0) == a; }
  }

  lemma PutWithin(a: seq<Item>, b: seq<Item>, capacity: int, x: Item)
    requires Distinct(b) && Within(a, b) && 1 <= capacity && |a| <= capacity && |b| <= capacity + 1
    ensures Within(Put(a, capacity, x), Put(b, capacity + 1, x))
  {
    hide Distinct, Within, IndexOf, Cut;
    LookupWithin(a, b, x.key);
    var i := IndexOf(b, x.key);
    if IndexOf(a, x.key) >= 0 { WithinFront(x, Cut(a, IndexOf(a, x.key)), Cut(b, i)); }
    else if i >= 0 { PutMissing(a, capacity, x); } else {
      EvictWithin(a, b, capacity);
      WithinFront(x, if |a| >= capacity then a[..capacity - 1] else a,
        if |b| >= capacity + 1 then b[..capacity] else b);
    }
  }

  lemma PutMissing(a: seq<Item>, capacity: int, x: Item)
    requires 1 <= capacity && |a| <= capacity
    ensures Within([x] + if |a| >= capacity then a[..capacity - 1] else a, [x] + a)
  {
    if |a| == capacity { assert [x] + a[..capacity - 1] == Cut([x] + a, capacity); }
  }

  lemma EvictWithin(a: seq<Item>, b: seq<Item>, capacity: int)
    requires Within(a, b) && 1 <= capacity && |a| <= capacity && |b| <= capacity + 1
    ensures Within(if |a| >= capacity then a[..capacity - 1] else a, if |b| >= capacity + 1 then b[..capacity] else b)
  {
    if |a| == capacity {
      if a == b { assert a[..capacity - 1] == Cut(b, capacity - 1); }
      else {
        var j :| 0 <= j < |b| && a == Cut(b, j);
        assert a[..capacity - 1] == Cut(b[..capacity], if j < capacity then j else capacity - 1);
      }
    }
  }

  lemma StepWithin(a: seq<Item>, b: seq<Item>, capacity: int, op: Op)
    requires Distinct(b) && Within(a, b) && 1 <= capacity && |a| <= capacity && |b| <= capacity + 1
    ensures Within(Step(a, capacity, op), Step(b, capacity + 1, op))
  {
    match op
    case OpGet(k, now) => GetWithin(a, b, k, now);
    case OpPut(x) => PutWithin(a, b, capacity, x);
    case OpDel(k) => LookupWithin(a, b, k);
    case OpEvict(now) => if a != b { var j :| 0 <= j < |b| && a == Cut(b, j); LiveDrop(b, j, now); }
  }

  lemma NothingWithin()
    ensures Within([], [])
  {}

  lemma {:induction false} RunWithin(capacity: int, ops: seq<Op>)
    requires capacity >= 1
    ensures Within(Run(capacity, ops), Run(capacity + 1, ops))
  {
    hide Step, Within, Distinct;
    if ops == [] { NothingWithin(); } else {
      var p := ops[..|ops| - 1];
      RunWithin(capacity, p);
      RunBounded(capacity, p);
      RunBounded(capacity + 1, p);
      StepWithin(Run(capacity, p), Run(capacity + 1, p), capacity, ops[|ops| - 1]);
    }
  }

  lemma WithinMembers(a: seq<Item>, b: seq<Item>)
    requires Within(a, b)
    ensures forall x :: x in a ==> x in b
  {
    if a != b {
      var j :| 0 <= j < |b| && a == Cut(b, j);
      forall x | x in a ensures x in b {
        var i :| 0 <= i < |a| && a[i] == x;
        assert b[if i < j then i else i + 1] == x;
      }
    }
  }

  // On one trace and clock, whatever the smaller cache holds or answers, the larger one holds and answers.
  lemma {:induction false} Inclusion(small: int, large: int, ops: seq<Op>)
    requires 1 <= small <= large
    ensures forall x :: x in Run(small, ops) ==> x in Run(large, ops)
    decreases large
  {
    hide Run;
    if small < large {
      Inclusion(small, large - 1, ops);
      RunWithin(large - 1, ops);
      WithinMembers(Run(large - 1, ops), Run(large, ops));
    }
  }

  lemma InclusionHits(small: int, large: int, ops: seq<Op>, k: string, now: int)
    requires 1 <= small <= large && Hits(Run(small, ops), k, now)
    ensures Hits(Run(large, ops), k, now)
    ensures var a, b := Run(small, ops), Run(large, ops); a[IndexOf(a, k)] == b[IndexOf(b, k)]
  {
    Inclusion(small, large, ops);
    RunBounded(large, ops);
    var a, b := Run(small, ops), Run(large, ops);
    var x := a[IndexOf(a, k)];
    assert x in a;
    var i :| 0 <= i < |b| && b[i] == x;
    IndexUnique(b, i);
  }
}
