// Which entries the cache holds after a run and in which order, told by when each key was last used.
module LruUse {
  import opened Basics
  import opened LruSpec

  // The cache holds an entry for k that has not expired.
  ghost predicate Answers(s: seq<Item>, k: string, now: int) {
    exists x :: x in s && x.key == k && !(x.expire > 0 && x.expire < now)
  }

  // The operation puts k, or gets it successfully after the operations before.
  ghost predicate Uses(capacity: int, before: seq<Op>, op: Op, k: string)
    requires capacity >= 1
  {
    (op.OpPut? && op.x.key == k) || (op.OpGet? && op.k == k && Answers(Run(capacity, before), k, op.now))
  }

  // When k was last used, or -1.
  ghost function LastUse(capacity: int, ops: seq<Op>, k: string): (t: int)
    requires capacity >= 1
    ensures -1 <= t < |ops|
  {
    if ops == [] then -1 else
      var n := |ops| - 1;
      if Uses(capacity, ops[..n], ops[n], k) then n else LastUse(capacity, ops[..n], k)
  }

  ghost predicate Recent(capacity: int, ops: seq<Op>, s: seq<Item>)
    requires capacity >= 1
  {
    && (forall i :: 0 <= i < |s| ==> LastUse(capacity, ops, s[i].key) >= 0)
    && (forall i, j :: 0 <= i < j < |s| ==> LastUse(capacity, ops, s[i].key) > LastUse(capacity, ops, s[j].key))
  }

  lemma LastUseStep(capacity: int, ops: seq<Op>, op: Op, k: string)
    requires capacity >= 1
    ensures LastUse(capacity, ops + [op], k) ==
      if Uses(capacity, ops, op, k) then |ops| else LastUse(capacity, ops, k)
  {
    assert (ops + [op])[..|ops|] == ops;
  }

  // A hit is an entry that is there and has not expired.
  lemma HitsAnswers(s: seq<Item>, k: string, now: int)
    requires Distinct(s)
    ensures Hits(s, k, now) <==> Answers(s, k, now)
    ensures Hits(s, k, now) ==> s[IndexOf(s, k)] in s
  {
    if IndexOf(s, k) >= 0 { assert s[IndexOf(s, k)] in s; }
    if Answers(s, k, now) {
      var x :| x in s && x.key == k && !(x.expire > 0 && x.expire < now);
      var i :| 0 <= i < |s| && s[i] == x;
      IndexUnique(s, i);
    }
  }

  // r is what stands in s at the positions f, in the same order.
  ghost predicate Places(s: seq<Item>, r: seq<Item>, f: seq<int>) {
    && |f| == |r| && (forall i :: 0 <= i < |r| ==> 0 <= f[i] < |s| && r[i] == s[f[i]])
    && (forall i, j :: 0 <= i < j < |r| ==> f[i] < f[j])
  }

  // A part of the cache keeps its order when nothing of it is used by the operation.
  lemma RecentPart(capacity: int, ops: seq<Op>, op: Op, s: seq<Item>, r: seq<Item>, f: seq<int>)
    requires capacity >= 1 && Recent(capacity, ops, s) && Places(s, r, f)
    requires forall i :: 0 <= i < |r| ==> !Uses(capacity, ops, op, r[i].key)
    ensures Recent(capacity, ops + [op], r)
  {
    hide Uses, LastUse;
    forall i | 0 <= i < |r|
      ensures LastUse(capacity, ops + [op], r[i].key) == LastUse(capacity, ops, s[f[i]].key)
    {
      LastUseStep(capacity, ops, op, r[i].key);
    }
  }

  // The entry just used comes first.
  lemma RecentFront(capacity: int, ops: seq<Op>, op: Op, x: Item, r: seq<Item>)
    requires capacity >= 1 && Uses(capacity, ops, op, x.key) && Recent(capacity, ops + [op], r)
    requires forall i :: 0 <= i < |r| ==> !Uses(capacity, ops, op, r[i].key)
    ensures Recent(capacity, ops + [op], [x] + r)
  {
    hide Uses, LastUse;
    LastUseStep(capacity, ops, op, x.key);
    forall i | 0 <= i < |r|
      ensures LastUse(capacity, ops + [op], r[i].key) < |ops|
    {
      LastUseStep(capacity, ops, op, r[i].key);
    }
  }

  lemma RecentCut(capacity: int, ops: seq<Op>, op: Op, s: seq<Item>, i: int)
    requires capacity >= 1 && Recent(capacity, ops, s) && 0 <= i < |s|
    requires forall j :: 0 <= j < |s| && j != i ==> !Uses(capacity, ops, op, s[j].key)
    ensures Recent(capacity, ops + [op], Cut(s, i))
  {
    hide Uses, Recent;
    RecentPart(capacity, ops, op, s, Cut(s, i), seq(|s| - 1, j => if j < i then j else j + 1));
  }

  lemma RecentPrefix(capacity: int, ops: seq<Op>, op: Op, s: seq<Item>, n: int)
    requires capacity >= 1 && Recent(capacity, ops, s) && 0 <= n <= |s|
    requires forall j :: 0 <= j < n ==> !Uses(capacity, ops, op, s[j].key)
    ensures Recent(capacity, ops + [op], s[..n])
  {
    hide Uses, Recent;
    RecentPart(capacity, ops, op, s, s[..n], seq(n, j => j));
  }

  // Where the entries that have not expired stand.
  lemma {:induction false} LivePlaces(s: seq<Item>, now: int) returns (f: seq<int>)
    ensures Places(s, Live(s, now), f)
  {
    hide Places;
    if s == [] { f := []; NoPlaces(s); } else {
      var g := LivePlaces(s[1..], now);
      f := if Expired(s[0], now) then Up(g) else [0] + Up(g);
      PlacesUp(s, Live(s[1..], now), g);
    }
  }

  lemma NoPlaces(s: seq<Item>)
    ensures Places(s, [], [])
  {}

  lemma PlacesUp(s: seq<Item>, r: seq<Item>, g: seq<int>)
    requires s != [] && Places(s[1..], r, g)
    ensures Places(s, r, Up(g)) && Places(s, [s[0]] + r, [0] + Up(g))
  {
    var f := Up(g);
    assert forall i :: 0 <= i < |r| ==> f[i] == g[i] + 1 && s[f[i]] == s[1..][g[i]];
    PlacesFront(s, r, f);
  }

  lemma PlacesFront(s: seq<Item>, r: seq<Item>, f: seq<int>)
    requires s != [] && Places(s, r, f) && forall i :: 0 <= i < |f| ==> f[i] > 0
    ensures Places(s, [s[0]] + r, [0] + f)
  {
    assert forall i :: 0 < i <= |r| ==> ([0] + f)[i] == f[i - 1] && ([s[0]] + r)[i] == r[i - 1];
  }

  ghost function Up(g: seq<int>): (r: seq<int>)
    ensures |r| == |g| && forall i :: 0 <= i < |g| ==> r[i] == g[i] + 1
  { seq(|g|, i requires 0 <= i < |g| => g[i] + 1) }

  lemma RecentGet(capacity: int, ops: seq<Op>, k: string, now: int)
    requires capacity >= 1 && Recent(capacity, ops, Run(capacity, ops))
    ensures Recent(capacity, ops + [OpGet(k, now)], Get(Run(capacity, ops), k, now))
  {
    var s, op := Run(capacity, ops), OpGet(k, now);
    RunBounded(capacity, ops);
    HitsAnswers(s, k, now);
    hide Recent, Answers, Run;
    var i := IndexOf(s, k);
    if i < 0 {
      assert s[..|s|] == s;
      RecentPrefix(capacity, ops, op, s, |s|);
    } else {
      RecentCut(capacity, ops, op, s, i);
      if !Expired(s[i], now) { RecentFront(capacity, ops, op, s[i], Cut(s, i)); }
    }
  }

  lemma RecentPut(capacity: int, ops: seq<Op>, x: Item)
    requires capacity >= 1 && Recent(capacity, ops, Run(capacity, ops))
    ensures Recent(capacity, ops + [OpPut(x)], Put(Run(capacity, ops), capacity, x))
  {
    var s, op := Run(capacity, ops), OpPut(x);
    RunBounded(capacity, ops);
    hide Recent, Run;
    var i := IndexOf(s, x.key);
    if i >= 0 {
      RecentCut(capacity, ops, op, s, i);
      RecentFront(capacity, ops, op, x, Cut(s, i));
    } else {
      var n := if |s| >= capacity then capacity - 1 else |s|;
      assert s[..n] == if |s| >= capacity then s[..capacity - 1] else s;
      RecentPrefix(capacity, ops, op, s, n);
      RecentFront(capacity, ops, op, x, s[..n]);
    }
  }

  lemma RecentRest(capacity: int, ops: seq<Op>, op: Op)
    requires capacity >= 1 && Recent(capacity, ops, Run(capacity, ops)) && (op.OpDel? || op.OpEvict?)
    ensures Recent(capacity, ops + [op], Step(Run(capacity, ops), capacity, op))
  {
    var s := Run(capacity, ops);
    hide Recent, Run;
    if op.OpEvict? {
      var f := LivePlaces(s, op.now);
      RecentPart(capacity, ops, op, s, Live(s, op.now), f);
    } else if IndexOf(s, op.k) < 0 {
      assert s[..|s|] == s;
      RecentPrefix(capacity, ops, op, s, |s|);
    } else {
      RecentCut(capacity, ops, op, s, IndexOf(s, op.k));
    }
  }

  // Of two keys held, the one used later stands first.
  lemma {:induction false} RecentFirst(capacity: int, ops: seq<Op>)
    requires capacity >= 1
    ensures Recent(capacity, ops, Run(capacity, ops))
  {
    if ops != [] {
      hide Recent;
      var n := |ops| - 1;
      var p, op := ops[..n], ops[n];
      RecentFirst(capacity, p);
      assert p + [op] == ops;
      match op
      case OpGet(k, now) => RecentGet(capacity, p, k, now);
      case OpPut(x) => RecentPut(capacity, p, x);
      case OpDel(k) => RecentRest(capacity, p, op);
      case OpEvict(now) => RecentRest(capacity, p, op);
    }
  }

  // Among the entries s, y was used before all others.
  ghost predicate LeastRecent(capacity: int, ops: seq<Op>, s: seq<Item>, y: Item)
    requires capacity >= 1
  { forall z :: z in s && z != y ==> LastUse(capacity, ops, y.key) < LastUse(capacity, ops, z.key) }

  // Whether an operation keeps entry y of s.
  ghost predicate Keeps(capacity: int, ops: seq<Op>, s: seq<Item>, op: Op, y: Item)
    requires capacity >= 1
  {
    match op
    case OpGet(k, now) => !(y.key == k && y.expire > 0 && y.expire < now)
    case OpDel(k) => y.key != k
    case OpEvict(now) => !(y.expire > 0 && y.expire < now)
    case OpPut(x) =>
      y.key != x.key && !(|s| == capacity && LeastRecent(capacity, ops, s, y) && forall z :: z in s ==> z.key != x.key)
  }

  lemma LastIsLeast(capacity: int, ops: seq<Op>, s: seq<Item>, j: int)
    requires capacity >= 1 && Recent(capacity, ops, s) && 0 <= j < |s|
    ensures LeastRecent(capacity, ops, s, s[j]) <==> j == |s| - 1
  {
    hide LastUse;
    var last := s[|s| - 1];
    if j < |s| - 1 { assert last in s; }
  }

  lemma CutMembers(s: seq<Item>, i: int)
    requires Distinct(s) && 0 <= i < |s|
    ensures forall y :: y in Cut(s, i) <==> y in s && y.key != s[i].key
  {
    forall y | y in s && y.key != s[i].key ensures y in Cut(s, i) {
      var j :| 0 <= j < |s| && s[j] == y;
      assert Cut(s, i)[if j < i then j else j - 1] == y;
    }
    forall y | y in Cut(s, i) ensures y in s && y.key != s[i].key {
      var j :| 0 <= j < |s| - 1 && Cut(s, i)[j] == y;
      assert s[if j < i then j else j + 1] == y;
    }
  }

  lemma PutMembers(capacity: int, ops: seq<Op>, s: seq<Item>, x: Item, y: Item)
    requires capacity >= 1 && Distinct(s) && |s| <= capacity && Recent(capacity, ops, s)
    ensures y in Put(s, capacity, x) <==> y == x || (y in s && Keeps(capacity, ops, s, OpPut(x), y))
  {
    hide Recent, LastUse;
    var i := IndexOf(s, x.key);
    if i >= 0 {
      CutMembers(s, i);
      assert s[i] in s;
    } else if y in s {
      var j :| 0 <= j < |s| && s[j] == y;
      LastIsLeast(capacity, ops, s, j);
      if |s| == capacity { PrefixMember(s, j); }
    }
  }

  lemma PrefixMember(s: seq<Item>, j: int)
    requires Distinct(s) && 0 <= j < |s|
    ensures s[j] in s[..|s| - 1] <==> j < |s| - 1
  {
    if j < |s| - 1 { assert s[..|s| - 1][j] == s[j]; }
  }

  // What the cache holds after one more operation: what was put, and of the rest exactly what has not expired when it
  // was looked at, was not deleted, and was not the least recently used entry of a full cache when a new key came.
  lemma HeldExactly(capacity: int, ops: seq<Op>, op: Op, y: Item)
    requires capacity >= 1
    ensures var s := Run(capacity, ops);
      y in Run(capacity, ops + [op]) <==> op == OpPut(y) || (y in s && Keeps(capacity, ops, s, op, y))
  {
    var s := Run(capacity, ops);
    RunStep(capacity, ops, op);
    RunBounded(capacity, ops);
    RecentFirst(capacity, ops);
    hide Run, Recent, LeastRecent;
    match op
    case OpPut(x) => PutMembers(capacity, ops, s, x, y);
    case OpEvict(now) => LiveMembers(s, now);
    case OpDel(k) => if IndexOf(s, k) >= 0 { CutMembers(s, IndexOf(s, k)); }
    case OpGet(k, now) => GetMembers(s, k, now, y);
  }

  lemma GetMembers(s: seq<Item>, k: string, now: int, y: Item)
    requires Distinct(s)
    ensures y in Get(s, k, now) <==> y in s && !(y.key == k && y.expire > 0 && y.expire < now)
  {
    var i := IndexOf(s, k);
    if i >= 0 {
      CutMembers(s, i);
      assert s[i] in s;
      if y in s && y.key == k {
        var j :| 0 <= j < |s| && s[j] == y;
        IndexUnique(s, j);
      }
    }
  }

  // A hit gives the value that was last put for the key, which has not been deleted since.
  ghost predicate Stored(ops: seq<Op>, y: Item) {
    exists t :: 0 <= t < |ops| && ops[t] == OpPut(y) && forall u :: t < u < |ops| ==> !Overrides(ops[u], y.key)
  }

  ghost predicate Overrides(op: Op, k: string) { (op.OpPut? && op.x.key == k) || (op.OpDel? && op.k == k) }

  lemma {:induction false} HeldStored(capacity: int, ops: seq<Op>, y: Item)
    requires capacity >= 1 && y in Run(capacity, ops)
    ensures Stored(ops, y)
  {
    var n := |ops| - 1;
    var p, op := ops[..n], ops[n];
    assert p + [op] == ops;
    HeldExactly(capacity, p, op, y);
    if op == OpPut(y) { assert ops[n] == OpPut(y); } else {
      HeldStored(capacity, p, y);
      var t :| 0 <= t < |p| && p[t] == OpPut(y) && forall u :: t < u < |p| ==> !Overrides(p[u], y.key);
      assert ops[t] == OpPut(y);
      forall u | t < u < |ops| ensures !Overrides(ops[u], y.key) { if u < n { assert p[u] == ops[u]; } }
    }
  }
}
