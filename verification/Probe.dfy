// Open addressing without tombstones: a deletion clears one slot and re-inserts the rest of its cluster.
module Probe {

  // Steps from slot h forward to slot i in a ring of n slots.
  function Off(n: int, h: int, i: int): int { if i >= h then i - h else i - h + n }

  function Next(n: int, i: int): int { if i + 1 == n then 0 else i + 1 }

  function Home<K>(n: int, h: K -> nat, k: K): (i: int)
    requires n > 0
    ensures 0 <= i < n
  { h(k) % n }

  // A table slot is -1 or the index of an entry; entry e has key keys[e].
  ghost predicate Slots<K>(t: seq<int>, keys: seq<K>) {
    |t| > 0 && forall i :: 0 <= i < |t| ==> -1 <= t[i] < |keys|
  }

  ghost predicate Distinct<K>(t: seq<int>, keys: seq<K>)
    requires Slots(t, keys)
  {
    forall i, j :: 0 <= i < j < |t| && t[i] >= 0 && t[j] >= 0 ==> keys[t[i]] != keys[t[j]]
  }

  // Slot m lies on the way from the home of the entry in slot i to slot i.
  ghost predicate OnPath<K>(t: seq<int>, keys: seq<K>, h: K -> nat, i: int, m: int)
    requires Slots(t, keys) && 0 <= i < |t| && t[i] >= 0
  {
    Off(|t|, Home(|t|, h, keys[t[i]]), m) < Off(|t|, Home(|t|, h, keys[t[i]]), i)
  }

  ghost predicate Chained<K>(t: seq<int>, keys: seq<K>, h: K -> nat)
    requires Slots(t, keys)
  {
    forall i, m {:trigger t[i], t[m]} :: 0 <= i < |t| && 0 <= m < |t| && t[i] >= 0 && OnPath(t, keys, h, i, m) ==>
      t[m] >= 0
  }

  ghost predicate Table<K>(t: seq<int>, keys: seq<K>, h: K -> nat) {
    Slots(t, keys) && Distinct(t, keys) && Chained(t, keys, h) && -1 in t
  }

  ghost predicate Absent<K>(t: seq<int>, keys: seq<K>, k: K)
    requires Slots(t, keys)
  {
    forall j :: 0 <= j < |t| && t[j] >= 0 ==> keys[t[j]] != k
  }

  // p is the first empty slot from the home of k on.
  ghost predicate FirstEmpty<K>(t: seq<int>, h: K -> nat, k: K, p: int) {
    && 0 <= p < |t| && t[p] < 0
    && forall m :: 0 <= m < |t| && Off(|t|, Home(|t|, h, k), m) < Off(|t|, Home(|t|, h, k), p) ==> t[m] >= 0
  }

  // Every slot from the home of k up to p holds an entry with another key.
  ghost predicate Passed<K>(t: seq<int>, keys: seq<K>, h: K -> nat, k: K, p: int) {
    |t| > 0 && forall m :: 0 <= m < |t| && Off(|t|, Home(|t|, h, k), m) < Off(|t|, Home(|t|, h, k), p) ==>
      0 <= t[m] < |keys| && keys[t[m]] != k
  }

  lemma InsertKeeps<K>(t: seq<int>, keys: seq<K>, h: K -> nat, e: int, p: int)
    requires Slots(t, keys) && Distinct(t, keys) && Chained(t, keys, h)
    requires 0 <= e < |keys| && Absent(t, keys, keys[e]) && FirstEmpty(t, h, keys[e], p)
    ensures var t' := t[p := e]; Slots(t', keys) && Distinct(t', keys) && Chained(t', keys, h)
  {}

  // The probe: stops at an entry with key k, or else at the first empty slot.
  method Scan<K(==)>(tab: array<int>, keys: seq<K>, h: K -> nat, k: K) returns (i: int)
    requires Slots(tab[..], keys) && -1 in tab[..]
    ensures 0 <= i < tab.Length && (tab[i] >= 0 ==> 0 <= tab[i] < |keys| && keys[tab[i]] == k)
    ensures tab[i] < 0 ==> FirstEmpty(tab[..], h, k, i)
    ensures Passed(tab[..], keys, h, k, i)
  {
    var n := tab.Length;
    var home := Home(n, h, k);
    i := home;
    for s := 0 to n
      invariant 0 <= i < n && (s < n ==> Off(n, home, i) == s)
      invariant forall m :: 0 <= m < n && Off(n, home, m) < s ==> 0 <= tab[m] < |keys| && keys[tab[m]] != k
    {
      assert -1 <= tab[..][i] < |keys|;
      if tab[i] < 0 || keys[tab[i]] == k { return; }
      i := Next(n, i);
    }
    assert false;
  }

  // In a proper table an empty slot at the end of the probe means that k is nowhere.
  method Locate<K(==)>(tab: array<int>, keys: seq<K>, h: K -> nat, k: K) returns (i: int)
    requires Table(tab[..], keys, h)
    ensures 0 <= i < tab.Length
    ensures tab[i] < 0 ==> Absent(tab[..], keys, k) && FirstEmpty(tab[..], h, k, i)
    ensures tab[i] >= 0 ==> 0 <= tab[i] < |keys| && keys[tab[i]] == k
  {
    i := Scan(tab, keys, h, k);
    if tab[i] < 0 { NotFurther(tab[..], keys, h, k, i); }
  }

  lemma NotFurther<K>(t: seq<int>, keys: seq<K>, h: K -> nat, k: K, p: int)
    requires Table(t, keys, h) && 0 <= p < |t| && t[p] < 0 && Passed(t, keys, h, k, p)
    ensures Absent(t, keys, k)
  {}

  method Insert<K>(tab: array<int>, keys: seq<K>, h: K -> nat, e: int) returns (ghost p: int)
    requires Slots(tab[..], keys) && 0 <= e < |keys| && -1 in tab[..]
    modifies tab
    ensures FirstEmpty(old(tab[..]), h, keys[e], p) && tab[..] == old(tab[..])[p := e]
  {
    var n := tab.Length;
    var home := Home(n, h, keys[e]);
    var i := home;
    for s := 0 to n
      invariant tab[..] == old(tab[..])
      invariant 0 <= i < n && (s < n ==> Off(n, home, i) == s)
      invariant forall m :: 0 <= m < n && Off(n, home, m) < s ==> tab[m] >= 0
    {
      if tab[i] < 0 {
        p := i;
        tab[i] := e;
        return;
      }
      i := Next(n, i);
    }
    assert false;
  }

  // ----- deletion: clear one slot, then take out and re-insert the rest of the cluster -----

  // d was cleared and the slots up to j are done; end is the first slot after d that was empty in t0.
  // The only broken paths lead from unscanned entries across emptied scanned slots.
  ghost predicate Repairing<K>(t0: seq<int>, t: seq<int>, keys: seq<K>, h: K -> nat, d: int, j: int, end: int) {
    var n := |t0|;
    && |t| == n && Slots(t0, keys) && Slots(t, keys) && Distinct(t, keys)
    && 0 <= d < n && 0 <= j < n && 0 <= end < n && t0[d] >= 0 && t0[end] < 0 && d != j
    && Off(n, d, j) <= Off(n, d, end)
    && (forall m :: 0 <= m < n && 0 < Off(n, d, m) < Off(n, d, end) ==> t0[m] >= 0)
    && (forall m :: 0 <= m < n && Off(n, d, j) <= Off(n, d, m) ==> t[m] == t0[m])
    && PathsMended(t, keys, h, d, j, end)
  }

  ghost predicate PathsMended<K>(t: seq<int>, keys: seq<K>, h: K -> nat, d: int, j: int, end: int)
    requires Slots(t, keys)
  {
    forall i, m {:trigger t[i], t[m]} ::
      0 <= i < |t| && 0 <= m < |t| && t[i] >= 0 && t[m] < 0 && OnPath(t, keys, h, i, m) ==>
        Off(|t|, d, m) < Off(|t|, d, j) <= Off(|t|, d, i) < Off(|t|, d, end)
  }

  // Entries that stay are the same, and none moves past its old position.
  ghost predicate Moved<K>(t0: seq<int>, t: seq<int>, keys: seq<K>, h: K -> nat, gone: int)
    requires Slots(t0, keys) && Slots(t, keys) && |t| == |t0|
  {
    && (forall e :: e >= 0 ==> (e in t <==> e in t0 && e != gone))
    && forall i, i0 {:trigger t[i], t0[i0]} :: 0 <= i < |t| && 0 <= i0 < |t| && t[i] == t0[i0] >= 0 ==>
         Off(|t|, Home(|t|, h, keys[t[i]]), i) <= Off(|t|, Home(|t|, h, keys[t[i]]), i0)
  }

  lemma ReinsertPlace<K>(t0: seq<int>, t: seq<int>, keys: seq<K>, h: K -> nat, d: int, j: int, end: int, p: int)
    requires Repairing(t0, t, keys, h, d, j, end) && t[j] >= 0 && FirstEmpty(t[j := -1], h, keys[t[j]], p)
    ensures Off(|t|, Home(|t|, h, keys[t[j]]), p) <= Off(|t|, Home(|t|, h, keys[t[j]]), j)
    ensures Off(|t|, d, p) <= Off(|t|, d, j) < Off(|t|, d, end)
  {
    var t1 := t[j := -1];
    assert t1[j] < 0;
    if p != j { assert t[p] < 0; }
  }

  // A path from a to i that crosses j but not end, which follows j: then i lies between the two.
  lemma Between(n: int, d: int, j: int, end: int, a: int, i: int)
    requires 0 <= d < n && 0 <= j < n && 0 <= end < n && 0 <= a < n && 0 <= i < n && i != end
    requires Off(n, d, j) < Off(n, d, end)
    requires Off(n, a, j) < Off(n, a, i) <= Off(n, a, end)
    ensures Off(n, d, j) < Off(n, d, i) < Off(n, d, end)
  {}

  lemma ReinsertKeeps<K>(t0: seq<int>, t: seq<int>, keys: seq<K>, h: K -> nat, d: int, j: int, end: int, p: int)
    requires Repairing(t0, t, keys, h, d, j, end) && t[j] >= 0 && FirstEmpty(t[j := -1], h, keys[t[j]], p)
    ensures Repairing(t0, t[j := -1][p := t[j]], keys, h, d, Next(|t|, j), end)
  {
    ReinsertPlace(t0, t, keys, h, d, j, end, p);
    ReinsertPaths(t0, t, keys, h, d, j, end, p);
    hide PathsMended, FirstEmpty;
    assert t[end] < 0;
  }

  lemma ReinsertPaths<K>(t0: seq<int>, t: seq<int>, keys: seq<K>, h: K -> nat, d: int, j: int, end: int, p: int)
    requires Repairing(t0, t, keys, h, d, j, end) && t[j] >= 0 && FirstEmpty(t[j := -1], h, keys[t[j]], p)
    ensures Slots(t[j := -1][p := t[j]], keys) && PathsMended(t[j := -1][p := t[j]], keys, h, d, Next(|t|, j), end)
  {
    var n, t' := |t|, t[j := -1][p := t[j]];
    forall i, m | 0 <= i < n && 0 <= m < n && t'[i] >= 0 && t'[m] < 0 && OnPath(t', keys, h, i, m)
      ensures Off(n, d, m) < Off(n, d, Next(n, j)) <= Off(n, d, i) < Off(n, d, end)
    {
      ReinsertPath(t0, t, keys, h, d, j, end, p, i, m);
    }
  }

  // After re-inserting slot j at p, a broken path leads from an unscanned entry across a scanned slot.
  lemma ReinsertPath<K>(t0: seq<int>, t: seq<int>, keys: seq<K>, h: K -> nat, d: int, j: int, end: int, p: int, i: int,
          m: int)
    requires Repairing(t0, t, keys, h, d, j, end) && t[j] >= 0 && FirstEmpty(t[j := -1], h, keys[t[j]], p)
    requires 0 <= i < |t| && 0 <= m < |t| && Slots(t[j := -1][p := t[j]], keys) && t[j := -1][p := t[j]][i] >= 0
    requires t[j := -1][p := t[j]][m] < 0 && OnPath(t[j := -1][p := t[j]], keys, h, i, m)
    ensures Off(|t|, d, m) < Off(|t|, d, Next(|t|, j)) <= Off(|t|, d, i) < Off(|t|, d, end)
  {
    ReinsertPlace(t0, t, keys, h, d, j, end, p);
    assert t[end] < 0;
    assert t[j := -1][m] < 0;
    assert i != p;
    assert t[i] == t[j := -1][p := t[j]][i];
    if m != j { assert t[m] < 0; } else { Between(|t|, d, j, end, Home(|t|, h, keys[t[i]]), i); }
  }

  // Moving the entry of slot j to an empty slot p leaves the same entries.
  lemma SameEntries(t: seq<int>, j: int, p: int)
    requires 0 <= j < |t| && 0 <= p < |t| && t[j] >= 0 && t[j := -1][p] < 0
    ensures forall e :: e >= 0 ==> (e in t[j := -1][p := t[j]] <==> e in t)
  {
    var t' := t[j := -1][p := t[j]];
    forall e | e >= 0 ensures e in t' <==> e in t {
      if e in t { var i :| 0 <= i < |t| && t[i] == e; assert if i == j then t'[p] == e else t'[i] == e; }
    }
  }

  lemma ReinsertMoved<K>(t0: seq<int>, t: seq<int>, keys: seq<K>, h: K -> nat, d: int, j: int, end: int, p: int,
          gone: int)
    requires Repairing(t0, t, keys, h, d, j, end) && t[j] >= 0 && FirstEmpty(t[j := -1], h, keys[t[j]], p)
    requires Moved(t0, t, keys, h, gone) && Distinct(t0, keys)
    ensures Slots(t[j := -1][p := t[j]], keys) && Moved(t0, t[j := -1][p := t[j]], keys, h, gone)
  {
    hide PathsMended;
    ReinsertPlace(t0, t, keys, h, d, j, end, p);
    SameEntries(t, j, p);
    assert t0[j] == t[j];
  }

  // Finds the first empty slot after d.
  lemma ClusterEnd(t: seq<int>, d: int) returns (end: int)
    requires 0 <= d < |t| && t[d] >= 0 && exists z :: 0 <= z < |t| && t[z] < 0
    ensures 0 <= end < |t| && t[end] < 0
    ensures forall m :: 0 <= m < |t| && 0 < Off(|t|, d, m) < Off(|t|, d, end) ==> t[m] >= 0
  {
    var z :| 0 <= z < |t| && t[z] < 0;
    end := Next(|t|, d);
    while t[end] >= 0
      invariant 0 <= end < |t| && 0 < Off(|t|, d, end) <= Off(|t|, d, z)
      invariant forall m :: 0 <= m < |t| && 0 < Off(|t|, d, m) < Off(|t|, d, end) ==> t[m] >= 0
      decreases Off(|t|, d, z) - Off(|t|, d, end)
    {
      end := Next(|t|, end);
    }
  }

  lemma RepairStart<K>(t0: seq<int>, keys: seq<K>, h: K -> nat, d: int, end: int)
    requires Table(t0, keys, h) && 0 <= d < |t0| && t0[d] >= 0 && 0 <= end < |t0| && t0[end] < 0
    requires forall m :: 0 <= m < |t0| && 0 < Off(|t0|, d, m) < Off(|t0|, d, end) ==> t0[m] >= 0
    ensures Repairing(t0, t0[d := -1], keys, h, d, Next(|t0|, d), end)
  {
    var t := t0[d := -1];
    forall i, m | 0 <= i < |t| && 0 <= m < |t| && t[i] >= 0 && t[m] < 0 && OnPath(t, keys, h, i, m)
      ensures m == d && 0 < Off(|t|, d, i) < Off(|t|, d, end)
    {
      assert t0[i] == t[i];
      assert t0[m] >= 0;
      assert t0[end] < 0;
      Between(|t|, d, d, end, Home(|t|, h, keys[t[i]]), i);
    }
  }

  lemma MovedStart<K>(t0: seq<int>, keys: seq<K>, h: K -> nat, d: int)
    requires Table(t0, keys, h) && 0 <= d < |t0| && t0[d] >= 0
    ensures Slots(t0[d := -1], keys) && Moved(t0, t0[d := -1], keys, h, t0[d])
  {
    var t := t0[d := -1];
    forall e | e >= 0 && e in t0 && e != t0[d]
      ensures e in t
    {
      var i :| 0 <= i < |t0| && t0[i] == e;
      assert t[i] == e;
    }
    forall i | 0 <= i < |t| && t[i] >= 0 ensures t[i] in t0 && t[i] != t0[d] { assert t0[i] == t[i]; }
  }

  lemma RepairFacts<K>(t0: seq<int>, t: seq<int>, keys: seq<K>, h: K -> nat, d: int, j: int, end: int)
    requires Repairing(t0, t, keys, h, d, j, end)
    ensures 0 <= j < |t| == |t0| && Slots(t, keys) && (t[j] >= 0 ==> Slots(t[j := -1], keys) && t[j := -1][j] == -1)
    ensures t[j] >= 0 ==> Off(|t|, d, j) < Off(|t|, d, Next(|t|, j)) <= Off(|t|, d, end)
  {
    assert t[end] == t0[end];
  }

  lemma RepairDone<K>(t0: seq<int>, t: seq<int>, keys: seq<K>, h: K -> nat, d: int, j: int, end: int)
    requires Repairing(t0, t, keys, h, d, j, end) && t[j] < 0
    ensures Table(t, keys, h)
  {
    assert t[j] == t0[j];
  }

  lemma GoneAbsent<K>(t0: seq<int>, t: seq<int>, keys: seq<K>, h: K -> nat, d: int)
    requires Slots(t0, keys) && Slots(t, keys) && |t| == |t0| && Distinct(t0, keys) && 0 <= d < |t0| && t0[d] >= 0
    requires Moved(t0, t, keys, h, t0[d])
    ensures Absent(t, keys, keys[t0[d]])
  {
    forall j | 0 <= j < |t| && t[j] >= 0 ensures keys[t[j]] != keys[t0[d]] {
      assert t[j] in t;
      var i :| 0 <= i < |t0| && t0[i] == t[j];
    }
  }

  // Slot i is where a lookup of k ends with success.
  ghost predicate Hit<K>(t: seq<int>, keys: seq<K>, k: K, i: int)
    requires Slots(t, keys)
  {
    0 <= i < |t| && t[i] >= 0 && keys[t[i]] == k
  }

  // A deletion leaves the lookup of every other key unchanged: it fails or finds the same entry, no later on its path.
  lemma OthersUnchanged<K>(t0: seq<int>, t: seq<int>, keys: seq<K>, h: K -> nat, gone: int, k: K)
    requires Table(t0, keys, h) && Table(t, keys, h) && |t| == |t0| && Moved(t0, t, keys, h, gone)
    requires 0 <= gone < |keys| && keys[gone] != k
    ensures Absent(t, keys, k) <==> Absent(t0, keys, k)
    ensures forall i, i0 :: Hit(t, keys, k, i) && Hit(t0, keys, k, i0) ==> t[i] == t0[i0]
    ensures forall i, i0 :: Hit(t, keys, k, i) && Hit(t0, keys, k, i0) ==>
      Off(|t|, Home(|t|, h, k), i) <= Off(|t|, Home(|t|, h, k), i0)
  {
    forall i | Hit(t, keys, k, i) ensures exists i0 :: Hit(t0, keys, k, i0) && t0[i0] == t[i] {
      assert t[i] in t;
      var i0 :| 0 <= i0 < |t0| && t0[i0] == t[i];
      assert Hit(t0, keys, k, i0);
    }
    forall i0 | Hit(t0, keys, k, i0) ensures exists i :: Hit(t, keys, k, i) && t[i] == t0[i0] {
      assert t0[i0] in t0;
      var i :| 0 <= i < |t| && t[i] == t0[i0];
      assert Hit(t, keys, k, i);
    }
    assert Absent(t, keys, k) <==> forall i :: !Hit(t, keys, k, i);
    assert Absent(t0, keys, k) <==> forall i :: !Hit(t0, keys, k, i);
  }

  // Clears slot d, then takes out and re-inserts every entry up to the next empty slot.
  method RemoveAt<K>(tab: array<int>, keys: seq<K>, h: K -> nat, d: int)
    requires Table(tab[..], keys, h) && 0 <= d < tab.Length && tab[d] >= 0
    modifies tab
    ensures Table(tab[..], keys, h) && 0 <= old(tab[d]) < |keys|
    ensures Absent(tab[..], keys, keys[old(tab[d])]) && Moved(old(tab[..]), tab[..], keys, h, old(tab[d]))
  {
    hide Repairing, Moved, Distinct, Chained, FirstEmpty, Off;
    var n := tab.Length;
    ghost var t0, gone := tab[..], tab[d];
    ghost var end := ClusterEnd(t0, d);
    RepairStart(t0, keys, h, d, end);
    MovedStart(t0, keys, h, d);
    tab[d] := -1;
    assert tab[..] == t0[d := -1];
    var j := Next(n, d);
    RepairFacts(t0, tab[..], keys, h, d, j, end);
    while tab[j] >= 0
      invariant 0 <= j < n && Slots(tab[..], keys)
      invariant Repairing(t0, tab[..], keys, h, d, j, end) && Moved(t0, tab[..], keys, h, gone)
      decreases Off(n, d, end) - Off(n, d, j)
    {
      ghost var t := tab[..];
      RepairFacts(t0, t, keys, h, d, j, end);
      var e := tab[j];
      tab[j] := -1;
      assert tab[..] == t[j := -1];
      ghost var p := Insert(tab, keys, h, e);
      ReinsertKeeps(t0, t, keys, h, d, j, end, p);
      ReinsertMoved(t0, t, keys, h, d, j, end, p, gone);
      j := Next(n, j);
      RepairFacts(t0, tab[..], keys, h, d, j, end);
    }
    RepairDone(t0, tab[..], keys, h, d, j, end);
    GoneAbsent(t0, tab[..], keys, h, d);
  }

  method Remove<K(==)>(tab: array<int>, keys: seq<K>, h: K -> nat, k: K) returns (ghost gone: int)
    requires Table(tab[..], keys, h)
    modifies tab
    ensures Table(tab[..], keys, h) && Absent(tab[..], keys, k)
    ensures gone == -1 ==> tab[..] == old(tab[..]) && Absent(old(tab[..]), keys, k)
    ensures gone != -1 ==>
      gone in old(tab[..]) && 0 <= gone < |keys| && keys[gone] == k && Moved(old(tab[..]), tab[..], keys, h, gone)
  {
    hide Distinct, Chained, Moved, FirstEmpty;
    var d := Locate(tab, keys, h, k);
    gone := if tab[d] >= 0 then tab[d] else -1;
    if tab[d] >= 0 { RemoveAt(tab, keys, h, d); }
  }

  // ----- tables over keys that change, and room -----

  lemma TableAgree<K>(t: seq<int>, keys: seq<K>, keys': seq<K>, h: K -> nat)
    requires Table(t, keys, h) && |keys| <= |keys'|
    requires forall i :: 0 <= i < |t| && t[i] >= 0 ==> keys[t[i]] == keys'[t[i]]
    ensures Table(t, keys', h)
  {
    forall i, m | 0 <= i < |t| && 0 <= m < |t| && t[i] >= 0 && OnPath(t, keys', h, i, m) ensures t[m] >= 0 {
      assert OnPath(t, keys, h, i, m);
    }
  }

  lemma ReplaceKeeps<K>(t: seq<int>, keys: seq<K>, h: K -> nat, i: int, e: int)
    requires Table(t, keys, h) && 0 <= i < |t| && t[i] >= 0 && 0 <= e < |keys| && keys[e] == keys[t[i]]
    ensures Table(t[i := e], keys, h)
  {
    var t' := t[i := e];
    assert -1 in t' by { var z :| 0 <= z < |t| && t[z] == -1; assert t'[z] == -1; }
    forall a, m | 0 <= a < |t| && 0 <= m < |t| && t'[a] >= 0 && OnPath(t', keys, h, a, m) ensures t'[m] >= 0 {
      assert OnPath(t, keys, h, a, m);
      assert t[a] >= 0 && t[m] >= 0;
    }
  }

  // More slots than entries leave an empty slot.
  lemma Room<K>(t: seq<int>, keys: seq<K>)
    requires Slots(t, keys) && Distinct(t, keys) && |t| > |keys|
    ensures -1 in t
  {
    if -1 !in t {
      assert forall i :: 0 <= i < |t| ==> 0 <= t[i] < |keys|;
      Pigeonhole(t, |keys|);
    }
  }

  lemma {:induction false} Pigeonhole(t: seq<int>, n: int)
    requires n >= 0 && forall i :: 0 <= i < |t| ==> 0 <= t[i] < n
    requires forall i, j :: 0 <= i < j < |t| ==> t[i] != t[j]
    ensures |t| <= n
  {
    assert t == [] || 0 <= t[0] < n;
    if t != [] {
      if j :| 0 <= j < |t| && t[j] == n - 1 { Pigeonhole(t[..j] + t[j + 1..], n - 1); }
      else { Pigeonhole(t[1..], n - 1); }
    }
  }

  // Adding an entry whose key is absent, where slots outnumber entries.
  lemma InsertTable<K>(t: seq<int>, keys: seq<K>, h: K -> nat, e: int, p: int)
    requires Table(t, keys, h) && 0 <= e < |keys| < |t| && Absent(t, keys, keys[e]) && FirstEmpty(t, h, keys[e], p)
    ensures Table(t[p := e], keys, h)
  {
    InsertKeeps(t, keys, h, e, p);
    Room(t[p := e], keys);
  }

  // ----- an index over the first n entries -----

  // The table holds exactly the first n entries.
  ghost predicate Indexed<K>(t: seq<int>, keys: seq<K>, h: K -> nat, n: int) {
    && |t| > |keys| && Table(t, keys, h) && forall i :: i >= 0 ==> (i in t <==> i < n)
  }

  lemma InsertIndexed<K>(t: seq<int>, keys: seq<K>, h: K -> nat, n: int, p: int)
    requires Indexed(t, keys, h, n) && 0 <= n < |keys| && FirstEmpty(t, h, keys[n], p)
    requires forall i :: 0 <= i < n ==> keys[i] != keys[n]
    ensures 0 <= p < |t| && Indexed(t[p := n], keys, h, n + 1)
  {
    forall j | 0 <= j < |t| && t[j] >= 0 ensures keys[t[j]] != keys[n] { assert t[j] in t; }
    InsertTable(t, keys, h, n, p);
    var t' := t[p := n];
    assert t'[p] == n;
    forall i | i >= 0 ensures i in t' <==> i < n + 1 {
      if i in t { var x :| 0 <= x < |t| && t[x] == i; assert t'[x] == i; }
    }
  }

  lemma NoneIndexed<K>(t: seq<int>, keys: seq<K>, h: K -> nat)
    requires |t| > |keys| && forall i :: 0 <= i < |t| ==> t[i] == -1
    ensures Indexed(t, keys, h, 0)
  {
    assert t[0] == -1;
  }

  lemma GrowIndexed<K>(t: seq<int>, keys: seq<K>, h: K -> nat, keys': seq<K>)
    requires Indexed(t, keys, h, |keys|) && |t| > |keys'| >= |keys| && keys'[..|keys|] == keys
    ensures Indexed(t, keys', h, |keys|)
  {
    forall i | 0 <= i < |t| && t[i] >= 0
      ensures keys[t[i]] == keys'[t[i]]
    {
      assert keys'[..|keys|][t[i]] == keys[t[i]];
    }
    TableAgree(t, keys, keys', h);
  }

  lemma IndexedFacts<K>(t: seq<int>, keys: seq<K>, h: K -> nat, n: int)
    requires Indexed(t, keys, h, n)
    ensures Table(t, keys, h) && Slots(t, keys) && -1 in t && |t| > |keys|
  {}

  // What a probe finds in a full index.
  lemma Found<K>(t: seq<int>, keys: seq<K>, h: K -> nat, k: K, i: int)
    requires Indexed(t, keys, h, |keys|) && 0 <= i < |t|
    requires t[i] < 0 ==> Slots(t, keys) && Absent(t, keys, k)
    requires t[i] >= 0 ==> t[i] < |keys| && keys[t[i]] == k
    ensures t[i] < 0 <==> forall e :: 0 <= e < |keys| ==> keys[e] != k
  {
    if t[i] < 0 {
      forall e | 0 <= e < |keys| ensures keys[e] != k { assert e in t; var x :| 0 <= x < |t| && t[x] == e; }
    }
  }
}
