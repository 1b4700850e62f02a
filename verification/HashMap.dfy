// The hash map with tombstones: a finite map behind open addressing whose load never exceeds three quarters.
module HashMap {
  import opened Probe

  datatype Slot = Empty | Deleted | Full(key: string, val: int)

  function Fulls(s: seq<Slot>): (c: int)
    ensures 0 <= c <= |s|
  { if s == [] then 0 else Fulls(s[..|s| - 1]) + if s[|s| - 1].Full? then 1 else 0 }

  function NonEmpties(s: seq<Slot>): (c: int)
    ensures Fulls(s) <= c <= |s|
  { if s == [] then 0 else NonEmpties(s[..|s| - 1]) + if s[|s| - 1].Empty? then 0 else 1 }

  lemma {:induction false} CountUpdate(s: seq<Slot>, i: int, v: Slot)
    requires 0 <= i < |s|
    ensures Fulls(s[i := v]) == Fulls(s) - (if s[i].Full? then 1 else 0) + if v.Full? then 1 else 0
    ensures NonEmpties(s[i := v]) == NonEmpties(s) - (if s[i].Empty? then 0 else 1) + if v.Empty? then 0 else 1
  {
    var n := |s| - 1;
    if i == n { assert s[i := v][..n] == s[..n]; }
    else { CountUpdate(s[..n], i, v); assert s[i := v][..n] == s[..n][i := v]; }
  }

  lemma {:induction false} HasEmpty(s: seq<Slot>) returns (z: int)
    requires NonEmpties(s) < |s|
    ensures 0 <= z < |s| && s[z].Empty?
  {
    var n := |s| - 1;
    if s[n].Empty? { z := n; } else { z := HasEmpty(s[..n]); }
  }

  lemma {:induction false} HasFree(s: seq<Slot>) returns (z: int)
    requires Fulls(s) < |s|
    ensures 0 <= z < |s| && !s[z].Full?
  {
    var n := |s| - 1;
    if !s[n].Full? { z := n; } else { z := HasFree(s[..n]); }
  }

  ghost predicate Has(s: seq<Slot>, k: string) {
    exists i :: 0 <= i < |s| && s[i].Full? && s[i].key == k
  }

  ghost predicate Holds(s: seq<Slot>, m: map<string, int>) {
    && (forall i, j :: 0 <= i < j < |s| && s[i].Full? && s[j].Full? ==> s[i].key != s[j].key)
    && (forall i :: 0 <= i < |s| && s[i].Full? ==> s[i].key in m && m[s[i].key] == s[i].val)
    && (forall k {:trigger Has(s, k)} {:trigger k in m} :: k in m ==> Has(s, k))
  }

  // Slot j lies on the way from the home of the key in slot i to slot i.
  ghost predicate Crosses(s: seq<Slot>, h: string -> nat, i: int, j: int)
    requires 0 <= i < |s| && s[i].Full?
  {
    Off(|s|, Home(|s|, h, s[i].key), j) < Off(|s|, Home(|s|, h, s[i].key), i)
  }

  ghost predicate Reachable(s: seq<Slot>, h: string -> nat) {
    forall i, j {:trigger s[i], s[j]} :: 0 <= i < |s| && 0 <= j < |s| && s[i].Full? && Crosses(s, h, i, j) ==>
      !s[j].Empty?
  }

  // k is in none of the first n slots from its home.
  ghost predicate Unseen(s: seq<Slot>, h: string -> nat, k: string, n: int) {
    |s| > 0 && forall j :: 0 <= j < |s| && Off(|s|, Home(|s|, h, k), j) < n && s[j].Full? ==> s[j].key != k
  }

  lemma Miss(s: seq<Slot>, h: string -> nat, k: string, n: int, m: map<string, int>)
    requires Holds(s, m) && Reachable(s, h) && Unseen(s, h, k, n)
    requires n >= |s| || exists i :: 0 <= i < |s| && s[i].Empty? && Off(|s|, Home(|s|, h, k), i) == n
    ensures k !in m && forall j :: 0 <= j < |s| && s[j].Full? ==> s[j].key != k
  {
    forall j | 0 <= j < |s| && s[j].Full? ensures s[j].key != k {
      if n < |s| {
        var i :| 0 <= i < |s| && s[i].Empty? && Off(|s|, Home(|s|, h, k), i) == n;
        assert !Crosses(s, h, j, i);
      }
    }
  }

  lemma PlaceKeeps(s: seq<Slot>, h: string -> nat, m: map<string, int>, k: string, v: int, p: int)
    requires Holds(s, m) && Reachable(s, h) && 0 <= p < |s| && !s[p].Full?
    requires forall j :: 0 <= j < |s| && s[j].Full? ==> s[j].key != k
    requires forall j :: 0 <= j < |s| && Off(|s|, Home(|s|, h, k), j) < Off(|s|, Home(|s|, h, k), p) ==> s[j].Full?
    ensures Holds(s[p := Full(k, v)], m[k := v]) && Reachable(s[p := Full(k, v)], h) && k !in m
  {
    var s' := s[p := Full(k, v)];
    forall x | x in m[k := v] ensures Has(s', x) {
      if x == k { assert s'[p].key == x; }
      else { assert Has(s, x); var i :| 0 <= i < |s| && s[i].Full? && s[i].key == x; assert s'[i] == s[i]; }
    }
    forall i, j | 0 <= i < |s'| && 0 <= j < |s'| && s'[i].Full? && Crosses(s', h, i, j) ensures !s'[j].Empty? {
      if i != p && j != p { assert s[i] == s'[i] && Crosses(s, h, i, j); assert !s[j].Empty?; }
    }
  }

  lemma OverwriteKeeps(s: seq<Slot>, h: string -> nat, m: map<string, int>, v: int, p: int)
    requires Holds(s, m) && Reachable(s, h) && 0 <= p < |s| && s[p].Full?
    ensures var k := s[p].key; Holds(s[p := Full(k, v)], m[k := v]) && Reachable(s[p := Full(k, v)], h)
  {
    var s', k := s[p := Full(s[p].key, v)], s[p].key;
    forall x | x in m[k := v] ensures Has(s', x) {
      if x == k { assert s'[p].key == x; }
      else { assert Has(s, x); var i :| 0 <= i < |s| && s[i].Full? && s[i].key == x; assert s'[i] == s[i]; }
    }
    forall i, j | 0 <= i < |s'| && 0 <= j < |s'| && s'[i].Full? && Crosses(s', h, i, j) ensures !s'[j].Empty? {
      assert s[i].Full? && s[i].key == s'[i].key && Crosses(s, h, i, j); assert !s[j].Empty?;
    }
  }

  lemma TombstoneKeeps(s: seq<Slot>, h: string -> nat, m: map<string, int>, p: int)
    requires Holds(s, m) && Reachable(s, h) && 0 <= p < |s| && s[p].Full?
    ensures Holds(s[p := Deleted], m - {s[p].key}) && Reachable(s[p := Deleted], h)
  {
    var s' := s[p := Deleted];
    forall x | x in m - {s[p].key} ensures Has(s', x) {
      assert Has(s, x); var i :| 0 <= i < |s| && s[i].Full? && s[i].key == x; assert s'[i] == s[i];
    }
    forall i, j | 0 <= i < |s'| && 0 <= j < |s'| && s'[i].Full? && Crosses(s', h, i, j) ensures !s'[j].Empty? {
      assert s[i] == s'[i] && Crosses(s, h, i, j); assert !s[j].Empty?;
    }
  }

  // The first slot from the home of k that holds no key.
  method FreeSlot(a: array<Slot>, h: string -> nat, k: string) returns (p: int)
    requires a.Length > 0 && Fulls(a[..]) < a.Length
    ensures 0 <= p < a.Length && !a[p].Full?
    ensures forall j ::
      0 <= j < a.Length && Off(a.Length, Home(a.Length, h, k), j) < Off(a.Length, Home(a.Length, h, k), p) ==>
        a[j].Full?
  {
    var n := a.Length;
    var home := Home(n, h, k);
    ghost var z := HasFree(a[..]);
    p := home;
    while a[p].Full?
      invariant 0 <= p < n && Off(n, home, p) <= Off(n, home, z)
      invariant forall j :: 0 <= j < n && Off(n, home, j) < Off(n, home, p) ==> a[j].Full?
      decreases Off(n, home, z) - Off(n, home, p)
    {
      p := Next(n, p);
    }
  }

  lemma {:induction false} AllEmpty(s: seq<Slot>, h: string -> nat)
    requires forall i :: 0 <= i < |s| ==> s[i].Empty?
    ensures Fulls(s) == 0 && NonEmpties(s) == 0 && Holds(s, map[]) && Reachable(s, h)
  {
    if s != [] { AllEmpty(s[..|s| - 1], h); }
  }

  lemma HoldsUnique(s: seq<Slot>, m: map<string, int>, m': map<string, int>)
    requires Holds(s, m) && Holds(s, m')
    ensures m == m'
  {
    forall k | k in m ensures k in m' && m'[k] == m[k] { assert Has(s, k); }
    forall k | k in m' ensures k in m { assert Has(s, k); }
  }

  lemma NothingHeld(s: seq<Slot>)
    ensures Holds(s[..0], map[]) && Fulls(s[..0]) == 0
  {}

  // One step of the copy: what the prefix of the old table holds.
  lemma HoldsPrefix(s: seq<Slot>, i: int, m: map<string, int>, m': map<string, int>)
    requires Holds(s, m) && 0 <= i < |s| && Holds(s[..i], m')
    ensures s[i].Full? ==> s[i].key !in m' && Holds(s[..i + 1], m'[s[i].key := s[i].val])
    ensures !s[i].Full? ==> Holds(s[..i + 1], m')
    ensures Fulls(s[..i + 1]) == Fulls(s[..i]) + if s[i].Full? then 1 else 0
  {
    assert s[..i + 1][..i] == s[..i];
    if s[i].Full? { HoldsAppend(s[..i], s[i], m'); assert s[..i + 1] == s[..i] + [s[i]]; }
    else { HoldsSkip(s[..i], s[i], m'); assert s[..i + 1] == s[..i] + [s[i]]; }
  }

  lemma HoldsAppend(p: seq<Slot>, x: Slot, m: map<string, int>)
    requires Holds(p, m) && x.Full? && forall j :: 0 <= j < |p| && p[j].Full? ==> p[j].key != x.key
    ensures x.key !in m && Holds(p + [x], m[x.key := x.val])
  {
    var q := p + [x];
    assert x.key in m ==> Has(p, x.key);
    forall k | k in m[x.key := x.val] ensures Has(q, k) {
      if k == x.key { assert q[|p|].key == k; }
      else { assert Has(p, k); var j :| 0 <= j < |p| && p[j].Full? && p[j].key == k; assert q[j] == p[j]; }
    }
  }

  lemma HoldsSkip(p: seq<Slot>, x: Slot, m: map<string, int>)
    requires Holds(p, m) && !x.Full?
    ensures Holds(p + [x], m)
  {
    var q := p + [x];
    forall k | k in m ensures Has(q, k) {
      assert Has(p, k); var j :| 0 <= j < |p| && p[j].Full? && p[j].key == k; assert q[j] == p[j];
    }
  }

  lemma {:induction false} FullsPrefix(s: seq<Slot>, i: int)
    requires 0 <= i <= |s|
    ensures Fulls(s[..i]) <= Fulls(s)
  {
    if i < |s| { var t := s[..|s| - 1]; assert t[..i] == s[..i]; FullsPrefix(t, i); } else { assert s[..i] == s; }
  }

  method CopyInto(ne: array<Slot>, h: string -> nat, k: string, v: int, ghost m: map<string, int>)
    requires ne.Length > 0 && Fulls(ne[..]) == NonEmpties(ne[..]) < ne.Length && Holds(ne[..], m)
    requires Reachable(ne[..], h) && k !in m
    modifies ne
    ensures Holds(ne[..], m[k := v]) && Reachable(ne[..], h)
    ensures Fulls(ne[..]) == NonEmpties(ne[..]) == old(Fulls(ne[..])) + 1
  {
    ghost var s := ne[..];
    var p := FreeSlot(ne, h, k);
    assert s[p].Empty? by { ghost var z := FullsAreAll(s, p); }
    PlaceKeeps(s, h, m, k, v, p);
    CountUpdate(s, p, Full(k, v));
    hide Holds, Reachable, Fulls, NonEmpties, Off;
    ne[p] := Full(k, v);
    assert ne[..] == s[p := Full(k, v)];
  }

  // With no tombstones a slot without a key is empty.
  lemma {:induction false} FullsAreAll(s: seq<Slot>, p: int) returns (z: int)
    requires Fulls(s) == NonEmpties(s) && 0 <= p < |s| && !s[p].Full?
    ensures s[p].Empty? && z == p
  {
    z := p;
    if p < |s| - 1 { z := FullsAreAll(s[..|s| - 1], p); }
  }

  ghost predicate PowerOfTwo(n: int) {
    n == 16 || (n > 16 && n % 2 == 0 && PowerOfTwo(n / 2))
  }

  lemma {:induction false} PowerOfTwoBy16(n: int)
    requires PowerOfTwo(n)
    ensures n >= 16 && n % 4 == 0 && PowerOfTwo(2 * n)
  {
    if n > 16 { PowerOfTwoBy16(n / 2); }
  }

  // A table in good order: the load stays at or below three quarters, so empty slots remain.
  ghost predicate Ok(s: seq<Slot>, h: string -> nat, m: map<string, int>, count: int, used: int) {
    && PowerOfTwo(|s|) && count == Fulls(s) == |m| && used == NonEmpties(s) && 4 * used <= 3 * |s|
    && Holds(s, m) && Reachable(s, h)
  }

  lemma OverwriteOk(s: seq<Slot>, h: string -> nat, m: map<string, int>, count: int, used: int, i: int, v: int)
    requires Ok(s, h, m, count, used) && 0 <= i < |s| && s[i].Full?
    ensures Ok(s[i := Full(s[i].key, v)], h, m[s[i].key := v], count, used)
  {
    OverwriteKeeps(s, h, m, v, i);
    CountUpdate(s, i, Full(s[i].key, v));
    assert m[s[i].key := v].Keys == m.Keys;
    assert |m[s[i].key := v].Keys| == |m.Keys|;
  }

  lemma TombstoneOk(s: seq<Slot>, h: string -> nat, m: map<string, int>, count: int, used: int, i: int)
    requires Ok(s, h, m, count, used) && 0 <= i < |s| && s[i].Full?
    ensures Ok(s[i := Deleted], h, m - {s[i].key}, count - 1, used)
  {
    TombstoneKeeps(s, h, m, i);
    CountUpdate(s, i, Deleted);
    assert (m - {s[i].key}).Keys == m.Keys - {s[i].key};
    assert |(m - {s[i].key}).Keys| == |m.Keys| - 1;
  }

  lemma PlaceOk(s: seq<Slot>, h: string -> nat, m: map<string, int>, count: int, used: int, k: string, v: int, p: int)
    requires Ok(s, h, m, count, used) && 4 * used < 3 * |s| && 0 <= p < |s| && !s[p].Full?
    requires forall j :: 0 <= j < |s| && s[j].Full? ==> s[j].key != k
    requires forall j :: 0 <= j < |s| && Off(|s|, Home(|s|, h, k), j) < Off(|s|, Home(|s|, h, k), p) ==> s[j].Full?
    ensures Ok(s[p := Full(k, v)], h, m[k := v], count + 1, if s[p].Empty? then used + 1 else used)
  {
    PlaceKeeps(s, h, m, k, v, p);
    PlaceCounts(s, m, used, k, v, p);
  }

  lemma PlaceCounts(s: seq<Slot>, m: map<string, int>, used: int, k: string, v: int, p: int)
    requires PowerOfTwo(|s|) && 4 * used < 3 * |s| && used == NonEmpties(s) && 0 <= p < |s| && !s[p].Full? && k !in m
    ensures Fulls(s[p := Full(k, v)]) == Fulls(s) + 1 && |m[k := v]| == |m| + 1
    ensures NonEmpties(s[p := Full(k, v)]) == (if s[p].Empty? then used + 1 else used) && 4 * (used + 1) <= 3 * |s|
  {
    CountUpdate(s, p, Full(k, v));
    PowerOfTwoBy16(|s|);
    Quarter(used, |s|);
    hide Fulls, NonEmpties, PowerOfTwo;
    assert m[k := v].Keys == m.Keys + {k};
    assert |m[k := v].Keys| == |m.Keys| + 1;
  }

  lemma Quarter(used: int, n: int)
    requires n % 4 == 0 && 4 * used < 3 * n
    ensures 4 * (used + 1) <= 3 * n
  {
    assert n == 4 * (n / 4);
  }

  lemma ResizeOk(s: seq<Slot>, h: string -> nat, m: map<string, int>, count: int, used: int, s': seq<Slot>,
          m': map<string, int>)
    requires Ok(s, h, m, count, used) && |s'| == if 4 * count >= 3 * |s| then 2 * |s| else |s|
    requires Holds(s, m') && Holds(s', m') && Reachable(s', h) && Fulls(s') == NonEmpties(s') == Fulls(s)
    ensures Ok(s', h, m, count, count) && 4 * count < 3 * |s'|
  {
    HoldsUnique(s, m, m');
    PowerOfTwoBy16(|s|);
    OkLimits(s, h, m, count, used);
  }

  // The load bound: at least a quarter of the slots are empty.
  lemma OkLimits(s: seq<Slot>, h: string -> nat, m: map<string, int>, count: int, used: int)
    requires Ok(s, h, m, count, used)
    ensures |s| >= 16 && Holds(s, m) && Reachable(s, h) && Fulls(s) == count <= used < |s| && 4 * used <= 3 * |s|
    ensures |s| <= 4 * (|s| - NonEmpties(s))
  {
    PowerOfTwoBy16(|s|);
  }

  class Map {
    const h: string -> nat
    var entries: array<Slot>
    var count: int
    var used: int
    ghost var m: map<string, int>

    ghost predicate Valid()
      reads this, entries
    {
      Ok(entries[..], h, m, count, used)
    }

    // Capacity: the least power of two from 16 on that is at least `initial`.
    constructor (h: string -> nat, initial: nat)
      ensures Valid() && m == map[] && this.h == h && fresh(entries)
      ensures entries.Length >= initial && PowerOfTwo(entries.Length)
      ensures entries.Length > 16 ==> entries.Length / 2 < initial
    {
      this.h := h;
      var cap := 16;
      while cap < initial
        invariant PowerOfTwo(cap) && cap >= 16 && (cap > 16 ==> cap / 2 < initial)
        decreases initial - cap
      {
        PowerOfTwoBy16(cap);
        cap := cap * 2;
      }
      PowerOfTwoBy16(cap);
      var es := new Slot[cap](_ => Empty);
      AllEmpty(es[..], h);
      entries := es;
      count, used, m := 0, 0, map[];
    }

    // The probe shared by get, put and del: the slot of k, or -1.
    method Find(k: string) returns (i: int)
      requires entries.Length > 0 && Holds(entries[..], m) && Reachable(entries[..], h)
      ensures i == -1 <==> k !in m
      ensures i == -1 ==> forall j :: 0 <= j < entries.Length && entries[j].Full? ==> entries[j].key != k
      ensures i != -1 ==> 0 <= i < entries.Length && entries[i] == Full(k, m[k])
    {
      var n := entries.Length;
      i := Home(n, h, k);
      for s := 0 to n
        invariant 0 <= i < n && (s < n ==> Off(n, Home(n, h, k), i) == s)
        invariant Unseen(entries[..], h, k, s)
      {
        if entries[i].Empty? {
          assert entries[..][i].Empty?;
          Miss(entries[..], h, k, s, m);
          return -1;
        }
        if entries[i].Full? && entries[i].key == k {
          assert entries[..][i].key in m;
          return;
        }
        i := Next(n, i);
      }
      Miss(entries[..], h, k, n, m);
      i := -1;
    }

    method Get(k: string) returns (r: int, found: bool)
      requires Valid()
      ensures found == (k in m) && (found ==> r == m[k])
    {
      hide Ok, Holds, Reachable, Fulls, NonEmpties;
      OkLimits(entries[..], h, m, count, used);
      var i := Find(k);
      found := i != -1;
      r := if found then entries[i].val else 0;
    }

    // Takes the first slot that holds no key, for a key not in the map.
    method Claim(k: string, v: int)
      requires Valid() && 4 * used < 3 * entries.Length
      requires forall j :: 0 <= j < entries.Length && entries[j].Full? ==> entries[j].key != k
      modifies this`count, this`used, this`m, entries
      ensures Valid() && m == old(m)[k := v]
    {
      hide Ok, Fulls, NonEmpties, Holds, Reachable;
      OkLimits(entries[..], h, m, count, used);
      var i := FreeSlot(entries, h, k);
      ghost var s := entries[..];
      PlaceOk(s, h, m, count, used, k, v, i);
      hide Off, Home;
      if entries[i].Empty? { used := used + 1; }
      entries[i] := Full(k, v);
      count := count + 1;
      m := m[k := v];
      assert entries[..] == s[i := Full(k, v)];
    }

    method Put(k: string, v: int)
      requires Valid()
      modifies this`entries, this`count, this`used, this`m, entries
      ensures Valid() && m == old(m)[k := v]
      ensures fresh(entries) || entries == old(entries)
    {
      hide Ok, Fulls, NonEmpties, Holds, Reachable, Off;
      OkLimits(entries[..], h, m, count, used);
      if used * 4 >= entries.Length * 3 {
        Resize();
        OkLimits(entries[..], h, m, count, used);
      }
      var i := Find(k);
      if i == -1 {
        Claim(k, v);
        return;
      }
      ghost var s := entries[..];
      OverwriteOk(s, h, m, count, used, i, v);
      entries[i] := Full(k, v);
      m := m[k := v];
      assert entries[..] == s[i := Full(k, v)];
    }

    method Del(k: string) returns (ok: bool)
      requires Valid()
      modifies this`count, this`m, entries
      ensures Valid() && ok == (k in old(m)) && m == old(m) - {k}
    {
      hide Ok, Holds, Reachable, Fulls, NonEmpties;
      OkLimits(entries[..], h, m, count, used);
      var i := Find(k);
      ok := i != -1;
      if ok {
        ghost var s := entries[..];
        TombstoneOk(s, h, m, count, used, i);
        entries[i] := Deleted;
        count := count - 1;
        m := m - {k};
        assert entries[..] == s[i := Deleted];
      } else {
        assert m - {k} == m;
      }
    }

    // Rehash without tombstones, doubling only when the live entries alone reach the load factor.
    method Resize()
      requires Valid() && used * 4 >= entries.Length * 3
      modifies this`entries, this`used
      ensures Valid() && used * 4 < entries.Length * 3 && fresh(entries) && used == count
      ensures entries.Length ==
        if 4 * count >= 3 * old(entries.Length) then 2 * old(entries.Length) else old(entries.Length)
    {
      hide Holds, Reachable, Fulls, NonEmpties, Ok;
      var newcap := if count * 4 >= entries.Length * 3 then entries.Length * 2 else entries.Length;
      OkLimits(entries[..], h, m, count, used);
      var ne := Rehash(entries, newcap, h, m, count, used);
      entries := ne;
      used := count;
    }
  }

  // A fresh table of the given capacity with the live entries of es.
  method Rehash(es: array<Slot>, newcap: int, h: string -> nat, ghost m: map<string, int>, ghost count: int,
          ghost used: int)
    returns (ne: array<Slot>)
    requires Ok(es[..], h, m, count, used) && newcap == if 4 * count >= 3 * es.Length then 2 * es.Length else es.Length
    ensures fresh(ne) && Ok(ne[..], h, m, count, count) && ne.Length == newcap && 4 * count < 3 * newcap
  {
    OkLimits(es[..], h, m, count, used);
    hide Holds, Reachable, Fulls, NonEmpties, Ok;
    ne := new Slot[newcap](_ => Empty);
    AllEmpty(ne[..], h);
    ghost var m' := CopyAll(es, ne, h, m);
    ResizeOk(es[..], h, m, count, used, ne[..], m');
  }

  // Copies the live entries of es into the empty table ne.
  method CopyAll(es: array<Slot>, ne: array<Slot>, h: string -> nat,
          ghost m: map<string, int>) returns (ghost m': map<string, int>)
    requires es != ne && Holds(es[..], m) && Fulls(es[..]) < ne.Length
    requires Holds(ne[..], map[]) && Reachable(ne[..], h) && Fulls(ne[..]) == NonEmpties(ne[..]) == 0
    modifies ne
    ensures Holds(es[..], m') && Holds(ne[..], m') && Reachable(ne[..], h)
    ensures Fulls(ne[..]) == NonEmpties(ne[..]) == Fulls(es[..])
  {
    ghost var s := es[..];
    m' := map[];
    NothingHeld(s);
    hide Holds, Reachable, Fulls, NonEmpties;
    for i := 0 to es.Length
      invariant es[..] == s && Holds(s[..i], m') && Holds(ne[..], m') && Reachable(ne[..], h)
      invariant Fulls(ne[..]) == NonEmpties(ne[..]) == Fulls(s[..i])
    {
      HoldsPrefix(s, i, m, m');
      FullsPrefix(s, i + 1);
      if es[i].Full? {
        CopyInto(ne, h, es[i].key, es[i].val, m');
        m' := m'[es[i].key := es[i].val];
      }
    }
    assert s[..|s|] == s;
  }
}
