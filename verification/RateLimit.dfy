// The rate limiter: the table of windows behind an open-addressing index, with the oldest window evicted when full.
module RateLimit {
  import opened Probe
  import opened RateSpec

  function Keys(es: seq<Entry>): (r: seq<string>)
    ensures |r| == |es| && forall i :: 0 <= i < |es| ==> r[i] == es[i].key
  { seq(|es|, i requires 0 <= i < |es| => es[i].key) }

  // The index after the entry at o has been taken out of it and given another key.
  lemma Rekeyed(t: seq<int>, t': seq<int>, keys: seq<string>, h: string -> nat, o: int, k: string)
    requires Indexed(t, keys, h, |keys|) && |t'| == |t| && Table(t', keys, h) && 0 <= o < |keys|
    requires Moved(t, t', keys, h, o)
    requires forall i :: 0 <= i < |keys| ==> keys[i] != k
    ensures Table(t', keys[o := k], h) && Absent(t', keys[o := k], k) && o !in t'
    ensures forall i :: i >= 0 ==> (i in t' <==> i < |keys| && i != o)
  {
    forall i | 0 <= i < |t'| && t'[i] >= 0
      ensures keys[t'[i]] == keys[o := k][t'[i]] && keys[t'[i]] != k
    {
      assert t'[i] in t';
    }
    TableAgree(t', keys, keys[o := k], h);
  }

  lemma Reinserted(t: seq<int>, keys: seq<string>, h: string -> nat, o: int, p: int)
    requires Table(t, keys, h) && |t| > |keys| && 0 <= o < |keys| && Absent(t, keys, keys[o])
    requires FirstEmpty(t, h, keys[o], p)
    requires forall i :: i >= 0 ==> (i in t <==> i < |keys| && i != o)
    ensures 0 <= p < |t| && Indexed(t[p := o], keys, h, |keys|)
  {
    InsertTable(t, keys, h, o, p);
    var t' := t[p := o];
    assert t'[p] == o;
    forall i | i >= 0
      ensures i in t' <==> i < |keys|
    {
      if i in t { var x :| 0 <= x < |t| && t[x] == i; assert t'[x] == i; }
    }
  }

  lemma GoneIsOldest(t: seq<int>, keys: seq<string>, h: string -> nat, o: int, gone: int)
    requires Indexed(t, keys, h, |keys|) && 0 <= o < |keys| && Slots(t, keys)
    requires (forall i, j :: 0 <= i < j < |keys| ==> keys[i] != keys[j])
    requires gone == -1 ==> Absent(t, keys, keys[o])
    requires gone != -1 ==> 0 <= gone < |keys| && keys[gone] == keys[o]
    ensures gone == o
  {
    assert o in t;
    var i :| 0 <= i < |t| && t[i] == o;
  }

  class Limiter {
    const h: string -> nat
    const window: int
    const limit: int
    const cap: int
    const keyHash: array<int>
    var entries: seq<Entry>
    ghost var hits: seq<Hit> // every call so far

    ghost predicate Valid()
      reads this, keyHash
    {
      Indices() && entries == Run(cap, window, hits)
    }

    ghost predicate Indices()
      reads this, keyHash
    {
      0 < cap < keyHash.Length && |entries| <= cap && DistinctKeys(entries)
        && Indexed(keyHash[..], Keys(entries), h, |entries|)
    }

    // The server keeps 4096 windows behind a table of 8192 slots.
    constructor (h: string -> nat, window: int, limit: int, cap: int, slots: int)
      requires 0 < cap < slots
      ensures Valid() && hits == [] && this.window == window && this.limit == limit && this.cap == cap
      ensures fresh(keyHash)
    {
      this.h, this.window, this.limit, this.cap := h, window, limit, cap;
      var t := new int[slots](_ => -1);
      keyHash, entries, hits := t, [], [];
      new;
      NoneIndexed(t[..], Keys([]), h);
    }

    method FindEntry(key: string) returns (ei: int)
      requires Indices()
      ensures ei == Find(entries, key)
    {
      hide Indexed, Table, Absent, FirstEmpty, Slots;
      IndexedFacts(keyHash[..], Keys(entries), h, |entries|);
      var i := Locate(keyHash, Keys(entries), h, key);
      Found(keyHash[..], Keys(entries), h, key, i);
      ei := if keyHash[i] < 0 then -1 else keyHash[i];
      if ei >= 0 { FindUnique(entries, ei); }
    }

    method EvictOldest() returns (o: int)
      requires entries != []
      ensures o == Oldest(entries)
    {
      o := 0;
      for i := 1 to |entries|
        invariant 0 <= o < i && o == Oldest(entries[..i])
      {
        assert entries[..i + 1][..i] == entries[..i];
        if entries[i].start < entries[o].start { o := i; }
      }
      assert entries[..|entries|] == entries;
    }

    // Gives the entry at o to a key the table lacks.
    method Reuse(o: int, e: Entry)
      requires Indices() && 0 <= o < |entries| && Find(entries, e.key) < 0
      modifies this`entries, keyHash
      ensures Indices() && entries == old(entries)[o := e]
    {
      hide Indexed, Table, Absent, FirstEmpty, Slots, Moved;
      ghost var t, keys := keyHash[..], Keys(entries);
      IndexedFacts(t, keys, h, |entries|);
      ghost var gone := Remove(keyHash, Keys(entries), h, entries[o].key);
      GoneIsOldest(t, keys, h, o, gone);
      ghost var t' := keyHash[..];
      Rekeyed(t, t', keys, h, o, e.key);
      entries := entries[o := e];
      assert Keys(entries) == keys[o := e.key];
      TableRoom(t', Keys(entries), h);
      ghost var p := Insert(keyHash, Keys(entries), h, o);
      Reinserted(t', Keys(entries), h, o, p);
    }

    method Append(e: Entry)
      requires Indices() && |entries| < cap && Find(entries, e.key) < 0
      modifies this`entries, keyHash
      ensures Indices() && entries == old(entries) + [e]
    {
      hide Indexed, Table, Absent, FirstEmpty, Slots, Moved;
      var n := |entries|;
      ghost var t := keyHash[..];
      assert Keys(entries + [e])[..n] == Keys(entries);
      GrowIndexed(t, Keys(entries), h, Keys(entries + [e]));
      entries := entries + [e];
      IndexedFacts(t, Keys(entries), h, n);
      ghost var p := Insert(keyHash, Keys(entries), h, n);
      InsertIndexed(t, Keys(entries), h, n, p);
    }

    // The entry for the key; a new one starts a window at now with no calls yet.
    method FindOrAdd(key: string, now: int) returns (ei: int)
      requires Indices()
      modifies this`entries, keyHash
      ensures Indices() && ei == Place(old(entries), cap, key)
      ensures entries ==
        if Find(old(entries), key) >= 0 then old(entries) else Put(old(entries), ei, Entry(key, now, 0))
    {
      hide Indexed, Table, DistinctKeys, Oldest, Find;
      ei := FindEntry(key);
      if ei < 0 {
        var blank := Entry(key, now, 0);
        if |entries| >= cap {
          ei := EvictOldest();
          Reuse(ei, blank);
        } else {
          ei := |entries|;
          Append(blank);
        }
      }
    }

    method Allow(key: string, now: int) returns (allow: bool)
      requires Valid()
      modifies this`entries, this`hits, keyHash
      ensures Valid() && hits == old(hits) + [Hit(key, now)]
      ensures allow <==> Answer(cap, window, limit, hits, |old(hits)|)
    {
      hide Indexed, Table, DistinctKeys, Run, Oldest, Find;
      ghost var es := entries;
      var ei := FindOrAdd(key, now);
      var e := entries[ei];
      if now - e.start >= window { e := Entry(key, now, 0); }
      e := Entry(key, e.start, e.count + 1);
      SameKey(entries, ei, e);
      entries := entries[ei := e];
      allow := e.count <= limit;
      assert entries == Call(es, cap, window, key, now);
      hits := hits + [Hit(key, now)];
      assert hits[..|hits| - 1] == old(hits) && hits[..|hits|] == hits;
      RunStep(cap, window, hits, |hits| - 1);
    }

    method RemainingFor(key: string, now: int) returns (rem: int)
      requires Valid()
      ensures rem == Remaining(WinOf(Run(cap, window, hits), key), now, window, limit)
    {
      var ei := FindEntry(key);
      if ei < 0 || now - entries[ei].start >= window { return limit; }
      rem := limit - entries[ei].count;
      if rem < 0 { rem := 0; }
    }
  }

  lemma TableRoom(t: seq<int>, keys: seq<string>, h: string -> nat)
    requires Table(t, keys, h)
    ensures Slots(t, keys) && -1 in t
  {}

  lemma SameKey(es: seq<Entry>, i: int, e: Entry)
    requires 0 <= i < |es| && e.key == es[i].key
    ensures Keys(es[i := e]) == Keys(es) && (DistinctKeys(es) ==> DistinctKeys(es[i := e]))
  {}
}
