// The transfer worker: a ring queue feeds a batching pipeline that numbers each message per receiver.
module Transfer {
  import opened Turns
  import SeqTable

  const BATCH := 100

  datatype Msg = Msg(send: string, recv: string, body: string, seqNo: int)

  // ----- the ring queue -----

  function Wrap(n: int, i: int): int { if i < n then i else i - n }

  lemma WrapMod(n: int, i: int)
    requires 0 <= i < n
    ensures (i + 1) % n == Wrap(n, i + 1)
  {
    if i + 1 < n { DivUnique(i + 1, n, 0, i + 1); } else { DivUnique(i + 1, n, 1, 0); }
  }

  ghost predicate RingOk(buf: seq<Msg>, head: int, tail: int, count: int, items: seq<Msg>) {
    && 0 <= head < |buf| && 0 <= tail < |buf| && 0 <= count == |items| <= |buf| && tail == Wrap(|buf|, head + count)
    && forall i :: 0 <= i < count ==> items[i] == buf[Wrap(|buf|, head + i)]
  }

  class Ring {
    const buf: array<Msg>
    var head: int
    var tail: int
    var count: int
    ghost var items: seq<Msg>

    ghost predicate Valid()
      reads this, buf
    {
      RingOk(buf[..], head, tail, count, items)
    }

    // The server's ring has 16384 places.
    constructor (size: int)
      requires size > 0
      ensures Valid() && items == [] && buf.Length == size && fresh(buf)
    {
      buf := new Msg[size](_ => Msg("", "", "", 0));
      head, tail, count, items := 0, 0, 0, [];
    }

    method Enqueue(m: Msg) returns (ok: bool)
      requires Valid()
      modifies this`tail, this`count, this`items, buf
      ensures Valid() && ok == (|old(items)| < buf.Length)
      ensures items == if ok then old(items) + [m] else old(items)
    {
      if count >= buf.Length { return false; }
      buf[tail] := m;
      WrapMod(buf.Length, tail);
      tail := (tail + 1) % buf.Length;
      count := count + 1;
      items := items + [m];
      ok := true;
    }

    method Dequeue() returns (ok: bool, m: Msg)
      requires Valid()
      modifies this`head, this`count, this`items
      ensures Valid() && ok == (old(items) != [])
      ensures ok ==> m == old(items)[0] && items == old(items)[1..]
      ensures !ok ==> items == []
    {
      if count == 0 { return false, Msg("", "", "", 0); }
      m := buf[head];
      WrapMod(buf.Length, head);
      head := (head + 1) % buf.Length;
      count := count - 1;
      items := items[1..];
      ok := true;
    }
  }

  // ----- numbering -----

  function Key(m: Msg): string { if m.recv == "" then "default" else m.recv }

  function Admit(nums: map<string, int>, cap: int, k: string): map<string, int> {
    if k in nums then nums[k := nums[k] + 1] else if |nums| < cap then nums[k := 1] else nums
  }

  // The counters after numbering some messages.
  function Numbered(ms: seq<Msg>, cap: int): map<string, int> {
    if ms == [] then map[] else Admit(Numbered(ms[..|ms| - 1], cap), cap, Key(ms[|ms| - 1]))
  }

  function CountKey(ms: seq<Msg>, k: string): (n: int)
    ensures 0 <= n <= |ms|
  { if ms == [] then 0 else CountKey(ms[..|ms| - 1], k) + if Key(ms[|ms| - 1]) == k then 1 else 0 }

  // A key in the table has had all its messages counted; a key that found room earlier would be in it.
  lemma {:induction false} CountersExact(ms: seq<Msg>, cap: int, k: string)
    ensures k in Numbered(ms, cap) ==> Numbered(ms, cap)[k] == CountKey(ms, k)
    ensures k !in Numbered(ms, cap) && |Numbered(ms, cap)| < cap ==> CountKey(ms, k) == 0
  {
    if ms != [] {
      var p := ms[..|ms| - 1];
      CountersExact(p, cap, k);
      var k' := Key(ms[|ms| - 1]);
      Grows(Numbered(p, cap), cap, k');
    }
  }

  lemma Grows(nums: map<string, int>, cap: int, k: string)
    ensures |nums| <= |Admit(nums, cap, k)| && (k !in nums && |nums| < cap ==> |Admit(nums, cap, k)| == |nums| + 1)
  {
    var r := Admit(nums, cap, k);
    if k in nums { assert r.Keys == nums.Keys; assert |r.Keys| == |nums.Keys|; }
    else if |nums| < cap { assert r.Keys == nums.Keys + {k}; assert |r.Keys| == |nums.Keys| + 1; }
  }

  // The number given to the next message: its place among its receiver's messages, or -1 if the table has no room for
  // the receiver.
  ghost function Number(before: seq<Msg>, cap: int, m: Msg): int {
    var nums := Numbered(before, cap); if Key(m) in nums || |nums| < cap then CountKey(before, Key(m)) + 1 else -1
  }

  // ----- conservation -----

  // Each sink has, in order, what was dequeued and numbered up to the pending batch; the queue has the rest of what was
  // accepted.
  ghost predicate Conserved(accepted: seq<Msg>, stamped: seq<Msg>, queue: seq<Msg>, batch: seq<Msg>, redis: seq<Msg>,
          mongo: seq<Msg>, push: seq<Msg>)
  {
    && |stamped| <= |accepted| && queue == accepted[|stamped|..]
    && redis + batch == stamped && mongo + batch == stamped && push + batch == stamped
  }

  // Message i went out with its number and is otherwise as it came in.
  ghost predicate Stamped(accepted: seq<Msg>, stamped: seq<Msg>, cap: int) {
    |stamped| <= |accepted| && forall i :: 0 <= i < |stamped| ==>
      stamped[i] == accepted[i].(seqNo := Number(accepted[..i], cap, accepted[i]))
  }

  lemma GivenIsNumber(before: seq<Msg>, cap: int, m: Msg)
    ensures Given(Numbered(before, cap), cap, Key(m)) == Number(before, cap, m)
  {
    CountersExact(before, cap, Key(m));
  }

  lemma StampNext(accepted: seq<Msg>, stamped: seq<Msg>, cap: int, v: int)
    requires Stamped(accepted, stamped, cap) && |stamped| < |accepted|
    requires var n := |stamped|; v == Given(Numbered(accepted[..n], cap), cap, Key(accepted[n]))
    ensures var n := |stamped|; Stamped(accepted, stamped + [accepted[n].(seqNo := v)], cap)
    ensures var n := |stamped|;
      Numbered(accepted[..n + 1], cap) == Admit(Numbered(accepted[..n], cap), cap, Key(accepted[n]))
  {
    hide Number, Given, CountKey, Admit;
    var n := |stamped|;
    GivenIsNumber(accepted[..n], cap, accepted[n]);
    assert accepted[..n + 1][..n] == accepted[..n];
  }

  // What the allocator returns.
  ghost function Given(nums: map<string, int>, cap: int, k: string): int {
    if k in nums || |nums| < cap then SeqTable.Get(nums, k) + 1 else -1
  }

  lemma StampAccept(accepted: seq<Msg>, stamped: seq<Msg>, cap: int, m: Msg)
    requires Stamped(accepted, stamped, cap)
    ensures Stamped(accepted + [m], stamped, cap) && (accepted + [m])[..|stamped|] == accepted[..|stamped|]
  {
    forall i | 0 <= i < |stamped| ensures (accepted + [m])[..i] == accepted[..i] {}
  }

  class Pipeline {
    const seqs: SeqTable.Seqs
    var batch: seq<Msg>
    var redis: seq<Msg>
    var mongo: seq<Msg>
    var push: seq<Msg>

    constructor (seqs: SeqTable.Seqs)
      ensures this.seqs == seqs && batch == redis == mongo == push == []
    {
      this.seqs := seqs;
      batch, redis, mongo, push := [], [], [], [];
    }

    // Hands the batch to the three sinks, one message at a time to the last.
    method Flush()
      modifies this
      ensures batch == [] && redis == old(redis + batch) && mongo == old(mongo + batch) && push == old(push + batch)
    {
      if |batch| == 0 {
        assert redis + batch == redis && mongo + batch == mongo && push + batch == push;
        return;
      }
      redis := redis + batch;
      mongo := mongo + batch;
      for i := 0 to |batch|
        invariant batch == old(batch) && push == old(push) + batch[..i] && redis == old(redis + batch)
        invariant mongo == old(mongo + batch)
      {
        push := push + [batch[i]];
      }
      assert batch[..|batch|] == batch;
      batch := [];
    }

    method Submit(m: Msg)
      requires |batch| <= BATCH
      modifies this
      ensures 0 < |batch| <= 100 && batch == (if |old(batch)| == 100 then [] else old(batch)) + [m]
      ensures redis + batch == old(redis + batch) + [m] && mongo + batch == old(mongo + batch) + [m]
      ensures push + batch == old(push + batch) + [m]
    {
      if |batch| >= BATCH { Flush(); }
      batch := batch + [m];
    }

    method SeqNext(conv: string) returns (v: int)
      requires seqs.Valid()
      modifies seqs`convs, seqs`current, seqs`nums, seqs.convHash
      ensures seqs.Valid()
      ensures var k := if conv != "" then conv else "default";
        v == Given(old(seqs.nums), seqs.cap, k) && seqs.nums == Admit(old(seqs.nums), seqs.cap, k)
    {
      v := seqs.Next(if conv != "" then conv else "default");
    }
  }

  lemma InHand(accepted: seq<Msg>, n: int, m: Msg, items: seq<Msg>)
    requires 0 <= n <= |accepted| && [m] + items == accepted[n..]
    ensures n < |accepted| && m == accepted[n] && items == accepted[n + 1..]
  {
    assert ([m] + items)[0] == m && ([m] + items)[1..] == items;
    assert accepted[n..][1..] == accepted[n + 1..];
  }

  class Worker {
    const ring: Ring
    const pipe: Pipeline
    ghost var accepted: seq<Msg>
    ghost var stamped: seq<Msg>

    ghost predicate Valid()
      reads this, ring, ring.buf, pipe, pipe.seqs, pipe.seqs.convHash
    {
      && ring.Valid() && pipe.seqs.Valid() && |pipe.batch| <= BATCH
      && Conserved(accepted, stamped, ring.items, pipe.batch, pipe.redis, pipe.mongo, pipe.push)
      && Stamped(accepted, stamped, pipe.seqs.cap) && pipe.seqs.nums == Numbered(accepted[..|stamped|], pipe.seqs.cap)
    }

    constructor (ring: Ring, pipe: Pipeline)
      requires ring.Valid() && ring.items == [] && pipe.seqs.Valid() && pipe.seqs.nums == map[]
      requires pipe.batch == pipe.redis == pipe.mongo == pipe.push == []
      ensures Valid() && accepted == stamped == [] && this.ring == ring && this.pipe == pipe
    {
      this.ring, this.pipe, accepted, stamped := ring, pipe, [], [];
    }

    method Accept(m: Msg) returns (ok: bool)
      requires Valid()
      modifies this`accepted, ring`tail, ring`count, ring`items, ring.buf
      ensures Valid() && stamped == old(stamped) && accepted == if ok then old(accepted) + [m] else old(accepted)
      ensures ok == (|old(ring.items)| < ring.buf.Length)
    {
      hide RingOk, Stamped, Number, SeqTable.Counts;
      StampAccept(accepted, stamped, pipe.seqs.cap, m) by { assert Stamped(accepted, stamped, pipe.seqs.cap); }
      ok := ring.Enqueue(m);
      if ok { accepted := accepted + [m]; }
    }

    // Numbers the message that has just left the queue and submits it.
    method Handle(m: Msg)
      requires ring.Valid() && pipe.seqs.Valid() && |pipe.batch| <= BATCH
      requires Conserved(accepted, stamped, [m] + ring.items, pipe.batch, pipe.redis, pipe.mongo, pipe.push)
      requires Stamped(accepted, stamped, pipe.seqs.cap)
      requires pipe.seqs.nums == Numbered(accepted[..|stamped|], pipe.seqs.cap)
      modifies this`stamped, pipe, pipe.seqs`convs, pipe.seqs`current, pipe.seqs`nums, pipe.seqs.convHash
      ensures Valid() && |stamped| == |old(stamped)| + 1
    {
      hide RingOk, Stamped, Number, SeqTable.Counts, Numbered, Given, Admit;
      ghost var n := |stamped|;
      InHand(accepted, n, m, ring.items);
      var v := pipe.SeqNext(m.recv);
      StampNext(accepted, stamped, pipe.seqs.cap, v);
      pipe.Submit(m.(seqNo := v));
      stamped := stamped + [m.(seqNo := v)];
    }

    // One round of the loop: everything queued is numbered and submitted.
    method Drain()
      requires Valid()
      modifies this`stamped, ring`head, ring`count, ring`items, pipe, pipe.seqs`convs, pipe.seqs`current,
        pipe.seqs`nums, pipe.seqs.convHash
      ensures Valid() && accepted == old(accepted) && |stamped| == |accepted| && ring.items == []
    {
      hide RingOk, Stamped, Number, SeqTable.Counts, Numbered;
      while true
        invariant Valid() && accepted == old(accepted)
        decreases |accepted| - |stamped|
      {
        ghost var queue := ring.items;
        var ok, m := ring.Dequeue();
        if !ok { break; }
        assert queue == [m] + ring.items;
        Handle(m);
      }
    }

    // Every so often the pending batch goes out.
    method Tick()
      requires Valid()
      modifies pipe
      ensures Valid() && pipe.batch == [] && pipe.redis == pipe.mongo == pipe.push == stamped
    {
      hide RingOk, Stamped, Number, SeqTable.Counts;
      pipe.Flush();
      assert pipe.redis + pipe.batch == pipe.redis && pipe.mongo + pipe.batch == pipe.mongo
        && pipe.push + pipe.batch == pipe.push;
    }
  }
}
