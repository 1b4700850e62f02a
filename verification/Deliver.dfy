// Threads delivering messages: each allocates a sequence number, then stores the message, with anything in between.
module Deliver {
  import opened MsgViews
  import opened MsgStore
  import SeqTable

  // Thread i holds number seqs[i] for conversation convs[i], or nothing if convs[i] is empty.
  datatype World = World(nums: map<string, int>, cap: int, pool: Pool, convs: seq<string>, seqs: seq<int>)

  // Remove stands for a delete, purge or clear; eviction is part of Insert.
  datatype Action = Alloc(i: int, conv: string) | Insert(i: int, m: Msg) | Remove(s: int)
    | Restatus(s: int, status: int)

  ghost predicate Enabled(w: World, a: Action) {
    match a
    case Alloc(i, conv) => 0 <= i < |w.convs| && w.convs[i] == "" && conv != ""
    case Insert(i, m) => 0 <= i < |w.convs| == |w.seqs| && w.convs[i] != "" && m.conv == w.convs[i]
      && m.seqNo == w.seqs[i] && PoolOk(w.pool)
    case Remove(s) => 0 <= s < |w.pool.mem| && w.pool.mem[s].Used?
    case Restatus(s, _) => 0 <= s < |w.pool.mem| && w.pool.mem[s].Used?
  }

  ghost function Do(w: World, a: Action): World
    requires Enabled(w, a) && |w.convs| == |w.seqs|
  {
    match a
    case Alloc(i, conv) =>
      if conv in w.nums || |w.nums| < w.cap then
        var v := SeqTable.Get(w.nums, conv) + 1;
          w.(nums := w.nums[conv := v], convs := w.convs[i := conv], seqs := w.seqs[i := v])
      else w
    case Insert(i, m) => w.(pool := Inserted(w.pool, m), convs := w.convs[i := ""])
    case Remove(s) => w.(pool := w.pool.(mem := w.pool.mem[s := Free], free := w.pool.free + [s]))
    case Restatus(s, status) => w.(pool := w.pool.(mem := WithStatus(w.pool.mem, s, status)))
  }

  // Stored numbers of one conversation differ and are at most its counter.
  ghost predicate Stored(mem: seq<Cell>, nums: map<string, int>) {
    && (forall k :: k in nums ==> nums[k] >= 0)
    && (forall a :: 0 <= a < |mem| && mem[a].Used? ==> 1 <= mem[a].msg.seqNo <= SeqTable.Get(nums, mem[a].msg.conv))
    && (forall a, b :: 0 <= a < b < |mem| && mem[a].Used? && mem[b].Used? && mem[a].msg.conv == mem[b].msg.conv ==>
      mem[a].msg.seqNo != mem[b].msg.seqNo)
  }

  // So do the numbers held by threads, from each other and from the stored ones.
  ghost predicate Held(mem: seq<Cell>, nums: map<string, int>, convs: seq<string>, seqs: seq<int>) {
    && |convs| == |seqs|
    && (forall i :: 0 <= i < |convs| && convs[i] != "" ==> 1 <= seqs[i] <= SeqTable.Get(nums, convs[i]))
    && (forall i, j :: 0 <= i < j < |convs| && convs[i] == convs[j] != "" ==> seqs[i] != seqs[j])
    && (forall i, a ::
          0 <= i < |convs| && 0 <= a < |mem| && convs[i] != "" && mem[a].Used? && mem[a].msg.conv == convs[i] ==>
            mem[a].msg.seqNo != seqs[i])
  }

  ghost predicate Inv(w: World) {
    PoolOk(w.pool) && Stored(w.pool.mem, w.nums) && Held(w.pool.mem, w.nums, w.convs, w.seqs)
  }

  lemma AllocKeeps(w: World, i: int, conv: string)
    requires Inv(w) && Enabled(w, Alloc(i, conv))
    ensures Inv(Do(w, Alloc(i, conv)))
  {
    var w' := Do(w, Alloc(i, conv));
    assert forall k :: SeqTable.Get(w.nums, k) <= SeqTable.Get(w'.nums, k);
  }

  lemma InsertKeeps(w: World, i: int, m: Msg)
    requires Inv(w) && Enabled(w, Insert(i, m))
    ensures Inv(Do(w, Insert(i, m)))
  {
    var w' := Do(w, Insert(i, m));
    assert w'.pool.mem == w.pool.mem[Slot(w.pool) := Used(m)];
    Cycle(w.pool);
  }

  // The cursor stays within the table.
  lemma Cycle(p: Pool)
    requires PoolOk(p)
    ensures 0 <= (p.cursor + 1) % |p.mem| < |p.mem|
  {}

  lemma StepInv(w: World, a: Action)
    requires Inv(w) && Enabled(w, a)
    ensures Inv(Do(w, a))
  {
    match a
    case Alloc(i, conv) => AllocKeeps(w, i, conv);
    case Insert(i, m) => InsertKeeps(w, i, m);
    case Remove(s) =>
    case Restatus(s, status) =>
  }

  ghost predicate Feasible(w: World, run: seq<Action>)
    requires |w.convs| == |w.seqs|
    decreases |run|
  { run == [] || (Enabled(w, run[0]) && Feasible(Do(w, run[0]), run[1..])) }

  ghost function After(w: World, run: seq<Action>): World
    requires |w.convs| == |w.seqs| && Feasible(w, run)
    decreases |run|
  { if run == [] then w else After(Do(w, run[0]), run[1..]) }

  ghost function Start(cap: int, slots: int, threads: nat): World
    requires slots > 0
  { World(map[], cap, FreshPool(slots), seq(threads, _ => ""), seq(threads, _ => 0)) }

  lemma {:induction false} InvAfter(w: World, run: seq<Action>)
    requires Inv(w) && Feasible(w, run)
    ensures Inv(After(w, run))
    decreases |run|
  {
    hide Enabled, Do, PoolOk, Stored;
    if run != [] { StepInv(w, run[0]); InvAfter(Do(w, run[0]), run[1..]); }
  }

  // One delivery from end to end: a thread that holds nothing may ask for a number; if the table has room for the
  // conversation it gets the next one, may store its message under it, and holds nothing again.
  lemma Delivers(w: World, i: int, m: Msg)
    requires Inv(w) && 0 <= i < |w.convs| && w.convs[i] == "" && m.conv != ""
    requires m.seqNo == SeqTable.Get(w.nums, m.conv) + 1
    ensures Enabled(w, Alloc(i, m.conv))
    ensures m.conv !in w.nums && |w.nums| >= w.cap ==> Do(w, Alloc(i, m.conv)) == w
    ensures m.conv in w.nums || |w.nums| < w.cap ==>
      var w1 := Do(w, Alloc(i, m.conv));
      && w1.nums == w.nums[m.conv := m.seqNo] && w1.pool == w.pool && Enabled(w1, Insert(i, m))
      && (forall c :: !Enabled(w1, Alloc(i, c)))
      && var w2 := Do(w1, Insert(i, m));
        w2.pool == Inserted(w.pool, m) && w2.nums == w1.nums && w2.convs == w.convs && w2.cap == w.cap
  {
    hide Stored, Inserted;
    if m.conv in w.nums || |w.nums| < w.cap {
      var w1 := Do(w, Alloc(i, m.conv));
      assert w1.convs[i := ""] == w.convs;
    }
  }

  // A live message may be removed, which frees its slot, or given another status; a free slot may not.
  lemma Maintains(w: World, s: int, status: int)
    requires Inv(w) && 0 <= s < |w.pool.mem|
    ensures Enabled(w, Remove(s)) <==> w.pool.mem[s].Used?
    ensures Enabled(w, Restatus(s, status)) <==> w.pool.mem[s].Used?
    ensures w.pool.mem[s].Used? ==> var w' := Do(w, Remove(s));
      && w'.pool.mem == w.pool.mem[s := Free] && w'.pool.free == w.pool.free + [s]
      && w'.nums == w.nums && w'.convs == w.convs
    ensures w.pool.mem[s].Used? ==> var w' := Do(w, Restatus(s, status));
      w'.pool.mem == w.pool.mem[s := Used(w.pool.mem[s].msg.(status := status))] && w'.nums == w.nums
  {}

  // How many numbers a run gives out for a conversation.
  ghost function GivenOut(w: World, run: seq<Action>, conv: string): (n: nat)
    requires |w.convs| == |w.seqs| && Feasible(w, run)
    decreases |run|
  {
    if run == [] then 0 else
      var gives := run[0].Alloc? && run[0].conv == conv && (conv in w.nums || |w.nums| < w.cap);
      (if gives then 1 else 0) + GivenOut(Do(w, run[0]), run[1..], conv)
  }

  // Numbers have no gaps: the counter is how many have been given out, and each new one is the next.
  lemma {:induction false} NoGaps(w: World, run: seq<Action>, conv: string)
    requires |w.convs| == |w.seqs| && Feasible(w, run)
    ensures SeqTable.Get(After(w, run).nums, conv) == SeqTable.Get(w.nums, conv) + GivenOut(w, run, conv)
    decreases |run|
  {
    hide PoolOk, Inserted, WithStatus;
    if run != [] { NoGaps(Do(w, run[0]), run[1..], conv); }
  }

  // The number given to thread i is the number of those given out before, plus one.
  lemma NextNumber(cap: int, slots: int, threads: nat, run: seq<Action>, i: int, conv: string)
    requires slots > 0 && Feasible(Start(cap, slots, threads), run)
    requires var w := After(Start(cap, slots, threads), run);
      |w.convs| == |w.seqs| && Enabled(w, Alloc(i, conv)) && (conv in w.nums || |w.nums| < cap)
    ensures var w := After(Start(cap, slots, threads), run);
      Do(w, Alloc(i, conv)).seqs[i] == GivenOut(Start(cap, slots, threads), run, conv) + 1
  {
    NoGaps(Start(cap, slots, threads), run, conv);
    SameCap(Start(cap, slots, threads), run);
  }

  lemma {:induction false} SameCap(w: World, run: seq<Action>)
    requires |w.convs| == |w.seqs| && Feasible(w, run)
    ensures After(w, run).cap == w.cap
    decreases |run|
  {
    hide PoolOk, Inserted, WithStatus;
    if run != [] { SameCap(Do(w, run[0]), run[1..]); }
  }

  // Whatever the interleaving, live messages of one conversation have different numbers, none above the counter.
  lemma NumbersDiffer(cap: int, slots: int, threads: nat, run: seq<Action>)
    requires slots > 0 && Feasible(Start(cap, slots, threads), run)
    ensures var w := After(Start(cap, slots, threads), run); Stored(w.pool.mem, w.nums)
  {
    InvAfter(Start(cap, slots, threads), run);
  }

  // A pull by range returns messages of different numbers, each in the range.
  lemma PullDistinct(mem: seq<Cell>, nums: map<string, int>, conv: string, start: int, end: int, r: seq<Msg>)
    requires Stored(mem, nums) && DistinctIds(r)
    requires forall m :: m in r <==>
      Used(m) in mem && m.conv == conv && start <= m.seqNo && (end <= 0 || m.seqNo <= end)
    ensures forall i, j :: 0 <= i < j < |r| ==> r[i].seqNo != r[j].seqNo
    ensures forall i :: 0 <= i < |r| ==> start <= r[i].seqNo <= SeqTable.Get(nums, conv)
    ensures end > 0 ==> forall i :: 0 <= i < |r| ==> r[i].seqNo <= end
  {
    forall i | 0 <= i < |r|
      ensures Used(r[i]) in mem && r[i].conv == conv && start <= r[i].seqNo
    {
      assert r[i] in r;
    }
    forall i, j | 0 <= i < j < |r| ensures r[i].seqNo != r[j].seqNo {
      var a :| 0 <= a < |mem| && mem[a] == Used(r[i]);
      var b :| 0 <= b < |mem| && mem[b] == Used(r[j]);
    }
  }
}
