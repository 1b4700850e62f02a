// The sequence allocator: one counter per conversation behind an open-addressing index.
module SeqTable {
  import opened Probe

  ghost function Get(nums: map<string, int>, k: string): int { if k in nums then nums[k] else 0 }

  // The counters as a map.
  ghost predicate Counts(convs: seq<string>, current: seq<int>, nums: map<string, int>) {
    && |convs| == |current| == |nums|
    && (forall i, j :: 0 <= i < j < |convs| ==> convs[i] != convs[j])
    && (forall i :: 0 <= i < |convs| ==> convs[i] in nums && nums[convs[i]] == current[i])
    && (forall k :: k in nums ==> k in convs)
  }

  lemma CountsAt(convs: seq<string>, current: seq<int>, nums: map<string, int>, k: string)
    requires Counts(convs, current, nums)
    ensures |convs| == |current| == |nums| && (k in nums <==> k in convs)
    ensures forall i :: 0 <= i < |convs| && convs[i] == k ==> Get(nums, k) == current[i]
  {}

  lemma CountsBump(convs: seq<string>, current: seq<int>, nums: map<string, int>, i: int, v: int)
    requires Counts(convs, current, nums) && 0 <= i < |convs|
    ensures Counts(convs, current[i := v], nums[convs[i] := v])
  {
    var nums' := nums[convs[i] := v];
    assert nums'.Keys == nums.Keys;
    assert |nums'.Keys| == |nums.Keys|;
  }

  lemma CountsAdd(convs: seq<string>, current: seq<int>, nums: map<string, int>, k: string, v: int)
    requires Counts(convs, current, nums) && k !in convs
    ensures Counts(convs + [k], current + [v], nums[k := v])
  {
    var nums' := nums[k := v];
    assert k !in nums;
    assert nums'.Keys == nums.Keys + {k};
    assert |nums'.Keys| == |nums.Keys| + 1;
    assert (convs + [k])[|convs|] == k;
  }

  lemma AddIndexed(t: seq<int>, convs: seq<string>, h: string -> nat, k: string, i: int)
    requires Indexed(t, convs, h, |convs|) && |t| > |convs| + 1 && k !in convs && FirstEmpty(t, h, k, i)
    ensures 0 <= i < |t| && Indexed(t[i := |convs|], convs + [k], h, |convs| + 1)
  {
    GrowIndexed(t, convs, h, convs + [k]);
    InsertIndexed(t, convs + [k], h, |convs|, i);
  }

  class Seqs {
    const h: string -> nat
    const cap: int
    const convHash: array<int>
    var convs: seq<string>
    var current: seq<int>
    ghost var nums: map<string, int>

    ghost predicate Valid()
      reads this, convHash
    {
      && |convs| <= cap < convHash.Length && Counts(convs, current, nums)
      && Indexed(convHash[..], convs, h, |convs|)
    }

    constructor (h: string -> nat, cap: int, slots: int)
      requires 0 <= cap < slots
      ensures Valid() && nums == map[] && this.cap == cap && fresh(convHash)
    {
      this.h, this.cap := h, cap;
      var t := new int[slots](_ => -1);
      convHash, convs, current, nums := t, [], [], map[];
      new;
      NoneIndexed<string>(t[..], [], h);
    }

    // The next number of a conversation; none for an empty id, or a new conversation when the table is full.
    method Next(conv: string) returns (v: int)
      requires Valid()
      modifies this`convs, this`current, this`nums, convHash
      ensures Valid()
      ensures conv == "" || (conv !in old(nums) && |old(nums)| >= cap) ==> v == -1 && nums == old(nums)
      ensures conv != "" && (conv in old(nums) || |old(nums)| < cap) ==>
        v == Get(old(nums), conv) + 1 && nums == old(nums)[conv := v]
    {
      hide Indexed, Table, Absent, FirstEmpty, Slots, Counts;
      if conv == "" { return -1; }
      CountsAt(convs, current, nums, conv);
      ghost var t := convHash[..];
      IndexedFacts(t, convs, h, |convs|);
      var i := Locate(convHash, convs, h, conv);
      Found(t, convs, h, conv, i);
      if convHash[i] < 0 {
        if |convs| >= cap { return -1; }
        AddIndexed(t, convs, h, conv, i);
        CountsAdd(convs, current, nums, conv, 1);
        convHash[i] := |convs|;
        assert convHash[..] == t[i := |convs|];
        convs, current, nums := convs + [conv], current + [1], nums[conv := 1];
        return 1;
      }
      var ei := convHash[i];
      v := current[ei] + 1;
      CountsBump(convs, current, nums, ei, v);
      current, nums := current[ei := v], nums[conv := v];
    }

    method Current(conv: string) returns (v: int)
      requires Valid()
      ensures v == Get(nums, conv)
    {
      hide Indexed, Table, Absent, FirstEmpty, Slots;
      IndexedFacts(convHash[..], convs, h, |convs|);
      var i := Locate(convHash, convs, h, conv);
      Found(convHash[..], convs, h, conv, i);
      v := if convHash[i] < 0 then 0 else current[convHash[i]];
    }
  }
}
