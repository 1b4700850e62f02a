// The timer queue on top of the red-black tree.
module Timer {
  import opened Basics
  import opened RedBlackShape
  import opened RedBlackBalance
  import opened RedBlackTree
  import opened TimerSpec

  predicate KeyBefore(a: Key, b: Key) {
    Earlier(a.deadline, a.id, b.deadline, b.id)
  }

  ghost predicate Indexed(key: seq<Key>, order: seq<int>, cancelled: seq<bool>) {
    |cancelled| == |key| && forall i :: 0 <= i < |order| ==> 0 <= order[i] < |key|
  }

  function Entries(key: seq<Key>, order: seq<int>, cancelled: seq<bool>): (q: seq<Entry>)
    requires Indexed(key, order, cancelled)
    ensures |q| == |order|
    ensures forall i :: 0 <= i < |order| ==>
      q[i] == Entry(key[order[i]].deadline, key[order[i]].id, cancelled[order[i]])
  {
    seq(|order|, i requires 0 <= i < |order| && 0 <= order[i] < |key| && |cancelled| == |key| =>
      Entry(key[order[i]].deadline, key[order[i]].id, cancelled[order[i]]))
  }

  lemma EntriesInsertion(less: (Key, Key) -> bool, key: seq<Key>, cancelled: seq<bool>, o: seq<int>, z: int, k: int)
    requires Indexed(key, o, cancelled) && 0 <= z < |key| && 0 <= k <= |o|
    requires forall a, b :: less(a, b) == KeyBefore(a, b)
    requires Fits(less, key, o, key[z], k) && Queue(Entries(key, o, cancelled))
    ensures Indexed(key, Insertion(o, k, z), cancelled)
    ensures Entries(key, Insertion(o, k, z), cancelled)
            == Add(Entries(key, o, cancelled), Entry(key[z].deadline, key[z].id, cancelled[z]))
  {
    var q, e := Entries(key, o, cancelled), Entry(key[z].deadline, key[z].id, cancelled[z]);
    var k', r := AddPlace(q, e);
    assert forall i :: 0 <= i < |o| ==> less(key[z], key[o[i]]) == Before(e, q[i]);
    assert k == k' by { assert k < |o| ==> less(key[z], key[o[k]]); assert k' < |o| ==> Before(e, q[k']); }
    hide Fits, Queue, Before;
    var o' := Insertion(o, k, z);
    hide Insertion;
    var r' := Entries(key, o', cancelled);
    hide Entries;
    forall i | 0 <= i < |r'| ensures r'[i] == r[i] { assert r'[i].id == key[o'[i]].id; }
  }

  lemma EntriesCancel(key: seq<Key>, o: seq<int>, cancelled: seq<bool>, i: int)
    requires Indexed(key, o, cancelled) && 0 <= i < |o| && UniqueIds(Entries(key, o, cancelled))
    requires forall a, b :: 0 <= a < b < |o| ==> o[a] != o[b]
    ensures Entries(key, o, cancelled[o[i] := true]) == Cancel(Entries(key, o, cancelled), key[o[i]].id)
  {
    hide Cancel;
  }

  lemma EntriesDrop(key: seq<Key>, o: seq<int>, cancelled: seq<bool>)
    requires Indexed(key, o, cancelled) && |o| > 0
    ensures Indexed(key, Cut(o, 0), cancelled)
    ensures Entries(key, Cut(o, 0), cancelled) == Entries(key, o, cancelled)[1..]
  {}

  class TimerQueue {
    const tree: Tree
    var nextId: nat
    var cancelled: seq<bool>

    ghost var ops: seq<Op> // every operation so far
    ghost var log: seq<nat> // every id fired so far

    ghost predicate Linked()
      reads this, tree
    {
      && tree.Valid() && (forall a, b :: tree.less(a, b) == KeyBefore(a, b))
      && Indexed(tree.key, tree.g.order, cancelled)
    }

    ghost function View(): seq<Entry>
      requires Linked()
      reads this, tree
    {
      Entries(tree.key, tree.g.order, cancelled)
    }

    // The queue is what the operations so far lead to.
    ghost predicate Valid()
      reads this, tree
    { Ordered() && World(View(), nextId, log) == Run(World([], 0, []), ops) }

    ghost predicate Ordered()
      reads this, tree
    {
      Linked() && Queue(View()) && UniqueIds(View()) && forall x :: x in View() ==> x.id <= nextId
    }

    constructor ()
      ensures Valid() && fresh(tree) && ops == [] && log == []
    {
      var t := new Tree((a, b) => KeyBefore(a, b));
      tree := t;
      nextId := 0;
      cancelled := [false];
      ops, log := [], [];
    }

    method Arm(deadline: int) returns (id: nat)
      requires Valid()
      modifies this, tree
      ensures Valid() && id == old(nextId) + 1 == nextId && ops == old(ops) + [Op.Arm(deadline)] && log == old(log)
      ensures View() == Add(old(View()), Entry(deadline, id, false))
    {
      hide Inv, IsOrder, Sorted, Run, Add, Queue, UniqueIds, Fits, Insertion, KeyBefore;
      ops := ops + [Op.Arm(deadline)];
      RunMore(World([], 0, []), old(ops), Op.Arm(deadline));
      ghost var q := View();
      nextId := nextId + 1;
      id := nextId;
      var z := tree.NewNode(Key(deadline, id));
      cancelled := cancelled + [false];
      ghost var o := tree.g.order;
      assert View() == q;
      tree.Insert(z);
      ghost var k :| 0 <= k <= |o| && tree.g.order == Insertion(o, k, z)
        && Fits(tree.less, tree.key, o, tree.key[z], k);
      EntriesInsertion(tree.less, tree.key, cancelled, o, z, k);
      AddKeeps(q, Entry(deadline, id, false));
    }

    // The in-order walk over first and next; NIL when no entry carries the id.
    method FindById(id: nat) returns (n: int)
      requires Ordered()
      ensures if Has(View(), id) then In(tree.g, n) && tree.key[n].id == id else n == NIL
    {
      hide Inv, IsOrder, Sorted;
      n := tree.First();
      ghost var i := 0;
      while n != NIL
        invariant 0 <= i <= |tree.g.order|
        invariant n == if i < |tree.g.order| then tree.g.order[i] else NIL
        invariant forall j :: 0 <= j < i ==> View()[j].id != id
        decreases |tree.g.order| - i
      {
        assert View()[i].id == tree.key[n].id;
        tree.Position(i);
        if tree.key[n].id == id { return; }
        n := tree.Next(n);
        i := i + 1;
      }
      if i < |tree.g.order| { tree.Position(i); }
    }

    method Revoke(id: nat) returns (ok: bool)
      requires Valid()
      modifies this`cancelled, this`ops
      ensures Valid() && ops == old(ops) + [Op.Revoke(id)] && ok == Has(old(View()), id)
      ensures View() == Cancel(old(View()), id)
    {
      hide Inv, IsOrder, Sorted, Queue, UniqueIds, Cancel, Entries, Run;
      ops := ops + [Op.Revoke(id)];
      RunMore(World([], 0, []), old(ops), Op.Revoke(id));
      CancelKeeps(View(), id, nextId);
      var n := FindById(id);
      ok := n != NIL;
      if ok {
        tree.Spot(n);
        tree.NoRepeats();
        EntriesCancel(tree.key, tree.g.order, cancelled, tree.g.span[n].at);
        cancelled := cancelled[n := true];
      }
    }

    method Pop(now: int) returns (n: int)
      requires Ordered() && |View()| > 0 && View()[0].deadline <= now
      modifies tree
      ensures Ordered() && View() == old(View())[1..] && tree.key == old(tree.key)
      ensures 0 <= n < |cancelled| && old(View())[0] == Entry(tree.key[n].deadline, tree.key[n].id, cancelled[n])
    {
      hide Inv, IsOrder, Sorted, Queue, UniqueIds;
      n := tree.First();
      tree.Position(0);
      EntriesDrop(tree.key, tree.g.order, cancelled);
      PopKeeps(View(), now);
      tree.Delete(n);
    }

    // Takes the first entry off the queue; its id is fired unless it was cancelled.
    method Fire(now: int) returns (ids: seq<nat>)
      requires Ordered() && |View()| > 0 && View()[0].deadline <= now
      modifies tree
      ensures Ordered() && |View()| == |old(View())| - 1
      ensures Due(old(View()), now) == ids + Due(View(), now) && Later(old(View()), now) == Later(View(), now)
    {
      hide Inv, IsOrder, Sorted, Queue, UniqueIds, Entries, Due, Later, In;
      PopKeeps(View(), now);
      var n := Pop(now);
      ids := if cancelled[n] then [] else [tree.key[n].id];
    }

    method Process(now: int) returns (fired: seq<nat>)
      requires Valid()
      modifies tree, this`ops, this`log
      ensures Valid() && ops == old(ops) + [Op.Process(now)] && log == old(log) + fired
      ensures fired == Due(old(View()), now) && View() == Later(old(View()), now)
    {
      hide Inv, IsOrder, Sorted, Queue, UniqueIds, Entries, Due, Later, In, Run;
      ops := ops + [Op.Process(now)];
      RunMore(World([], 0, []), old(ops), Op.Process(now));
      fired := [];
      ghost var q := View();
      var empty := tree.Empty();
      while !empty
        invariant Ordered() && empty == (|View()| == 0) && log == old(log) && ops == old(ops) + [Op.Process(now)]
        invariant Due(q, now) == fired + Due(View(), now) && Later(q, now) == Later(View(), now)
        decreases |View()|
      {
        var n := tree.First();
        tree.Position(0);
        assert View()[0].deadline == tree.key[n].deadline;
        if tree.key[n].deadline > now { break; }
        var ids := Fire(now);
        fired := fired + ids;
        empty := tree.Empty();
      }
      NothingDue(View(), now);
      log := log + fired;
    }
  }
}
