// Timers as a queue ordered by deadline and id, and what any run of arming, cancelling and processing keeps.
module TimerSpec {

  datatype Entry = Entry(deadline: int, id: nat, cancelled: bool)

  // By deadline, then by id.
  predicate Earlier(deadline: int, id: nat, deadline': int, id': nat) {
    deadline < deadline' || (deadline == deadline' && id < id')
  }

  predicate Before(a: Entry, b: Entry) { Earlier(a.deadline, a.id, b.deadline, b.id) }

  ghost predicate Queue(q: seq<Entry>) {
    forall i, j :: 0 <= i < j < |q| ==> Before(q[i], q[j])
  }

  function Add(q: seq<Entry>, e: Entry): (r: seq<Entry>)
  {
    if q == [] || Before(e, q[0]) then [e] + q else [q[0]] + Add(q[1..], e)
  }

  // Cancelling marks the entry, it stays in the queue until its deadline.
  function Cancel(q: seq<Entry>, id: nat): (r: seq<Entry>)
    ensures |r| == |q| && forall i :: 0 <= i < |q| ==> r[i] == if q[i].id == id then q[i].(cancelled := true) else q[i]
  {
    if q == [] then [] else [if q[0].id == id then q[0].(cancelled := true) else q[0]] + Cancel(q[1..], id)
  }

  function Has(q: seq<Entry>, id: nat): bool { exists i :: 0 <= i < |q| && q[i].id == id }

  // The ids whose callback is due at `now`, in queue order.
  function Due(q: seq<Entry>, now: int): (r: seq<nat>) {
    if q == [] then [] else (if q[0].deadline <= now && !q[0].cancelled then [q[0].id] else []) + Due(q[1..], now)
  }

  function Later(q: seq<Entry>, now: int): (r: seq<Entry>) {
    if q == [] then [] else (if q[0].deadline > now then [q[0]] else []) + Later(q[1..], now)
  }

  lemma {:induction false} NothingDue(q: seq<Entry>, now: int)
    requires Queue(q) && (q == [] || q[0].deadline > now)
    ensures Due(q, now) == [] && Later(q, now) == q
  {
    if q != [] { NothingDue(q[1..], now); }
  }

  // ----- whole runs -----

  datatype Op = Arm(deadline: int) | Revoke(id: nat) | Process(now: int)
  datatype World = World(queue: seq<Entry>, nextId: nat, fired: seq<nat>)

  function Step(w: World, op: Op): World {
    match op
    case Arm(deadline) => World(Add(w.queue, Entry(deadline, w.nextId + 1, false)), w.nextId + 1, w.fired)
    case Revoke(id) => w.(queue := Cancel(w.queue, id))
    case Process(now) => World(Later(w.queue, now), w.nextId, w.fired + Due(w.queue, now))
  }

  function Run(w: World, ops: seq<Op>): World
    decreases |ops|
  {
    if ops == [] then w else Run(Step(w, ops[0]), ops[1..])
  }

  lemma {:induction false} RunMore(w: World, ops: seq<Op>, op: Op)
    ensures Run(w, ops + [op]) == Step(Run(w, ops), op)
    decreases |ops|
  {
    hide Step;
    if ops == [] {
      assert (ops + [op])[1..] == [];
    } else {
      RunMore(Step(w, ops[0]), ops[1..], op);
      assert (ops + [op])[1..] == ops[1..] + [op];
    }
  }

  predicate Distinct(s: seq<nat>) { forall i, j :: 0 <= i < j < |s| ==> s[i] != s[j] }
  predicate UniqueIds(q: seq<Entry>) { forall i, j :: 0 <= i < j < |q| ==> q[i].id != q[j].id }

  ghost predicate Consistent(w: World) {
    && Queue(w.queue) && UniqueIds(w.queue) && Distinct(w.fired)
    && (forall e :: e in w.queue ==> e.id <= w.nextId && e.id !in w.fired)
    && (forall id :: id in w.fired ==> id <= w.nextId)
  }

  // Where a new entry goes.
  lemma {:induction false} AddPlace(q: seq<Entry>, e: Entry) returns (k: nat, r: seq<Entry>)
    requires Queue(q)
    ensures k <= |q| && r == Add(q, e) && |r| == |q| + 1
    ensures forall i {:trigger r[i]} :: 0 <= i <= |q| ==> r[i] == if i < k then q[i] else if i == k then e else q[i - 1]
    ensures (forall i :: 0 <= i < k ==> !Before(e, q[i])) && (forall i :: k <= i < |q| ==> Before(e, q[i]))
  {
    if q == [] || Before(e, q[0]) { k, r := 0, [e] + q; }
    else {
      var k', r' := AddPlace(q[1..], e);
      k, r := k' + 1, [q[0]] + r';
    }
  }

  lemma AddKeeps(q: seq<Entry>, e: Entry)
    requires Queue(q) && UniqueIds(q) && forall x :: x in q ==> x.id < e.id
    ensures Queue(Add(q, e)) && UniqueIds(Add(q, e))
    ensures forall x :: x in Add(q, e) <==> x in q || x == e
  {
    var k, r := AddPlace(q, e);
    assert r[k] == e;
    forall i | 0 <= i < |q| ensures q[i] in r { assert q[i] == r[if i < k then i else i + 1]; }
  }

  lemma CancelKeeps(q: seq<Entry>, id: nat, top: nat)
    requires Queue(q) && UniqueIds(q) && forall x :: x in q ==> x.id <= top
    ensures Queue(Cancel(q, id)) && UniqueIds(Cancel(q, id)) && forall x :: x in Cancel(q, id) ==> x.id <= top
    ensures !Has(q, id) ==> Cancel(q, id) == q
  {
    hide Cancel;
    var r := Cancel(q, id);
    forall i | 0 <= i < |r| ensures r[i].id <= top { assert q[i] in q; }
  }

  // Taking off the first entry.
  lemma PopKeeps(q: seq<Entry>, now: int)
    requires Queue(q) && UniqueIds(q) && |q| > 0 && q[0].deadline <= now
    ensures Queue(q[1..]) && UniqueIds(q[1..]) && forall x :: x in q[1..] ==> x in q
    ensures Due(q, now) == (if q[0].cancelled then [] else [q[0].id]) + Due(q[1..], now)
    ensures Later(q, now) == Later(q[1..], now)
  {}

  // In a queue the due entries are a prefix.
  lemma {:induction false} DuePrefix(q: seq<Entry>, now: int) returns (k: nat)
    requires Queue(q)
    ensures k <= |q| && Later(q, now) == q[k..] && Due(q, now) == Due(q[..k], now)
    ensures (forall i :: 0 <= i < k ==> q[i].deadline <= now) && (forall i :: k <= i < |q| ==> q[i].deadline > now)
  {
    hide Due, Later, Queue;
    if q == [] || q[0].deadline > now {
      k := 0;
      NothingDue(q, now);
      LaterFirst(q, now);
    } else {
      QueueTail(q);
      var k' := DuePrefix(q[1..], now);
      k := k' + 1;
      DueTail(q, now);
      DueTail(q[..k], now);
      assert q[..k][1..] == q[1..][..k'] && q[k..] == q[1..][k'..];
      assert forall i :: 0 < i < |q| ==> q[i] == q[1..][i - 1];
    }
  }

  lemma QueueTail(q: seq<Entry>)
    requires Queue(q) && q != []
    ensures Queue(q[1..])
  {}

  // Nothing comes before the first entry.
  lemma LaterFirst(q: seq<Entry>, now: int)
    requires Queue(q) && (q == [] || q[0].deadline > now)
    ensures Due(q[..0], now) == [] && forall i :: 0 <= i < |q| ==> q[i].deadline > now
  {
    forall i | 0 < i < |q| ensures q[i].deadline > now { assert Before(q[0], q[i]); }
  }

  lemma DueTail(q: seq<Entry>, now: int)
    requires q != [] && q[0].deadline <= now
    ensures Due(q, now) == (if q[0].cancelled then [] else [q[0].id]) + Due(q[1..], now)
    ensures Later(q, now) == Later(q[1..], now)
  {}

  lemma {:induction false} DueMembers(q: seq<Entry>, now: int, id: nat)
    ensures id in Due(q, now) <==> exists i :: 0 <= i < |q| && q[i].id == id && q[i].deadline <= now && !q[i].cancelled
  {
    if q != [] {
      DueMembers(q[1..], now, id);
      assert forall i :: 0 <= i < |q| - 1 ==> q[1..][i] == q[i + 1];
      if i :| 0 <= i < |q| && q[i].id == id && q[i].deadline <= now && !q[i].cancelled {
        if i > 0 { assert q[1..][i - 1] == q[i]; }
      }
    }
  }

  lemma {:induction false} DueDistinct(q: seq<Entry>, now: int)
    requires UniqueIds(q)
    ensures Distinct(Due(q, now))
  {
    if q != [] {
      DueDistinct(q[1..], now);
      DueMembers(q[1..], now, q[0].id);
    }
  }

  lemma ArmConsistent(w: World, deadline: int)
    requires Consistent(w)
    ensures Consistent(Step(w, Arm(deadline)))
  {
    var e := Entry(deadline, w.nextId + 1, false);
    AddKeeps(w.queue, e);
  }

  lemma StepConsistent(w: World, op: Op)
    requires Consistent(w)
    ensures Consistent(Step(w, op))
  {
    match op
    case Arm(deadline) => ArmConsistent(w, deadline);
    case Revoke(id) =>
      var q := Cancel(w.queue, id);
      forall i | 0 <= i < |q| ensures q[i].id <= w.nextId && q[i].id !in w.fired { assert w.queue[i] in w.queue; }
    case Process(now) => ProcessConsistent(w, now);
  }

  lemma ProcessConsistent(w: World, now: int)
    requires Consistent(w)
    ensures Consistent(Step(w, Process(now)))
  {
    hide Due, Later;
    var k := DuePrefix(w.queue, now);
    var due := Due(w.queue, now);
    DueDistinct(w.queue, now);
    forall id | id in due
      ensures id <= w.nextId && id !in w.fired && forall i :: k <= i < |w.queue| ==> w.queue[i].id != id
    { DueMembers(w.queue, now, id); }
    BothDistinct(w.fired, due);
  }

  lemma BothDistinct(a: seq<nat>, b: seq<nat>)
    requires Distinct(a) && Distinct(b) && forall x :: x in b ==> x !in a
    ensures Distinct(a + b)
  {
    var f := a + b;
    forall i, j | 0 <= i < j < |f| ensures f[i] != f[j] { if i < |a| <= j { assert f[j] in b && f[i] in a; } }
  }

  // Over any run, ids are never reused and no callback runs twice.
  lemma {:induction false} RunConsistent(w: World, ops: seq<Op>)
    requires Consistent(w)
    ensures Consistent(Run(w, ops))
    decreases |ops|
  {
    if ops != [] { StepConsistent(w, ops[0]); RunConsistent(Step(w, ops[0]), ops[1..]); }
  }

  // ----- the order of firing -----

  // Where the due ids stand in the queue.
  lemma {:induction false} DuePlace(q: seq<Entry>, now: int, a: int) returns (i: int)
    requires 0 <= a < |Due(q, now)|
    ensures 0 <= i < |q| && q[i].id == Due(q, now)[a] && q[i].deadline <= now && !q[i].cancelled
    ensures i + |Due(q[i..], now)| >= a && |Due(q[i..], now)| == |Due(q, now)| - a
  {
    var first := q[0].deadline <= now && !q[0].cancelled;
    if first && a == 0 { i := 0; assert q[0..] == q; } else {
      var i' := DuePlace(q[1..], now, if first then a - 1 else a);
      i := i' + 1;
      assert q[1..][i'..] == q[i..];
    }
  }

  lemma {:induction false} DueShrinks(q: seq<Entry>, now: int, i: int, j: int)
    requires 0 <= i <= j <= |q|
    ensures |Due(q[i..], now)| >= |Due(q[j..], now)|
    decreases j - i
  {
    if i < j { DueShrinks(q, now, i + 1, j); assert q[i..][1..] == q[i + 1..]; }
  }

  // One pass fires by deadline, and timers of one deadline in the order of their ids.
  lemma FireOrder(q: seq<Entry>, now: int, a: int, b: int) returns (e: Entry, e': Entry)
    requires Queue(q) && 0 <= a < b < |Due(q, now)|
    ensures e in q && e' in q && e.id == Due(q, now)[a] && e'.id == Due(q, now)[b]
    ensures e.deadline < e'.deadline || (e.deadline == e'.deadline && e.id < e'.id)
  {
    hide Due;
    var i := DuePlace(q, now, a);
    var j := DuePlace(q, now, b);
    if j <= i { DueShrinks(q, now, j, i); }
    e, e' := q[i], q[j];
    assert Before(e, e');
  }

  // The deadlines in the order in which timers were armed; the timer armed first has id 1.
  function Armed(ops: seq<Op>): seq<int> {
    if ops == [] then [] else (if ops[0].Arm? then [ops[0].deadline] else []) + Armed(ops[1..])
  }

  // The queue has the deadlines with which its timers were armed.
  ghost predicate Dated(q: seq<Entry>, ds: seq<int>) {
    forall i :: 0 <= i < |q| ==> 1 <= q[i].id <= |ds| && q[i].deadline == ds[q[i].id - 1]
  }

  ghost predicate Handed(fired: seq<nat>, ds: seq<int>) { forall i :: 0 <= i < |fired| ==> 1 <= fired[i] <= |ds| }

  // Of two timers armed for one deadline, the one armed first fires first.
  ghost predicate InTurn(fired: seq<nat>, ds: seq<int>)
    requires Handed(fired, ds)
  {
    forall i, j :: 0 <= i < j < |fired| && ds[fired[i] - 1] == ds[fired[j] - 1] ==> fired[i] < fired[j]
  }

  // A timer that waits was armed later than any of its deadline that has fired.
  ghost predicate Waits(q: seq<Entry>, fired: seq<nat>, ds: seq<int>)
    requires Handed(fired, ds)
  {
    forall i, j :: 0 <= i < |q| && 0 <= j < |fired| && ds[fired[j] - 1] == q[i].deadline ==> fired[j] < q[i].id
  }

  ghost predicate Turn(w: World, ds: seq<int>) {
    && w.nextId == |ds| && Dated(w.queue, ds) && Handed(w.fired, ds) && InTurn(w.fired, ds)
    && Waits(w.queue, w.fired, ds)
  }

  lemma ArmTurn(w: World, ds: seq<int>, deadline: int)
    requires Consistent(w) && Turn(w, ds)
    ensures Turn(Step(w, Arm(deadline)), ds + [deadline])
  {
    var e, ds' := Entry(deadline, w.nextId + 1, false), ds + [deadline];
    var k, r := AddPlace(w.queue, e);
    hide Add;
    assert forall i :: 0 <= i < |ds| ==> ds'[i] == ds[i];
  }

  lemma RevokeTurn(w: World, ds: seq<int>, id: nat)
    requires Turn(w, ds)
    ensures Turn(Step(w, Revoke(id)), ds)
  {
    hide Cancel;
  }

  lemma ProcessTurn(w: World, ds: seq<int>, now: int)
    requires Consistent(w) && Turn(w, ds)
    ensures Turn(Step(w, Process(now)), ds)
  {
    hide Due, Later;
    var q, due := w.queue, Due(w.queue, now);
    var k := DuePrefix(q, now);
    forall a | 0 <= a < |due| ensures 1 <= due[a] <= |ds| && ds[due[a] - 1] <= now { var i := DuePlace(q, now, a); }
    FiredTurn(q, w.fired, ds, now);
    assert forall i :: 0 <= i < |q| - k ==> q[k..][i] == q[k + i];
    var f, n := w.fired + due, |w.fired|;
    assert forall j :: 0 <= j < |f| ==> f[j] == if j < n then w.fired[j] else due[j - n];
  }

  lemma FiredTurn(q: seq<Entry>, fired: seq<nat>, ds: seq<int>, now: int)
    requires Queue(q) && Dated(q, ds) && Handed(fired, ds) && InTurn(fired, ds) && Waits(q, fired, ds)
    ensures Handed(fired + Due(q, now), ds) && InTurn(fired + Due(q, now), ds)
  {
    hide Due;
    var due, n := Due(q, now), |fired|;
    var f := fired + due;
    forall a | 0 <= a < |due| ensures 1 <= due[a] <= |ds| { var i := DuePlace(q, now, a); }
    assert Handed(f, ds);
    forall i, j | 0 <= i < j < |f| && ds[f[i] - 1] == ds[f[j] - 1] ensures f[i] < f[j] {
      if i >= n { var x, y := FireOrder(q, now, i - n, j - n); DueDate(q, ds, x); DueDate(q, ds, y); }
      else if j >= n { var x := DuePlace(q, now, j - n); }
    }
  }

  lemma DueDate(q: seq<Entry>, ds: seq<int>, e: Entry)
    requires Dated(q, ds) && e in q
    ensures 1 <= e.id <= |ds| && e.deadline == ds[e.id - 1]
  {}

  lemma {:induction false} TurnKept(w: World, ds: seq<int>, ops: seq<Op>)
    requires Consistent(w) && Turn(w, ds)
    ensures Turn(Run(w, ops), ds + Armed(ops))
    decreases |ops|
  {
    hide Turn, Step, Consistent;
    if ops == [] { assert ds + Armed(ops) == ds; } else {
      match ops[0] {
        case Arm(deadline) => ArmTurn(w, ds, deadline);
        case Revoke(id) => RevokeTurn(w, ds, id);
        case Process(now) => ProcessTurn(w, ds, now);
      }
      StepConsistent(w, ops[0]);
      var ds' := if ops[0].Arm? then ds + [ops[0].deadline] else ds;
      TurnKept(Step(w, ops[0]), ds', ops[1..]);
      assert ds' + Armed(ops[1..]) == ds + Armed(ops);
    }
  }

  // Over any run from the start, timers armed for one deadline fire in the order in which they were armed.
  lemma RunInTurn(ops: seq<Op>)
    ensures Turn(Run(World([], 0, []), ops), Armed(ops))
    ensures var f, ds := Run(World([], 0, []), ops).fired, Armed(ops);
      && (forall i :: 0 <= i < |f| ==> 1 <= f[i] <= |ds|)
      && forall i, j :: 0 <= i < j < |f| && ds[f[i] - 1] == ds[f[j] - 1] ==> f[i] < f[j]
  {
    hide Run, Armed, Turn;
    Fresh();
    TurnKept(World([], 0, []), [], ops);
    assert [] + Armed(ops) == Armed(ops);
    TurnMeans(Run(World([], 0, []), ops), Armed(ops));
  }

  lemma Fresh()
    ensures Consistent(World([], 0, [])) && Turn(World([], 0, []), [])
  {}

  lemma TurnMeans(w: World, ds: seq<int>)
    requires Turn(w, ds)
    ensures forall i :: 0 <= i < |w.fired| ==> 1 <= w.fired[i] <= |ds|
    ensures var f := w.fired;
      forall i, j :: 0 <= i < j < |f| && ds[f[i] - 1] == ds[f[j] - 1] ==> f[i] < f[j]
  {}

  // An id that was handed out, has not fired and is not waiting uncancelled.
  predicate Dead(w: World, id: nat) {
    id <= w.nextId && id !in w.fired && forall x :: x in w.queue && x.id == id ==> x.cancelled
  }

  lemma {:induction false} DeadForever(w: World, id: nat, ops: seq<Op>)
    requires Consistent(w) && Dead(w, id)
    ensures Dead(Run(w, ops), id)
    decreases |ops|
  {
    if ops != [] {
      match ops[0] {
        case Arm(deadline) => AddKeeps(w.queue, Entry(deadline, w.nextId + 1, false));
        case Revoke(_) =>
        case Process(now) => var k := DuePrefix(w.queue, now); DueMembers(w.queue, now, id);
      }
      StepConsistent(w, ops[0]);
      DeadForever(Step(w, ops[0]), id, ops[1..]);
    }
  }

  // After a cancel that finds its timer, the callback never runs.
  lemma CancelledNeverFires(w: World, id: nat, ops: seq<Op>)
    requires Consistent(w) && Has(w.queue, id)
    ensures id !in Run(Step(w, Revoke(id)), ops).fired
  {
    StepConsistent(w, Revoke(id));
    DeadForever(Step(w, Revoke(id)), id, ops);
  }
}
