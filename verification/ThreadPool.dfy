// The thread pool as a transition system: one action per lock, condition-variable or atomic operation,
// interleaved freely among workers, submitters and waiters.
module ThreadPool {

  // A worker's position in its loop. Check, Drowsy, Decide, Popping and Quitting hold the queue lock.
  datatype Worker = Top | Check | Drowsy | Asleep | Woken | Decide | Popping | Quitting | Running(id: int) | Ran
    | Dropped | Cheering | Exited

  // A submitter's position. Pushing, Adding and Releasing hold the queue lock.
  datatype Submitter = Idle | Admitted | Pushing | Adding | Releasing | Signalling

  // A caller of wait_idle; `seen` tasks had been pushed when it called. Testing, Yawning and Leaving hold the queue
  // lock.
  datatype Waiter = Away | Wanting(seen: int) | Testing(seen: int) | Yawning(seen: int) | Dozing(seen: int)
    | Leaving(seen: int) | Returned(seen: int)

  datatype Lock = Open | ByWorker(i: int) | BySubmitter(i: int) | ByWaiter(i: int)

  // Tasks are numbered in push order. pushed and popped count queue operations; finished lists completed task
  // functions.
  datatype State = State(
    queue: seq<int>, pending: int, shutdown: bool, lock: Lock,
    workers: seq<Worker>, subs: seq<Submitter>, waiters: seq<Waiter>,
    pushed: int, popped: int, finished: seq<int>)

  // A thread's next operation follows from its position; a signal also names the sleeper it wakes, if any.
  datatype Action = StepWorker(i: int) | StepSubmitter(j: int, wake: int) | StepWaiter(k: int) | Shutdown | Broadcast

  ghost predicate Enabled(s: State, a: Action) {
    match a
    case StepWorker(i) => 0 <= i < |s.workers| && !s.workers[i].Exited?
      && (s.workers[i].Top? || s.workers[i].Woken? ==> s.lock.Open?)
    case StepSubmitter(j, wake) =>
      && 0 <= j < |s.subs| && (s.subs[j].Idle? ==> !s.shutdown) && (s.subs[j].Admitted? ==> s.lock.Open?)
      && (s.subs[j].Signalling? ==> Sleeps(s, wake) || NoneSleeps(s))
    case StepWaiter(k) => 0 <= k < |s.waiters| && (s.waiters[k].Wanting? ==> s.lock.Open?)
    // No submit races destroy.
    case Shutdown => forall j :: 0 <= j < |s.subs| ==> s.subs[j].Idle?
    case Broadcast => s.shutdown
  }

  ghost predicate Sleeps(s: State, i: int) { 0 <= i < |s.workers| && s.workers[i].Asleep? }
  ghost predicate NoneSleeps(s: State) { forall i :: 0 <= i < |s.workers| ==> !s.workers[i].Asleep? }

  ghost function SetW(s: State, i: int, pc: Worker): State
    requires 0 <= i < |s.workers|
  { s.(workers := s.workers[i := pc]) }

  ghost function SetS(s: State, j: int, pc: Submitter): State
    requires 0 <= j < |s.subs|
  { s.(subs := s.subs[j := pc]) }

  ghost function SetI(s: State, k: int, pc: Waiter): State
    requires 0 <= k < |s.waiters|
  { s.(waiters := s.waiters[k := pc]) }

  // A broadcast on the idle condition wakes every dozing waiter.
  ghost function Stir(ws: seq<Waiter>): (r: seq<Waiter>)
    ensures |r| == |ws|
  { seq(|ws|, k requires 0 <= k < |ws| => if ws[k].Dozing? then Wanting(ws[k].seen) else ws[k]) }

  // A broadcast on the queue condition wakes every sleeping worker.
  ghost function Rouse(ws: seq<Worker>): (r: seq<Worker>)
    ensures |r| == |ws|
  { seq(|ws|, i requires 0 <= i < |ws| => if ws[i].Asleep? then Woken else ws[i]) }

  ghost function DoWorker(s: State, i: int): State
    requires 0 <= i < |s.workers|
  {
    match s.workers[i]
    case Top => SetW(s, i, Check).(lock := ByWorker(i))
    case Check => SetW(s, i, if s.queue == [] && !s.shutdown then Drowsy else Decide)
    case Drowsy => SetW(s, i, Asleep).(lock := Open)
    case Asleep => SetW(s, i, Woken)
    case Woken => SetW(s, i, Check).(lock := ByWorker(i))
    case Decide => SetW(s, i, if s.shutdown && s.queue == [] then Quitting else Popping)
    case Quitting => SetW(s, i, Exited).(lock := Open)
    case Popping =>
      if s.queue == [] then SetW(s, i, Top).(lock := Open)
      else SetW(s, i, Running(s.queue[0])).(lock := Open, queue := s.queue[1..], popped := s.popped + 1)
    case Running(id) => SetW(s, i, Ran).(finished := s.finished + [id])
    case Ran => SetW(s, i, Dropped).(pending := s.pending - 1)
    case Dropped => SetW(s, i, if s.pending == 0 then Cheering else Top)
    case Cheering => SetW(s, i, Top).(waiters := Stir(s.waiters))
    case Exited => s
  }

  ghost function DoSubmitter(s: State, j: int, wake: int): State
    requires 0 <= j < |s.subs|
  {
    match s.subs[j]
    case Idle => SetS(s, j, Admitted)
    case Admitted => SetS(s, j, Pushing).(lock := BySubmitter(j))
    case Pushing => SetS(s, j, Adding).(queue := s.queue + [s.pushed], pushed := s.pushed + 1)
    case Adding => SetS(s, j, Releasing).(pending := s.pending + 1)
    case Releasing => SetS(s, j, Signalling).(lock := Open)
    case Signalling => SetS(if Sleeps(s, wake) then SetW(s, wake, Woken) else s, j, Idle)
  }

  ghost function DoWaiter(s: State, k: int): State
    requires 0 <= k < |s.waiters|
  {
    match s.waiters[k]
    case Away => SetI(s, k, Wanting(s.pushed))
    case Wanting(seen) => SetI(s, k, Testing(seen)).(lock := ByWaiter(k))
    case Testing(seen) => SetI(s, k, if s.pending > 0 then Yawning(seen) else Leaving(seen))
    case Yawning(seen) => SetI(s, k, Dozing(seen)).(lock := Open)
    case Dozing(seen) => SetI(s, k, Wanting(seen))
    case Leaving(seen) => SetI(s, k, Returned(seen)).(lock := Open)
    case Returned(_) => SetI(s, k, Wanting(s.pushed))
  }

  ghost function Do(s: State, a: Action): State
    requires Enabled(s, a)
  {
    match a
    case StepWorker(i) => DoWorker(s, i)
    case StepSubmitter(j, wake) => DoSubmitter(s, j, wake)
    case StepWaiter(k) => DoWaiter(s, k)
    case Shutdown => s.(shutdown := true)
    case Broadcast => s.(workers := Rouse(s.workers))
  }

  ghost function Init(workers: nat, subs: nat, waiters: nat): State {
    State([], 0, false, Open, seq(workers, _ => Top), seq(subs, _ => Idle), seq(waiters, _ => Away), 0, 0, [])
  }

  // ----- the invariant -----

  ghost predicate HoldsW(w: Worker) { w.Check? || w.Drowsy? || w.Decide? || w.Popping? || w.Quitting? }
  ghost predicate HoldsS(w: Submitter) { w.Pushing? || w.Adding? || w.Releasing? }
  ghost predicate HoldsI(w: Waiter) { w.Testing? || w.Yawning? || w.Leaving? }

  ghost predicate Bounded(s: State) {
    match s.lock
    case ByWorker(i) => 0 <= i < |s.workers|
    case BySubmitter(j) => 0 <= j < |s.subs|
    case ByWaiter(k) => 0 <= k < |s.waiters|
    case Open => true
  }

  // The lock is with exactly the thread whose position is inside a critical section.
  ghost predicate LockInv(s: State) {
    && Bounded(s)
    && LockW(s) && LockS(s) && LockI(s)
  }

  ghost predicate LockW(s: State) {
    forall i :: 0 <= i < |s.workers| ==> (HoldsW(s.workers[i]) <==> s.lock == ByWorker(i))
  }
  ghost predicate LockS(s: State) {
    forall j :: 0 <= j < |s.subs| ==> (HoldsS(s.subs[j]) <==> s.lock == BySubmitter(j))
  }
  ghost predicate LockI(s: State) {
    forall k :: 0 <= k < |s.waiters| ==> (HoldsI(s.waiters[k]) <==> s.lock == ByWaiter(k))
  }

  // What a worker inside its critical section has found out about the queue and the shutdown flag.
  ghost predicate Decided(w: Worker, work: bool, shutdown: bool) {
    (w.Drowsy? ==> !work) && (w.Decide? ==> work || shutdown) && (w.Popping? ==> work)
      && (w.Quitting? ==> !work && shutdown)
  }

  // First in, first out: the queue is the run of tasks not yet popped.
  ghost predicate QueueInv(s: State) { InOrder(s) && AllDecided(s) }

  ghost predicate InOrder(s: State) {
    0 <= s.popped && |s.queue| == s.pushed - s.popped && forall n :: 0 <= n < |s.queue| ==> s.queue[n] == s.popped + n
  }

  ghost predicate AllDecided(s: State) {
    forall i :: 0 <= i < |s.workers| ==> Decided(s.workers[i], s.queue != [], s.shutdown)
  }

  ghost predicate Runs(ws: seq<Worker>, t: int) { exists i :: 0 <= i < |ws| && ws[i] == Running(t) }

  // Every popped task is finished once or with exactly one worker.
  ghost predicate RunInv(s: State) {
    && (forall t :: t in s.finished ==> 0 <= t < s.popped)
    && (forall m, n :: 0 <= m < n < |s.finished| ==> s.finished[m] != s.finished[n])
    && (forall i :: 0 <= i < |s.workers| && s.workers[i].Running? ==>
      0 <= s.workers[i].id < s.popped && s.workers[i].id !in s.finished)
    && (forall i, j :: 0 <= i < j < |s.workers| && s.workers[i].Running? && s.workers[j].Running? ==>
      s.workers[i].id != s.workers[j].id)
    && (forall t {:trigger Runs(s.workers, t)} :: 0 <= t < s.popped && t !in s.finished ==> Runs(s.workers, t))
  }

  // Workers holding a popped task that is not yet counted off.
  ghost function Busy(ws: seq<Worker>): (n: int)
    ensures n >= 0
  { if ws == [] then 0 else Busy(ws[..|ws| - 1]) + if ws[|ws| - 1].Running? || ws[|ws| - 1].Ran? then 1 else 0 }

  ghost function Adds(ss: seq<Submitter>): (n: int)
    ensures n >= 0
  { if ss == [] then 0 else Adds(ss[..|ss| - 1]) + if ss[|ss| - 1].Adding? then 1 else 0 }

  ghost predicate PendingInv(s: State) { s.pending == |s.queue| + Busy(s.workers) - Adds(s.subs) }

  ghost predicate AllDone(s: State, n: int) { forall t :: 0 <= t < n ==> t in s.finished }

  ghost predicate WaitOne(s: State, w: Waiter) {
    !w.Away? ==> w.seen <= s.pushed && (w.Leaving? || w.Returned? ==> AllDone(s, w.seen))
  }

  ghost predicate WaitInv(s: State) {
    forall k :: 0 <= k < |s.waiters| ==> WaitOne(s, s.waiters[k])
  }

  ghost predicate DownInv(s: State) {
    && (s.shutdown ==> forall j :: 0 <= j < |s.subs| ==> s.subs[j].Idle?)
    && (forall i :: 0 <= i < |s.workers| && s.workers[i].Exited? ==> s.shutdown && s.queue == [])
  }

  // The submitter has pushed and has yet to signal.
  ghost predicate OwesSignal(p: Submitter) { p.Adding? || p.Releasing? || p.Signalling? }

  // Queued work always has a worker that is up or a signal to come.
  ghost predicate WakeInv(s: State) {
    && |s.workers| > 0
    && (s.queue != [] ==>
          (exists i :: 0 <= i < |s.workers| && !s.workers[i].Asleep?)
            || (exists j :: 0 <= j < |s.subs| && OwesSignal(s.subs[j])))
  }

  ghost predicate Inv(s: State) {
    LockInv(s) && QueueInv(s) && RunInv(s) && PendingInv(s) && WaitInv(s) && DownInv(s) && WakeInv(s)
  }

  lemma {:induction false} BusySet(ws: seq<Worker>, i: int, w: Worker)
    requires 0 <= i < |ws|
    ensures Busy(ws[i := w]) ==
      Busy(ws) - (if ws[i].Running? || ws[i].Ran? then 1 else 0) + if w.Running? || w.Ran? then 1 else 0
  {
    var n := |ws| - 1;
    if i == n {
      assert ws[i := w][..n] == ws[..n];
    } else {
      BusySet(ws[..n], i, w);
      assert ws[i := w][..n] == ws[..n][i := w];
    }
  }

  lemma {:induction false} AddsSet(ss: seq<Submitter>, i: int, w: Submitter)
    requires 0 <= i < |ss|
    ensures Adds(ss[i := w]) == Adds(ss) - (if ss[i].Adding? then 1 else 0) + if w.Adding? then 1 else 0
  {
    var n := |ss| - 1;
    if i == n {
      assert ss[i := w][..n] == ss[..n];
    } else {
      AddsSet(ss[..n], i, w);
      assert ss[i := w][..n] == ss[..n][i := w];
    }
  }

  lemma {:induction false} NoneBusy(ws: seq<Worker>)
    requires Busy(ws) == 0
    ensures forall i :: 0 <= i < |ws| ==> !ws[i].Running? && !ws[i].Ran?
  {
    if ws != [] { NoneBusy(ws[..|ws| - 1]); }
  }

  lemma {:induction false} NoneAdding(ss: seq<Submitter>)
    requires forall j :: 0 <= j < |ss| ==> !ss[j].Adding?
    ensures Adds(ss) == 0
  {
    if ss != [] { NoneAdding(ss[..|ss| - 1]); }
  }

  lemma {:induction false} BusyRouse(ws: seq<Worker>)
    ensures Busy(Rouse(ws)) == Busy(ws)
  {
    if ws != [] { BusyRouse(ws[..|ws| - 1]); assert Rouse(ws)[..|ws| - 1] == Rouse(ws[..|ws| - 1]); }
  }

  lemma LockWorker(s: State, i: int)
    requires LockInv(s) && Enabled(s, StepWorker(i))
    ensures LockInv(DoWorker(s, i))
  {
    hide LockW, LockS, LockI;
    LockWorkerW(s, i);
    LockWorkerRest(s, i);
  }

  lemma LockWorkerW(s: State, i: int)
    requires LockInv(s) && Enabled(s, StepWorker(i))
    ensures LockW(DoWorker(s, i)) && Bounded(DoWorker(s, i))
  {
    hide LockS, LockI;
  }

  lemma LockWorkerRest(s: State, i: int)
    requires LockInv(s) && Enabled(s, StepWorker(i))
    ensures LockS(DoWorker(s, i)) && LockI(DoWorker(s, i))
  {}

  lemma LockSubmitter(s: State, j: int, wake: int)
    requires LockInv(s) && Enabled(s, StepSubmitter(j, wake))
    ensures LockInv(DoSubmitter(s, j, wake))
  {
    hide LockW, LockS, LockI;
    LockSubmitterW(s, j, wake);
    LockSubmitterS(s, j, wake);
    LockSubmitterI(s, j, wake);
  }

  lemma LockSubmitterW(s: State, j: int, wake: int)
    requires LockInv(s) && Enabled(s, StepSubmitter(j, wake))
    ensures LockW(DoSubmitter(s, j, wake))
  {
    hide LockI;
  }

  lemma LockSubmitterS(s: State, j: int, wake: int)
    requires LockInv(s) && Enabled(s, StepSubmitter(j, wake))
    ensures LockS(DoSubmitter(s, j, wake)) && Bounded(DoSubmitter(s, j, wake))
  {
    hide LockW, LockI;
  }

  lemma LockSubmitterI(s: State, j: int, wake: int)
    requires LockInv(s) && Enabled(s, StepSubmitter(j, wake))
    ensures LockI(DoSubmitter(s, j, wake))
  {
    hide LockW;
  }

  lemma LockWaiter(s: State, k: int)
    requires LockInv(s) && Enabled(s, StepWaiter(k))
    ensures LockInv(DoWaiter(s, k))
  {}

  lemma LockKept(s: State, a: Action)
    requires LockInv(s) && Enabled(s, a)
    ensures LockInv(Do(s, a))
  {
    hide DoWorker, DoSubmitter, DoWaiter;
    match a
    case StepWorker(i) => LockWorker(s, i);
    case StepSubmitter(j, wake) => LockSubmitter(s, j, wake);
    case StepWaiter(k) => LockWaiter(s, k);
    case Shutdown =>
    case Broadcast =>
  }

  lemma QueueWorker(s: State, i: int)
    requires LockInv(s) && QueueInv(s) && Enabled(s, StepWorker(i))
    ensures QueueInv(DoWorker(s, i))
  {
    hide AllDecided, LockInv;
    DecidedWorker(s, i);
  }

  // Nobody else is inside a critical section while worker i is.
  lemma DecidedWorker(s: State, i: int)
    requires LockInv(s) && AllDecided(s) && Enabled(s, StepWorker(i))
    ensures AllDecided(DoWorker(s, i))
  {
    hide LockS, LockI;
    var s' := DoWorker(s, i);
    forall x | 0 <= x < |s.workers| ensures Decided(s'.workers[x], s'.queue != [], s'.shutdown) { DecidedOne(s, i, x); }
  }

  lemma DecidedOne(s: State, i: int, x: int)
    requires LockW(s) && AllDecided(s) && Enabled(s, StepWorker(i)) && 0 <= x < |s.workers|
    ensures Decided(DoWorker(s, i).workers[x], DoWorker(s, i).queue != [], DoWorker(s, i).shutdown)
  {
    assert Decided(s.workers[x], s.queue != [], s.shutdown);
    if x != i && HoldsW(s.workers[i]) { assert !HoldsW(s.workers[x]); }
  }

  lemma QueueSubmitter(s: State, j: int, wake: int)
    requires LockInv(s) && QueueInv(s) && Enabled(s, StepSubmitter(j, wake))
    ensures QueueInv(DoSubmitter(s, j, wake))
  {}

  lemma QueueWaiter(s: State, k: int)
    requires LockInv(s) && QueueInv(s) && Enabled(s, StepWaiter(k))
    ensures QueueInv(DoWaiter(s, k))
  {}

  lemma QueueKept(s: State, a: Action)
    requires LockInv(s) && QueueInv(s) && Enabled(s, a)
    ensures QueueInv(Do(s, a))
  {
    hide DoWorker, DoSubmitter, DoWaiter;
    match a
    case StepWorker(i) => QueueWorker(s, i);
    case StepSubmitter(j, wake) => QueueSubmitter(s, j, wake);
    case StepWaiter(k) => QueueWaiter(s, k);
    case Shutdown =>
    case Broadcast =>
  }

  lemma PendingWorker(s: State, i: int)
    requires PendingInv(s) && Enabled(s, StepWorker(i))
    ensures PendingInv(DoWorker(s, i))
  {
    hide Busy, Adds, PendingInv;
    PendingMoved(s, DoWorker(s, i), i);
  }

  ghost function Carries(w: Worker): int { if w.Running? || w.Ran? then 1 else 0 }

  // Only worker i moved, and pending follows what it carries.
  lemma PendingMoved(s: State, s': State, i: int)
    requires PendingInv(s) && 0 <= i < |s.workers| == |s'.workers| && s'.workers == s.workers[i := s'.workers[i]]
    requires s'.subs == s.subs
    requires s'.pending - |s'.queue| - s.pending + |s.queue| == Carries(s'.workers[i]) - Carries(s.workers[i])
    ensures PendingInv(s')
  {
    BusySet(s.workers, i, s'.workers[i]);
  }

  lemma PendingSubmitter(s: State, j: int, wake: int)
    requires PendingInv(s) && Enabled(s, StepSubmitter(j, wake))
    ensures PendingInv(DoSubmitter(s, j, wake))
  {
    hide Busy, Adds;
    AddsSet(s.subs, j, DoSubmitter(s, j, wake).subs[j]);
    if Sleeps(s, wake) { BusySet(s.workers, wake, Woken); }
  }

  lemma PendingWaiter(s: State, k: int)
    requires PendingInv(s) && Enabled(s, StepWaiter(k))
    ensures PendingInv(DoWaiter(s, k))
  {}

  lemma PendingKept(s: State, a: Action)
    requires PendingInv(s) && Enabled(s, a)
    ensures PendingInv(Do(s, a))
  {
    hide DoWorker, DoSubmitter, DoWaiter;
    match a
    case StepWorker(i) => PendingWorker(s, i);
    case StepSubmitter(j, wake) => PendingSubmitter(s, j, wake);
    case StepWaiter(k) => PendingWaiter(s, k);
    case Shutdown =>
    case Broadcast => BusyRouse(s.workers);
  }

  lemma DownKept(s: State, a: Action)
    requires DownInv(s) && QueueInv(s) && Enabled(s, a)
    ensures DownInv(Do(s, a))
  {
    hide InOrder, DoWaiter;
    if a.StepWorker? { DownWorker(s, a.i); } else if a.StepWaiter? { OnlyWaiter(s, a.k); }
  }

  lemma DownWorker(s: State, i: int)
    requires DownInv(s) && QueueInv(s) && Enabled(s, StepWorker(i))
    ensures DownInv(DoWorker(s, i))
  {
    hide InOrder;
    assert Decided(s.workers[i], s.queue != [], s.shutdown);
  }

  // A waiter's step touches neither workers, submitters nor the queue.
  lemma OnlyWaiter(s: State, k: int)
    requires 0 <= k < |s.waiters|
    ensures var s' := DoWaiter(s, k);
      s'.workers == s.workers && s'.subs == s.subs && s'.queue == s.queue && s'.shutdown == s.shutdown
  {}

  // Setting a worker's position to one that runs nothing keeps who runs what, unless it was running.
  lemma RunsSet(ws: seq<Worker>, i: int, w: Worker, t: int)
    requires 0 <= i < |ws| && Runs(ws, t) && ws[i] != Running(t)
    ensures Runs(ws[i := w], t)
  {
    var j :| 0 <= j < |ws| && ws[j] == Running(t);
    assert ws[i := w][j] == Running(t);
  }

  // RunInv speaks only of the workers' tasks, popped and finished.
  lemma RunSame(s: State, s': State)
    requires RunInv(s) && s'.popped == s.popped && s'.finished == s.finished && |s'.workers| == |s.workers|
    requires forall i :: 0 <= i < |s.workers| ==>
      s'.workers[i] == s.workers[i] || (!s.workers[i].Running? && !s'.workers[i].Running?)
    ensures RunInv(s')
  {
    forall t | 0 <= t < s'.popped && t !in s'.finished ensures Runs(s'.workers, t) {
      assert Runs(s.workers, t);
      var i :| 0 <= i < |s.workers| && s.workers[i] == Running(t);
      assert s'.workers[i] == Running(t);
    }
  }

  lemma RunPopped(s: State, i: int)
    requires RunInv(s) && QueueInv(s) && 0 <= i < |s.workers| && s.workers[i].Popping? && s.queue != []
    ensures RunInv(DoWorker(s, i))
  {
    var s' := DoWorker(s, i);
    assert s'.workers[i] == Running(s.popped);
    forall t | 0 <= t < s'.popped && t !in s'.finished ensures Runs(s'.workers, t) {
      if t < s.popped { assert Runs(s.workers, t); RunsSet(s.workers, i, s'.workers[i], t); }
    }
  }

  lemma RunFinished(s: State, i: int)
    requires RunInv(s) && 0 <= i < |s.workers| && s.workers[i].Running?
    ensures RunInv(DoWorker(s, i))
  {
    var s', id := DoWorker(s, i), s.workers[i].id;
    forall t | 0 <= t < s'.popped && t !in s'.finished ensures Runs(s'.workers, t) {
      assert t != id && t !in s.finished by { assert s'.finished[|s.finished|] == id; }
      assert Runs(s.workers, t);
      RunsSet(s.workers, i, Ran, t);
    }
  }

  lemma RunKept(s: State, a: Action)
    requires RunInv(s) && QueueInv(s) && Enabled(s, a)
    ensures RunInv(Do(s, a))
  {
    hide RunInv;
    if a.StepWorker? && s.workers[a.i].Running? { RunFinished(s, a.i); }
    else if a.StepWorker? && s.workers[a.i].Popping? && s.queue != [] { RunPopped(s, a.i); }
    else { RunSame(s, Do(s, a)); }
  }

  // Reading pending as zero under the lock: everything pushed is finished.
  lemma IdleMeansDone(s: State)
    requires LockInv(s) && QueueInv(s) && RunInv(s) && PendingInv(s) && s.lock.ByWaiter? && s.pending <= 0
    ensures AllDone(s, s.pushed)
  {
    NoneAdding(s.subs);
    NoneBusy(s.workers);
    forall t | 0 <= t < s.pushed ensures t in s.finished { assert t !in s.finished ==> Runs(s.workers, t); }
  }

  // What was true of a waiter stays true as more is pushed and finished.
  lemma WaitOneGrows(s: State, s': State, w: Waiter)
    requires WaitOne(s, w) && s.pushed <= s'.pushed && s.finished <= s'.finished
    ensures WaitOne(s', w)
  {
    forall t | t in s.finished
      ensures t in s'.finished
    {
      var n :| 0 <= n < |s.finished| && s.finished[n] == t;
      assert s'.finished[n] == t;
    }
  }

  lemma WaitStirred(s: State, a: Action)
    requires WaitInv(s) && Enabled(s, a) && !a.StepWaiter?
    ensures WaitInv(Do(s, a))
  {
    var s' := Do(s, a);
    Stirred(s, a);
    PushedGrows(s, a);
    hide Do, WaitOne;
    forall k | 0 <= k < |s.waiters| ensures WaitOne(s', s'.waiters[k]) {
      WaitOneGrows(s, s', s.waiters[k]);
      if s.waiters[k].Dozing? { WaitOneWakes(s', s.waiters[k].seen); }
    }
  }

  lemma WaitOneWakes(s: State, seen: int)
    requires WaitOne(s, Dozing(seen))
    ensures WaitOne(s, Wanting(seen))
  {}

  lemma Stirred(s: State, a: Action)
    requires Enabled(s, a) && !a.StepWaiter?
    ensures |Do(s, a).waiters| == |s.waiters|
    ensures forall k :: 0 <= k < |s.waiters| ==>
      Do(s, a).waiters[k] == s.waiters[k] || (s.waiters[k].Dozing? && Do(s, a).waiters[k] == Wanting(s.waiters[k].seen))
  {}

  lemma WaitMoved(s: State, k: int)
    requires LockInv(s) && QueueInv(s) && RunInv(s) && PendingInv(s) && WaitInv(s) && 0 <= k < |s.waiters|
    ensures WaitInv(DoWaiter(s, k))
  {
    hide LockI, LockS, LockW, RunInv, PendingInv, QueueInv;
    assert WaitOne(s, s.waiters[k]);
    if s.waiters[k].Testing? && s.pending <= 0 { TesterHolds(s, k); IdleMeansDone(s); }
    var s' := DoWaiter(s, k);
    assert s'.pushed == s.pushed && s'.finished == s.finished && WaitOne(s', s'.waiters[k]);
    forall x | 0 <= x < |s.waiters|
      ensures WaitOne(s', s'.waiters[x])
    {
      if x != k { WaitOneGrows(s, s', s.waiters[x]); }
    }
  }

  lemma TesterHolds(s: State, k: int)
    requires LockI(s) && 0 <= k < |s.waiters| && s.waiters[k].Testing?
    ensures s.lock == ByWaiter(k)
  {}

  lemma WaitKept(s: State, a: Action)
    requires LockInv(s) && QueueInv(s) && RunInv(s) && PendingInv(s) && WaitInv(s) && Enabled(s, a)
    ensures WaitInv(Do(s, a))
  {
    hide LockInv, RunInv, PendingInv, QueueInv, WaitInv, DoWaiter;
    if a.StepWaiter? { WaitMoved(s, a.k); } else { WaitStirred(s, a); }
  }

  lemma PushedGrows(s: State, a: Action)
    requires Enabled(s, a)
    ensures s.pushed <= Do(s, a).pushed && s.popped <= Do(s, a).popped && (s.shutdown ==> Do(s, a).shutdown)
    ensures s.finished <= Do(s, a).finished
  {}

  lemma WakeWorker(s: State, i: int)
    requires WakeInv(s) && QueueInv(s) && Enabled(s, StepWorker(i))
    ensures WakeInv(DoWorker(s, i))
  {
    var s' := DoWorker(s, i);
    if s'.queue != [] { assert !s'.workers[i].Asleep?; }
  }

  lemma WakeSubmitter(s: State, j: int, wake: int)
    requires WakeInv(s) && Enabled(s, StepSubmitter(j, wake))
    ensures WakeInv(DoSubmitter(s, j, wake))
  {
    var s' := DoSubmitter(s, j, wake);
    if s.subs[j].Signalling? { assert !s'.workers[if Sleeps(s, wake) then wake else 0].Asleep?; }
    else if !OwesSignal(s'.subs[j]) && s.queue != [] { WakeSame(s, s'); }
  }

  lemma WakeWaiter(s: State, k: int)
    requires WakeInv(s) && Enabled(s, StepWaiter(k))
    ensures WakeInv(DoWaiter(s, k))
  {}

  lemma WakeKept(s: State, a: Action)
    requires WakeInv(s) && QueueInv(s) && Enabled(s, a)
    ensures WakeInv(Do(s, a))
  {
    hide DoWorker, DoSubmitter, DoWaiter;
    match a
    case StepWorker(i) => WakeWorker(s, i);
    case StepSubmitter(j, wake) => WakeSubmitter(s, j, wake);
    case StepWaiter(k) => WakeWaiter(s, k);
    case Shutdown =>
    case Broadcast => assert !Do(s, a).workers[0].Asleep?;
  }

  lemma WakeSame(s: State, s': State)
    requires WakeInv(s) && s.queue != [] && s'.workers == s.workers && |s'.subs| == |s.subs|
    requires forall j :: 0 <= j < |s.subs| && OwesSignal(s.subs[j]) ==> s'.subs[j] == s.subs[j]
    ensures WakeInv(s')
  {
    if j :| 0 <= j < |s.subs| && OwesSignal(s.subs[j]) { assert OwesSignal(s'.subs[j]); }
  }

  lemma StepInv(s: State, a: Action)
    requires Inv(s) && Enabled(s, a)
    ensures Inv(Do(s, a))
  {
    hide LockInv, QueueInv, RunInv, PendingInv, WaitInv, DownInv, WakeInv, Enabled, Do;
    LockKept(s, a); QueueKept(s, a); RunKept(s, a); PendingKept(s, a); WaitKept(s, a); DownKept(s, a); WakeKept(s, a);
  }

  // ----- every interleaving -----

  ghost predicate Feasible(s: State, run: seq<Action>)
    decreases |run|
  {
    run == [] || (Enabled(s, run[0]) && Feasible(Do(s, run[0]), run[1..]))
  }

  ghost function After(s: State, run: seq<Action>): State
    requires Feasible(s, run)
    decreases |run|
  { if run == [] then s else After(Do(s, run[0]), run[1..]) }

  // s comes about in some interleaving of a pool with at least one worker.
  ghost predicate Reachable(s: State) {
    exists n: nat, m: nat, w: nat, run :: n >= 1 && Feasible(Init(n, m, w), run) && s == After(Init(n, m, w), run)
  }

  lemma {:induction false} InvAfter(s: State, run: seq<Action>)
    requires Inv(s) && Feasible(s, run)
    ensures Inv(After(s, run))
    decreases |run|
  {
    hide Inv, Enabled, Do;
    if run != [] { StepInv(s, run[0]); InvAfter(Do(s, run[0]), run[1..]); }
  }

  lemma {:induction false} NoneRunning(ws: seq<Worker>)
    requires forall i :: 0 <= i < |ws| ==> ws[i].Top?
    ensures Busy(ws) == 0
  {
    if ws != [] { NoneRunning(ws[..|ws| - 1]); }
  }

  lemma InitInv(n: nat, m: nat, w: nat)
    requires n >= 1
    ensures Inv(Init(n, m, w))
  {
    NoneRunning(Init(n, m, w).workers);
    NoneAdding(Init(n, m, w).subs);
  }

  lemma ReachableInv(s: State)
    requires Reachable(s)
    ensures Inv(s)
  {
    hide Inv, Feasible, After, Init;
    var n: nat, m: nat, w: nat, run :| n >= 1 && Feasible(Init(n, m, w), run) && s == After(Init(n, m, w), run);
    InitInv(n, m, w);
    InvAfter(Init(n, m, w), run);
  }

  // ----- submit calls -----

  // How many submit calls begin in a run.
  ghost function Calls(s: State, run: seq<Action>): (n: nat)
    requires Feasible(s, run)
    decreases |run|
  {
    if run == [] then 0 else
      var first := run[0].StepSubmitter? && s.subs[run[0].j].Idle?;
      (if first then 1 else 0) + Calls(Do(s, run[0]), run[1..])
  }

  // Submitters whose call has begun and whose task is not in the queue yet.
  ghost function Entering(ss: seq<Submitter>): (n: nat) {
    if ss == [] then 0 else
      Entering(ss[..|ss| - 1]) + if ss[|ss| - 1].Admitted? || ss[|ss| - 1].Pushing? then 1 else 0
  }

  lemma {:induction false} EnteringSet(ss: seq<Submitter>, i: int, w: Submitter)
    requires 0 <= i < |ss|
    ensures Entering(ss[i := w]) ==
      Entering(ss) - (if ss[i].Admitted? || ss[i].Pushing? then 1 else 0) + if w.Admitted? || w.Pushing? then 1 else 0
  {
    var n := |ss| - 1;
    if i == n {
      assert ss[i := w][..n] == ss[..n];
    } else {
      EnteringSet(ss[..n], i, w);
      assert ss[i := w][..n] == ss[..n][i := w];
    }
  }

  lemma {:induction false} NoneEntering(ss: seq<Submitter>)
    requires forall j :: 0 <= j < |ss| ==> ss[j].Idle?
    ensures Entering(ss) == 0
  {
    if ss != [] { NoneEntering(ss[..|ss| - 1]); }
  }

  lemma StepCalls(s: State, a: Action)
    requires Enabled(s, a)
    ensures Do(s, a).pushed + Entering(Do(s, a).subs) ==
      s.pushed + Entering(s.subs) + if a.StepSubmitter? && s.subs[a.j].Idle? then 1 else 0
  {
    hide Entering;
    if a.StepSubmitter? { EnteringSet(s.subs, a.j, Do(s, a).subs[a.j]); }
  }

  // Every submit call that has begun has pushed its task or is about to.
  lemma {:induction false} CallsCounted(s: State, run: seq<Action>)
    requires Feasible(s, run)
    ensures After(s, run).pushed + Entering(After(s, run).subs) == s.pushed + Entering(s.subs) + Calls(s, run)
    decreases |run|
  {
    hide Enabled, Do, Entering;
    if run != [] { StepCalls(s, run[0]); CallsCounted(Do(s, run[0]), run[1..]); }
  }

  // In every interleaving, each submit call queues exactly one task.
  lemma EverySubmitQueues(n: nat, m: nat, w: nat, run: seq<Action>)
    requires Feasible(Init(n, m, w), run)
    ensures var s := After(Init(n, m, w), run); s.pushed + Entering(s.subs) == Calls(Init(n, m, w), run)
  {
    NoneEntering(Init(n, m, w).subs);
    CallsCounted(Init(n, m, w), run);
  }

  // Once every worker has left, as many tasks have finished, each once, as submit calls were made.
  lemma EverySubmitRuns(n: nat, m: nat, w: nat, run: seq<Action>)
    requires n >= 1 && Feasible(Init(n, m, w), run)
    requires forall i :: 0 <= i < |After(Init(n, m, w), run).workers| ==> After(Init(n, m, w), run).workers[i].Exited?
    ensures var s := After(Init(n, m, w), run);
      |s.finished| == Calls(Init(n, m, w), run) && forall t :: 0 <= t < |s.finished| ==> t in s.finished
  {
    hide Feasible, After, Calls;
    var s := After(Init(n, m, w), run);
    assert Reachable(s);
    ExitClean(s);
    EverySubmitQueues(n, m, w, run);
    ReachableInv(s);
    NoneEntering(s.subs) by { assert s.workers[0].Exited?; }
  }

  // ----- the theorems -----

  // Whenever the queue lock is free, pending counts the queued tasks and those popped but not counted off.
  lemma PendingExact(s: State)
    requires Reachable(s) && s.lock.Open?
    ensures s.pending == |s.queue| + Busy(s.workers)
  {
    ReachableInv(s);
    NoneAdding(s.subs);
  }

  // wait_idle returns only after every task pushed before the call has finished.
  lemma WaitIdleSound(s: State, k: int)
    requires Reachable(s) && 0 <= k < |s.waiters| && s.waiters[k].Returned?
    ensures AllDone(s, s.waiters[k].seen)
  {
    ReachableInv(s);
  }

  // Waiter k begins no further call in the run.
  ghost predicate SameCall(s: State, run: seq<Action>, k: int)
    requires Feasible(s, run)
    decreases |run|
  {
    run == [] || (!(run[0] == StepWaiter(k) && s.waiters[k].Returned?) && SameCall(Do(s, run[0]), run[1..], k))
  }

  ghost predicate Called(s: State, k: int, seen: int) {
    0 <= k < |s.waiters| && !s.waiters[k].Away? && s.waiters[k].seen == seen
  }

  lemma CalledStep(s: State, a: Action, k: int, seen: int)
    requires Enabled(s, a) && Called(s, k, seen) && !(a == StepWaiter(k) && s.waiters[k].Returned?)
    ensures Called(Do(s, a), k, seen)
  {
    if !a.StepWaiter? { Stirred(s, a); }
  }

  lemma {:induction false} CalledKept(s: State, run: seq<Action>, k: int, seen: int)
    requires Feasible(s, run) && SameCall(s, run, k) && Called(s, k, seen)
    ensures Called(After(s, run), k, seen)
    decreases |run|
  {
    hide Enabled, Do, Called;
    if run != [] { CalledStep(s, run[0], k, seen); CalledKept(Do(s, run[0]), run[1..], k, seen); }
  }

  lemma {:induction false} AfterMore(s: State, run: seq<Action>, more: seq<Action>)
    requires Feasible(s, run) && Feasible(After(s, run), more)
    ensures Feasible(s, run + more) && After(s, run + more) == After(After(s, run), more)
    decreases |run|
  {
    hide Enabled, Do;
    if run == [] { assert run + more == more; } else {
      AfterMore(Do(s, run[0]), run[1..], more);
      assert (run + more)[1..] == run[1..] + more;
    }
  }

  // A call of wait_idle that begins in a reachable state s and has returned at the end of a run from there: every task
  // pushed by then has finished, whatever else happened meanwhile.
  lemma WaitIdleCovers(n: nat, m: nat, w: nat, before: seq<Action>, run: seq<Action>, k: int)
    requires n >= 1 && Feasible(Init(n, m, w), before)
    requires var s := After(Init(n, m, w), before);
      && 0 <= k < |s.waiters| && (s.waiters[k].Away? || s.waiters[k].Returned?)
      && Feasible(Do(s, StepWaiter(k)), run) && SameCall(Do(s, StepWaiter(k)), run, k)
      && var e := After(Do(s, StepWaiter(k)), run); k < |e.waiters| && e.waiters[k].Returned?
    ensures var s := After(Init(n, m, w), before);
      forall t :: 0 <= t < s.pushed ==> t in After(Do(s, StepWaiter(k)), run).finished
  {
    hide Feasible, After, SameCall;
    var s, a := After(Init(n, m, w), before), StepWaiter(k);
    var s1 := Do(s, a);
    var e := After(s1, run);
    CalledKept(s1, run, k, s.pushed);
    OneStep(s, a);
    AfterMore(Init(n, m, w), before, [a]);
    AfterMore(Init(n, m, w), before + [a], run);
    assert Reachable(e);
    WaitIdleSound(e, k);
  }

  lemma OneStep(s: State, a: Action)
    requires Enabled(s, a)
    ensures Feasible(s, [a]) && After(s, [a]) == Do(s, a)
  {
    assert [a][1..] == [];
    assert Feasible(Do(s, a), []);
  }

  // One thread alone gets from s to s' by n steps.
  ghost predicate Gets(s: State, a: Action, n: nat, s': State)
    decreases n
  {
    if n == 0 then s' == s else Enabled(s, a) && Gets(Do(s, a), a, n - 1, s')
  }

  // With the lock free and nothing pending, a caller of wait_idle gets through by its own steps alone; otherwise it
  // goes to sleep, and its timeout makes it look again.
  lemma WaitIdleReturns(s: State, k: int)
    requires s.lock.Open? && 0 <= k < |s.waiters| && s.waiters[k].Wanting?
    ensures var seen := s.waiters[k].seen;
      Gets(s, StepWaiter(k), 3, SetI(s, k, if s.pending > 0 then Dozing(seen) else Returned(seen)))
    ensures Gets(SetI(s, k, Dozing(s.waiters[k].seen)), StepWaiter(k), 1, s)
  {
    hide Gets;
    var a, seen := StepWaiter(k), s.waiters[k].seen;
    WaiterTests(s, k);
    StepGets(s, a);
    StepGets(Do(s, a), a);
    StepGets(Do(Do(s, a), a), a);
    GetsJoin(s, a, 1, Do(s, a), 1, Do(Do(s, a), a));
    GetsJoin(s, a, 2, Do(Do(s, a), a), 1, Do(Do(Do(s, a), a), a));
    StepGets(SetI(s, k, Dozing(seen)), a);
  }

  lemma WaiterTests(s: State, k: int)
    requires s.lock.Open? && 0 <= k < |s.waiters| && s.waiters[k].Wanting?
    ensures var a, seen := StepWaiter(k), s.waiters[k].seen;
      && Enabled(s, a) && Enabled(Do(s, a), a) && Enabled(Do(Do(s, a), a), a)
      && Do(Do(Do(s, a), a), a) == SetI(s, k, if s.pending > 0 then Dozing(seen) else Returned(seen))
      && Enabled(SetI(s, k, Dozing(seen)), a) && Do(SetI(s, k, Dozing(seen)), a) == s
  {
    hide DoWorker, DoSubmitter, Stir, Rouse;
  }

  lemma StepGets(s: State, a: Action)
    requires Enabled(s, a)
    ensures Gets(s, a, 1, Do(s, a))
  {
    hide Enabled, Do;
    assert Gets(Do(s, a), a, 0, Do(s, a));
  }

  // A call of wait_idle remembers what has been pushed and goes for the lock.
  lemma WaitIdleCalls(s: State, k: int)
    requires s.lock.Open? && 0 <= k < |s.waiters| && (s.waiters[k].Away? || s.waiters[k].Returned?)
    ensures Gets(s, StepWaiter(k), 4, SetI(s, k, if s.pending > 0 then Dozing(s.pushed) else Returned(s.pushed)))
  {
    hide Gets, DoWorker, DoSubmitter, Stir, Rouse;
    var s1, a := Do(s, StepWaiter(k)), StepWaiter(k);
    StepGets(s, a);
    WaitIdleReturns(s1, k);
    var s2 := SetI(s1, k, if s.pending > 0 then Dozing(s.pushed) else Returned(s.pushed));
    assert s2.waiters == s.waiters[k := s2.waiters[k]];
    GetsJoin(s, a, 1, s1, 3, s2);
  }

  // Destroy turns the flag on and changes nothing else; from then on, in every interleaving, no call of submit gets in
  // and no task is pushed.
  lemma DestroyCloses(s: State, run: seq<Action>)
    requires forall j :: 0 <= j < |s.subs| ==> s.subs[j].Idle?
    ensures Enabled(s, Shutdown) && Do(s, Shutdown) == s.(shutdown := true)
    ensures var s1 := Do(s, Shutdown); Feasible(s1, run) ==>
      After(s1, run).shutdown && Calls(s1, run) == 0 && After(s1, run).pushed == s.pushed
  {
    var s1 := Do(s, Shutdown);
    if Feasible(s1, run) { ClosedStays(s1, run); }
  }

  lemma {:induction false} ClosedStays(s: State, run: seq<Action>)
    requires s.shutdown && (forall j :: 0 <= j < |s.subs| ==> s.subs[j].Idle?) && Feasible(s, run)
    ensures var s' := After(s, run);
      s'.shutdown && Calls(s, run) == 0 && s'.pushed == s.pushed && forall j :: 0 <= j < |s'.subs| ==> s'.subs[j].Idle?
    decreases |run|
  {
    if run != [] {
      var s1 := Do(s, run[0]);
      assert s1.shutdown && s1.subs == s.subs && s1.pushed == s.pushed;
      ClosedStays(s1, run[1..]);
    }
  }

  // What a worker does alone with the lock free: it takes the first task if there is one; without work it leaves after
  // shutdown and goes to sleep before.
  lemma WorkerAlone(s: State, i: int)
    requires s.lock.Open? && 0 <= i < |s.workers| && (s.workers[i].Top? || s.workers[i].Woken?)
    ensures s.queue != [] ==>
      Gets(s, StepWorker(i), 4, SetW(s, i, Running(s.queue[0])).(queue := s.queue[1..], popped := s.popped + 1))
    ensures s.queue == [] && s.shutdown ==> Gets(s, StepWorker(i), 4, SetW(s, i, Exited))
    ensures s.queue == [] && !s.shutdown ==> Gets(s, StepWorker(i), 3, SetW(s, i, Asleep))
  {
    hide Gets, Do, Enabled;
    WorkerDecides(s, i);
    if s.queue != [] || s.shutdown {
      var s2 := SetW(s, i, Decide).(lock := ByWorker(i));
      WorkerEnds(s2, i);
      if s.queue == [] {
        assert SetW(s2, i, Exited).(lock := Open) == SetW(s, i, Exited);
        GetsJoin(s, StepWorker(i), 2, s2, 2, SetW(s, i, Exited));
      } else {
        var s4 := SetW(s, i, Running(s.queue[0])).(queue := s.queue[1..], popped := s.popped + 1);
        assert s4.workers == s2.workers[i := Running(s.queue[0])];
        GetsJoin(s, StepWorker(i), 2, s2, 2, s4);
      }
    }
  }

  lemma WorkerDecides(s: State, i: int)
    requires s.lock.Open? && 0 <= i < |s.workers| && (s.workers[i].Top? || s.workers[i].Woken?)
    ensures s.queue != [] || s.shutdown ==> Gets(s, StepWorker(i), 2, SetW(s, i, Decide).(lock := ByWorker(i)))
    ensures s.queue == [] && !s.shutdown ==> Gets(s, StepWorker(i), 3, SetW(s, i, Asleep))
  {
    var a := StepWorker(i);
    var s1 := Do(s, a);
    var s2 := Do(s1, a);
    assert s2.workers == s.workers[i := s2.workers[i]];
    assert Gets(s2, a, 0, s2) && Gets(s1, a, 1, s2);
    if s.queue == [] && !s.shutdown {
      var s3 := Do(s2, a);
      assert s3.workers == s.workers[i := s3.workers[i]];
      assert Gets(s3, a, 0, s3) && Gets(s2, a, 1, s3) && Gets(s1, a, 2, s3);
    }
  }

  lemma WorkerEnds(s: State, i: int)
    requires 0 <= i < |s.workers| && s.workers[i].Decide? && (s.queue != [] || s.shutdown)
    ensures s.queue == [] ==> Gets(s, StepWorker(i), 2, SetW(s, i, Exited).(lock := Open))
    ensures s.queue != [] ==> Gets(s, StepWorker(i), 2,
      SetW(s, i, Running(s.queue[0])).(lock := Open, queue := s.queue[1..], popped := s.popped + 1))
  {
    var a := StepWorker(i);
    var s1 := Do(s, a);
    var s2 := Do(s1, a);
    assert s2.workers == s.workers[i := s2.workers[i]];
    assert Gets(s2, a, 0, s2) && Gets(s1, a, 1, s2);
  }

  lemma {:induction false} GetsJoin(s: State, a: Action, n: nat, s1: State, n1: nat, s2: State)
    requires Gets(s, a, n, s1) && Gets(s1, a, n1, s2)
    ensures Gets(s, a, n + n1, s2)
    decreases n
  {
    hide Enabled, Do;
    if n > 0 { GetsJoin(Do(s, a), a, n - 1, s1, n1, s2); }
  }

  // What a submit call does alone with the lock free, up to its signal: refused after shutdown, and otherwise the task
  // is the last in the queue and counted as pending.
  lemma SubmitAlone(s: State, j: int, wake: int)
    requires s.lock.Open? && 0 <= j < |s.subs| && s.subs[j].Idle?
    ensures Enabled(s, StepSubmitter(j, wake)) <==> !s.shutdown
    ensures !s.shutdown ==> Gets(s, StepSubmitter(j, wake), 5,
      SetS(s, j, Signalling).(queue := s.queue + [s.pushed], pushed := s.pushed + 1, pending := s.pending + 1))
  {
    if !s.shutdown {
      var a := StepSubmitter(j, wake);
      var s1 := Do(s, a);
      var s2 := Do(s1, a);
      var s3 := Do(s2, a);
      var s4 := Do(s3, a);
      var s5 := Do(s4, a);
      assert s5.subs == s.subs[j := Signalling];
      assert Gets(s5, a, 0, s5) && Gets(s4, a, 1, s5) && Gets(s3, a, 2, s5) && Gets(s2, a, 3, s5) && Gets(s1, a, 4, s5);
    }
  }

  // However a sleeping worker is woken, by a signal, a broadcast or for no reason, it next goes for the lock and looks.
  lemma WokenLooks(s: State, i: int, j: int)
    requires 0 <= i < |s.workers| && s.workers[i].Asleep? && 0 <= j < |s.subs| && s.subs[j].Signalling?
    ensures Locks(DoWorker(s, i), i)
    ensures Locks(DoSubmitter(s, j, i), i) && DoSubmitter(s, j, i).subs[j].Idle?
    ensures Locks(s.(workers := Rouse(s.workers)), i)
  {}

  ghost predicate Locks(s: State, i: int) {
    && 0 <= i < |s.workers| && DoWorker(s, i) == SetW(s, i, Check).(lock := ByWorker(i))
    && (Enabled(s, StepWorker(i)) <==> s.lock.Open?)
  }

  // What a worker does alone with a task: it runs it, counts it off, wakes every sleeping waiter exactly if nothing is
  // pending any more, and starts over.
  lemma TaskAlone(s: State, i: int)
    requires 0 <= i < |s.workers| && s.workers[i].Running?
    ensures var s' := SetW(s, i, Top).(finished := s.finished + [s.workers[i].id], pending := s.pending - 1);
      && (s.pending != 1 ==> Gets(s, StepWorker(i), 3, s'))
      && (s.pending == 1 ==> Gets(s, StepWorker(i), 4, s'.(waiters := Stir(s.waiters))))
  {
    var a := StepWorker(i);
    var s1 := Do(s, a);
    var s2 := Do(s1, a);
    var s3 := Do(s2, a);
    assert Gets(s3, a, 0, s3) && Gets(s2, a, 1, s3) && Gets(s1, a, 2, s3) && Gets(s, a, 3, s3);
    assert s3.workers == s.workers[i := s3.workers[i]];
    if s.pending == 1 {
      var s4 := Do(s3, a);
      assert s4.workers == s.workers[i := Top];
      assert Gets(s4, a, 0, s4) && Gets(s3, a, 1, s4);
      GetsJoin(s, a, 3, s3, 1, s4);
    }
  }

  // Waking the waiters leaves nobody asleep and changes nothing else about them.
  lemma StirWakes(ws: seq<Waiter>)
    ensures |Stir(ws)| == |ws| && forall k :: 0 <= k < |ws| ==>
      !Stir(ws)[k].Dozing? && (if ws[k].Dozing? then Stir(ws)[k] == Wanting(ws[k].seen) else Stir(ws)[k] == ws[k])
  {}

  // Pops hand out tasks in push order, never an empty queue's; no task function finishes twice.
  lemma FifoOnce(s: State, i: int)
    requires Reachable(s) && 0 <= i < |s.workers| && s.workers[i].Popping?
    ensures DoWorker(s, i).workers[i] == Running(s.popped) && DoWorker(s, i).popped == s.popped + 1
    ensures forall m, n :: 0 <= m < n < |s.finished| ==> s.finished[m] != s.finished[n]
    ensures forall j :: 0 <= j < |s.workers| && s.workers[j].Running? ==>
      s.workers[j].id != s.popped && s.workers[j].id !in s.finished
  {
    ReachableInv(s);
  }

  // Once every worker has left, every pushed task has finished exactly once.
  lemma ExitClean(s: State)
    requires Reachable(s) && forall i :: 0 <= i < |s.workers| ==> s.workers[i].Exited?
    ensures s.queue == [] && AllDone(s, s.pushed) && |s.finished| == s.pushed
  {
    ReachableInv(s);
    assert s.workers[0].Exited?;
    forall t | 0 <= t < s.pushed ensures t in s.finished { assert t !in s.finished ==> Runs(s.workers, t); }
    Onto(s.finished, s.pushed);
  }

  lemma {:induction false} Onto(t: seq<int>, n: int)
    requires n >= 0 && (forall x :: x in t <==> 0 <= x < n) && forall i, j :: 0 <= i < j < |t| ==> t[i] != t[j]
    ensures |t| == n
  {
    assert t == [] || t[0] in t;
    if n > 0 {
      assert n - 1 in t;
      var j :| 0 <= j < |t| && t[j] == n - 1;
      TakeOut(t, j);
      Onto(t[..j] + t[j + 1..], n - 1);
    }
  }

  lemma TakeOut(t: seq<int>, j: int)
    requires 0 <= j < |t| && forall i, k :: 0 <= i < k < |t| ==> t[i] != t[k]
    ensures var r := t[..j] + t[j + 1..]; forall x :: x in r <==> x in t && x != t[j]
    ensures var r := t[..j] + t[j + 1..]; forall i, k :: 0 <= i < k < |r| ==> r[i] != r[k]
  {
    var r := t[..j] + t[j + 1..];
    forall x | x in t && x != t[j]
      ensures x in r
    {
      var i :| 0 <= i < |t| && t[i] == x;
      assert r[if i < j then i else i - 1] == x;
    }
    forall x | x in r
      ensures x in t && x != t[j]
    {
      var i :| 0 <= i < |r| && r[i] == x;
      assert t[if i < j then i else i + 1] == x;
    }
  }

  // If every worker is asleep with work queued, some submitter has still to signal.
  lemma NoLostWakeUp(s: State)
    requires Reachable(s) && s.queue != [] && forall i :: 0 <= i < |s.workers| ==> s.workers[i].Asleep?
    ensures exists j :: 0 <= j < |s.subs| && OwesSignal(s.subs[j])
  {
    ReachableInv(s);
  }

  // Steps that come from outside: new calls, shutdown, timeouts and spurious wake-ups.
  ghost predicate External(s: State, a: Action)
    requires Enabled(s, a)
  {
    match a
    case StepWorker(i) => s.workers[i].Asleep?
    case StepSubmitter(j, _) => s.subs[j].Idle?
    case StepWaiter(k) => s.waiters[k].Away? || s.waiters[k].Returned? || s.waiters[k].Dozing?
    case Shutdown => true
    case Broadcast => true
  }

  // The thread that holds the lock can always go on.
  lemma HolderMoves(s: State) returns (a: Action)
    requires LockInv(s) && !s.lock.Open?
    ensures Enabled(s, a) && !External(s, a)
  {
    match s.lock
    case ByWorker(i) => a := StepWorker(i);
    case BySubmitter(j) => a := StepSubmitter(j, 0);
    case ByWaiter(k) => a := StepWaiter(k);
  }

  // While a pushed task is unfinished, some thread can step on its own.
  lemma NoDeadlock(s: State) returns (a: Action)
    requires Reachable(s) && |s.finished| < s.pushed
    ensures Enabled(s, a) && !External(s, a)
  {
    hide PendingInv, WaitInv, Reachable;
    ReachableInv(s);
    if !s.lock.Open? { a := HolderMoves(s); return; }
    if s.queue == [] {
      var t := Unfinished(s);
      assert Runs(s.workers, t);
      var i :| 0 <= i < |s.workers| && s.workers[i] == Running(t);
      a := StepWorker(i);
    } else if i :| 0 <= i < |s.workers| && !s.workers[i].Asleep? {
      a := StepWorker(i);
    } else {
      var j :| 0 <= j < |s.subs| && OwesSignal(s.subs[j]);
      a := SignalMoves(s, j);
    }
  }

  lemma SignalMoves(s: State, j: int) returns (a: Action)
    requires s.lock.Open? && LockInv(s) && 0 <= j < |s.subs| && OwesSignal(s.subs[j])
    ensures Enabled(s, a) && !External(s, a)
  {
    if i :| 0 <= i < |s.workers| && s.workers[i].Asleep? {
      a := StepSubmitter(j, i);
    } else {
      a := StepSubmitter(j, 0);
    }
  }

  lemma Unfinished(s: State) returns (t: int)
    requires RunInv(s) && QueueInv(s) && |s.finished| < s.pushed
    ensures 0 <= t < s.pushed && t !in s.finished
  {
    if x :| 0 <= x < s.pushed && x !in s.finished { t := x; } else { Onto(s.finished, s.pushed); }
  }

  // ----- the queue itself: a linked list with head and tail -----

  class Node {
    var task: int
    var next: Node?

    constructor (task: int)
      ensures this.task == task && next == null
    {
      this.task, next := task, null;
    }
  }

  class TaskQueue {
    var head: Node?
    var tail: Node?
    var count: int
    ghost var nodes: seq<Node>

    ghost predicate Valid()
      reads this, nodes
    {
      && count == |nodes|
      && (nodes == [] ==> head == null && tail == null)
      && (nodes != [] ==> head == nodes[0] && tail == nodes[|nodes| - 1])
      && (forall i, j :: 0 <= i < j < |nodes| ==> nodes[i] != nodes[j])
      && (forall i {:trigger nodes[i].next} :: 0 <= i < |nodes| - 1 ==> nodes[i].next == nodes[i + 1])
      && (nodes != [] ==> nodes[|nodes| - 1].next == null)
    }

    ghost function Tasks(): (r: seq<int>)
      reads this, nodes
      ensures |r| == |nodes|
    {
      seq(|nodes|, i requires 0 <= i < |nodes| reads this, nodes => nodes[i].task)
    }

    constructor ()
      ensures Valid() && Tasks() == []
    {
      head, tail, count, nodes := null, null, 0, [];
    }

    method Push(task: int)
      requires Valid()
      modifies this, nodes
      ensures Valid() && Tasks() == old(Tasks()) + [task] && (forall x :: x in nodes ==> x in old(nodes) || fresh(x))
    {
      var t := new Node(task);
      if tail != null { tail.next := t; } else { head := t; }
      tail := t;
      count := count + 1;
      nodes := nodes + [t];
    }

    method Pop() returns (t: Node?)
      requires Valid()
      modifies this
      ensures Valid() && (t == null <==> old(Tasks()) == [])
      ensures t == null ==> Tasks() == []
      ensures t != null ==> t.task == old(Tasks())[0] && Tasks() == old(Tasks())[1..] && t !in nodes
    {
      if head == null { return null; }
      t := head;
      ghost var ns := nodes;
      head := t.next;
      if head == null { tail := null; }
      count := count - 1;
      nodes := nodes[1..];
      assert forall i :: 0 <= i < |nodes| ==> nodes[i] == ns[i + 1];
    }
  }
}
