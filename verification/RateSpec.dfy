// Fixed-window counting for one key, and the table of windows for all keys.
module RateSpec {

  // A window opened at `start` that has seen `count` calls.
  datatype Win = Closed | Open(start: int, count: int)

  // One call at time now.
  function Step(w: Win, now: int, window: int): (r: Win)
    ensures r.Open? && (w.Closed? || w.count >= 0 ==> r.count >= 1)
  { if w.Closed? || now - w.start >= window then Open(now, 1) else Open(w.start, w.count + 1) }

  function After(ts: seq<int>, window: int): (w: Win)
    ensures ts == [] ==> w.Closed?
    ensures ts != [] ==> w.Open? && w.count >= 1
  { if ts == [] then Closed else Step(After(ts[..|ts| - 1], window), ts[|ts| - 1], window) }

  // The window that call i falls in, and its number within that window.
  ghost function At(ts: seq<int>, window: int, i: int): (w: Win)
    requires 0 <= i < |ts|
    ensures w.Open? && w.count >= 1
  { After(ts[..i + 1], window) }

  ghost predicate Allowed(ts: seq<int>, window: int, limit: int, i: int)
    requires 0 <= i < |ts|
  { At(ts, window, i).count <= limit }

  // How many of the calls a..b are allowed.
  ghost function AllowedIn(ts: seq<int>, window: int, limit: int, a: int, b: int): (n: int)
    requires 0 <= a <= b <= |ts|
    ensures 0 <= n <= b - a
  { if a == b then 0 else AllowedIn(ts, window, limit, a, b - 1) + if Allowed(ts, window, limit, b - 1) then 1 else 0 }

  ghost predicate Sorted(ts: seq<int>) { forall i, j :: 0 <= i <= j < |ts| ==> ts[i] <= ts[j] }

  lemma AtStep(ts: seq<int>, window: int, i: int)
    requires 0 <= i < |ts|
    ensures At(ts, window, i) == Step(if i == 0 then Closed else At(ts, window, i - 1), ts[i], window)
  {
    assert ts[..i + 1][..i] == ts[..i];
  }

  lemma AtAfter(ts: seq<int>, window: int, i: int)
    requires 0 <= i < |ts|
    ensures At(ts, window, i) == Step(After(ts[..i], window), ts[i], window)
  {
    assert ts[..i + 1][..i] == ts[..i];
  }

  // A window opens at or before each of its calls.
  lemma {:induction false} StartBefore(ts: seq<int>, window: int, i: int)
    requires Sorted(ts) && 0 <= i < |ts|
    ensures At(ts, window, i).start <= ts[i]
  {
    AtStep(ts, window, i);
    if i > 0 { StartBefore(ts, window, i - 1); }
  }

  // Calls a..b fall in one window.
  ghost predicate OneWindow(ts: seq<int>, window: int, a: int, b: int)
    requires 0 <= a < b <= |ts|
  { forall i :: a <= i < b ==> At(ts, window, i).start == At(ts, window, a).start }

  // Calls a..b in one window carry consecutive numbers, so at most `limit` of them are allowed.
  lemma {:induction false} WindowLimit(ts: seq<int>, window: int, limit: int, a: int, b: int)
    requires window > 0 && 0 <= a < b <= |ts| && limit >= 0 && OneWindow(ts, window, a, b)
    ensures At(ts, window, b - 1).count == At(ts, window, a).count + (b - 1 - a)
    ensures AllowedIn(ts, window, limit, a, b) <= limit
    ensures (AllowedIn(ts, window, limit, a, b) < b - a ==> At(ts, window, b - 1).count > limit)
  {
    hide At;
    AtStep(ts, window, b - 1);
    if b - 1 > a {
      WindowLimit(ts, window, limit, a, b - 1);
    } else { assert AllowedIn(ts, window, limit, a, a) == 0; }
  }

  lemma {:induction false} AllowedSplit(ts: seq<int>, window: int, limit: int, a: int, c: int, b: int)
    requires 0 <= a <= c <= b <= |ts|
    ensures AllowedIn(ts, window, limit, a, b) ==
      AllowedIn(ts, window, limit, a, c) + AllowedIn(ts, window, limit, c, b)
  {
    if b > c { AllowedSplit(ts, window, limit, a, c, b - 1); }
  }

  // The first call from a on that falls in another window than call a, or b.
  lemma FirstChange(ts: seq<int>, window: int, a: int, b: int) returns (c: int)
    requires 0 <= a < b <= |ts|
    ensures a < c <= b && forall i :: a <= i < c ==> At(ts, window, i).start == At(ts, window, a).start
    ensures c < b ==> At(ts, window, c).start != At(ts, window, a).start
  {
    c := a + 1;
    while c < b && At(ts, window, c).start == At(ts, window, a).start
      invariant a < c <= b && forall i :: a <= i < c ==> At(ts, window, i).start == At(ts, window, a).start
    {
      c := c + 1;
    }
  }

  // A window opened by call c covers the calls after it as long as they come less than `window` later.
  lemma {:induction false} Covers(ts: seq<int>, window: int, c: int, i: int)
    requires 0 <= c <= i < |ts| && At(ts, window, c).start == ts[c]
    requires forall j :: c <= j <= i ==> ts[j] - ts[c] < window
    ensures At(ts, window, i).start == ts[c]
  {
    hide At;
    AtStep(ts, window, i);
    if i > c { Covers(ts, window, c, i - 1); }
  }

  // The times of calls a..b lie within `window` of each other, in whatever order.
  ghost predicate Near(ts: seq<int>, window: int, a: int, b: int)
    requires 0 <= a <= b <= |ts|
  { forall i, j :: a <= i < b && a <= j < b ==> ts[i] - ts[j] <= window }

  lemma NearBy(ts: seq<int>, window: int, a: int, b: int, i: int, j: int)
    requires 0 <= a <= i < b <= |ts| && a <= j < b && Near(ts, window, a, b)
    ensures ts[i] - ts[j] <= window
  {}

  // At most twice the limit in any stretch of calls no longer than the window, even if the clock steps back.
  lemma TwiceLimit(ts: seq<int>, window: int, limit: int, a: int, b: int)
    requires window > 0 && limit >= 0 && 0 <= a < b <= |ts| && Near(ts, window, a, b)
    ensures AllowedIn(ts, window, limit, a, b) <= 2 * limit
  {
    hide At;
    var c := FirstChange(ts, window, a, b);
    WindowLimit(ts, window, limit, a, c);
    AllowedSplit(ts, window, limit, a, c, b);
    if c < b {
      AtStep(ts, window, c);
      assert ts[a] < ts[c] by { AtLater(ts, window, a, c); }
      assert forall i :: c <= i < b ==> ts[i] - ts[a] <= window;
      forall i | c <= i < b ensures At(ts, window, i).start == At(ts, window, c).start { Covers(ts, window, c, i); }
      WindowLimit(ts, window, limit, c, b);
    }
  }

  // A window that is still open at call c - 1 turns over strictly later than call a, which fell in it.
  lemma AtLater(ts: seq<int>, window: int, a: int, c: int)
    requires window > 0 && 0 <= a < c < |ts|
    requires At(ts, window, c - 1).start == At(ts, window, a).start != At(ts, window, c).start
    ensures ts[a] < ts[c]
  {
    hide At;
    AtStep(ts, window, c);
    OpenAt(ts, window, a);
  }

  // A call falls in a window that is not over yet.
  lemma OpenAt(ts: seq<int>, window: int, i: int)
    requires window > 0 && 0 <= i < |ts|
    ensures ts[i] - At(ts, window, i).start < window
  {
    AtStep(ts, window, i);
  }

  // One millisecond more and the bound fails: calls at window - 1, window and 2 * window fall in three windows.
  lemma TwiceTight(window: int)
    requires window > 0
    ensures var ts := [0, window - 1, window, window, 2 * window, 2 * window];
      Sorted(ts) && ts[5] - ts[1] == window + 1 && AllowedIn(ts, window, 2, 1, 6) == 5 > 2 * 2
  {
    hide At;
    var ts := [0, window - 1, window, window, 2 * window, 2 * window];
    AtStep(ts, window, 0);
    AtStep(ts, window, 1);
    AtStep(ts, window, 2);
    AtStep(ts, window, 3);
    AtStep(ts, window, 4);
    AtStep(ts, window, 5);
    assert AllowedIn(ts, window, 2, 1, 3) == 2;
    assert AllowedIn(ts, window, 2, 1, 5) == 4;
  }

  // ----- when one window allows no more than the limit -----

  ghost predicate Bounded(window: int, limit: int) {
    forall ts, a, b :: 0 <= a < b <= |ts| && OneWindow(ts, window, a, b) ==> AllowedIn(ts, window, limit, a, b) <= limit
  }

  // The limit per window holds for every run of calls exactly if windows have a length or nothing is ever allowed.
  lemma BoundedExactly(window: int, limit: int)
    requires limit >= 0
    ensures Bounded(window, limit) <==> window > 0 || limit == 0
  {
    if window > 0 || limit == 0 {
      forall ts, a, b | 0 <= a < b <= |ts| && OneWindow(ts, window, a, b)
        ensures AllowedIn(ts, window, limit, a, b) <= limit
      {
        if window > 0 { WindowLimit(ts, window, limit, a, b); } else { NoneAllowed(ts, window, a, b); }
      }
    } else {
      var ts := seq(limit + 1, _ => 0);
      AllAllowed(ts, window, limit, |ts|);
      assert OneWindow(ts, window, 0, |ts|);
    }
  }

  ghost predicate TwiceBounded(window: int, limit: int) {
    forall ts, a, b :: 0 <= a < b <= |ts| && Near(ts, window, a, b) ==> AllowedIn(ts, window, limit, a, b) <= 2 * limit
  }

  // Twice the limit holds for every stretch no longer than the window unless the window is empty, when calls at one
  // instant are all let through. (No stretch fits a negative window.)
  lemma TwiceExactly(window: int, limit: int)
    requires limit >= 0
    ensures TwiceBounded(window, limit) <==> window != 0 || limit == 0
  {
    if window != 0 || limit == 0 {
      forall ts, a, b | 0 <= a < b <= |ts| && Near(ts, window, a, b)
        ensures AllowedIn(ts, window, limit, a, b) <= 2 * limit
      {
        NearBy(ts, window, a, b, a, a);
        if limit == 0 { NoneAllowed(ts, window, a, b); } else { TwiceLimit(ts, window, limit, a, b); }
      }
    } else {
      var ts := seq(2 * limit + 1, _ => 0);
      AllAllowed(ts, window, limit, |ts|);
      assert Near(ts, window, 0, |ts|);
    }
  }

  lemma {:induction false} NoneAllowed(ts: seq<int>, window: int, a: int, b: int)
    requires 0 <= a <= b <= |ts|
    ensures AllowedIn(ts, window, 0, a, b) == 0
  {
    if a < b { NoneAllowed(ts, window, a, b - 1); }
  }

  // A window of no length turns over at every call, so every call is the first of its window.
  lemma {:induction false} AllAllowed(ts: seq<int>, window: int, limit: int, b: int)
    requires window <= 0 && limit >= 1 && Sorted(ts) && 0 <= b <= |ts|
    ensures AllowedIn(ts, window, limit, 0, b) == b && forall i :: 0 <= i < b ==> At(ts, window, i) == Open(ts[i], 1)
  {
    hide At;
    if b > 0 {
      AllAllowed(ts, window, limit, b - 1);
      AtStep(ts, window, b - 1);
      if b > 1 { StartBefore(ts, window, b - 2); }
    }
  }

  // Two calls at one instant, both let through where one is the limit.
  lemma NoWindowNoLimit()
    ensures OneWindow([0, 0], 0, 0, 2) && AllowedIn([0, 0], 0, 1, 0, 2) == 2
  {
    AllAllowed([0, 0], 0, 1, 2);
  }

  // What remaining reports.
  function Remaining(w: Win, now: int, window: int, limit: int): int {
    if w.Closed? || now - w.start >= window then limit
    else if limit - w.count < 0 then 0 else limit - w.count
  }

  function Calls(w: Win, ts: seq<int>, window: int): Win {
    if ts == [] then w else Step(Calls(w, ts[..|ts| - 1], window), ts[|ts| - 1], window)
  }

  // If remaining reports k, the next k calls are all allowed, however the windows turn over meanwhile.
  lemma {:induction false} RemainingHolds(w: Win, now: int, window: int, limit: int, ts: seq<int>)
    requires w.Closed? || w.count >= 0
    requires 0 < |ts| <= Remaining(w, now, window, limit) && now <= ts[0]
    ensures var r := Calls(w, ts, window); r.Open? && r.count <= limit
    ensures var r := Calls(w, ts, window); r.count <= |ts| + if w.Closed? || now - w.start >= window then 0 else w.count
    ensures w.Open? && now - w.start >= window ==> Calls(w, ts, window).start > w.start || window <= 0
  {
    var n := |ts| - 1;
    if n > 0 { RemainingHolds(w, now, window, limit, ts[..n]); }
  }

  // It is exact: of the calls that fall in one window with the question, just that many are allowed.
  lemma RemainingExact(w: Win, now: int, window: int, limit: int, ts: seq<int>)
    requires ts != [] && now <= ts[0] && window > 0
    requires w.Open? && now - w.start < window ==> forall i :: 0 <= i < |ts| ==> ts[i] - w.start < window
    requires w.Closed? || now - w.start >= window ==> forall i :: 0 <= i < |ts| ==> ts[i] - ts[0] < window
    ensures Calls(w, ts, window).Open?
    ensures Calls(w, ts, window).count <= limit <==>
      |ts| <= if w.Closed? || now - w.start >= window then limit else if w.count > limit then 0 else limit - w.count
    ensures Calls(w, ts, window).count <= limit <==> |ts| <= Remaining(w, now, window, limit)
  {
    CallsCount(w, now, window, ts);
  }

  lemma {:induction false} CallsCount(w: Win, now: int, window: int, ts: seq<int>)
    requires ts != [] && now <= ts[0] && window > 0
    requires w.Open? && now - w.start < window ==> forall i :: 0 <= i < |ts| ==> ts[i] - w.start < window
    requires w.Closed? || now - w.start >= window ==> forall i :: 0 <= i < |ts| ==> ts[i] - ts[0] < window
    ensures Calls(w, ts, window) ==
      if w.Closed? || now - w.start >= window then Open(ts[0], |ts|) else Open(w.start, w.count + |ts|)
  {
    var n := |ts| - 1;
    if n > 0 { CallsCount(w, now, window, ts[..n]); } else { assert ts[..0] == []; }
  }

  // ----- the table of windows -----

  datatype Entry = Entry(key: string, start: int, count: int)

  ghost predicate DistinctKeys(es: seq<Entry>) { forall i, j :: 0 <= i < j < |es| ==> es[i].key != es[j].key }

  function Find(es: seq<Entry>, k: string): (i: int)
    ensures -1 <= i < |es| && (i >= 0 ==> es[i].key == k)
    ensures i < 0 ==> forall j :: 0 <= j < |es| ==> es[j].key != k
  { if es == [] then -1 else if es[|es| - 1].key == k then |es| - 1 else Find(es[..|es| - 1], k) }

  // The first of the entries whose window opened earliest.
  function Oldest(es: seq<Entry>): (o: int)
    requires es != []
    ensures 0 <= o < |es| && forall j :: 0 <= j < |es| ==> es[o].start <= es[j].start
    ensures forall j :: 0 <= j < o ==> es[o].start < es[j].start
  {
    if |es| == 1 then 0 else
      var o := Oldest(es[..|es| - 1]);
      assert forall j :: 0 <= j < o ==> es[..|es| - 1][j] == es[j];
      if es[|es| - 1].start < es[o].start then |es| - 1 else o
  }

  function WinOf(es: seq<Entry>, k: string): Win {
    var i := Find(es, k); if i < 0 then Closed else Open(es[i].start, es[i].count)
  }

  // Where the entry for k is or goes.
  function Place(es: seq<Entry>, cap: int, k: string): (i: int)
    requires cap > 0 && |es| <= cap
    ensures 0 <= i <= |es| && i < cap
  { if Find(es, k) >= 0 then Find(es, k) else if |es| >= cap then Oldest(es) else |es| }

  function Put(es: seq<Entry>, i: int, e: Entry): seq<Entry>
    requires 0 <= i <= |es|
  { if i < |es| then es[i := e] else es + [e] }

  // The table after one call.
  function Call(es: seq<Entry>, cap: int, window: int, k: string, now: int): seq<Entry>
    requires cap > 0 && |es| <= cap
  { var w := Step(WinOf(es, k), now, window); Put(es, Place(es, cap, k), Entry(k, w.start, w.count)) }

  lemma FindUnique(es: seq<Entry>, i: int)
    requires DistinctKeys(es) && 0 <= i < |es|
    ensures Find(es, es[i].key) == i
  {}

  lemma PutDistinct(es: seq<Entry>, i: int, e: Entry)
    requires DistinctKeys(es) && 0 <= i <= |es| && (Find(es, e.key) < 0 || Find(es, e.key) == i)
    ensures DistinctKeys(Put(es, i, e)) && i < |Put(es, i, e)| && Put(es, i, e)[i] == e
    ensures forall j :: 0 <= j < |es| && j != i ==> j < |Put(es, i, e)| && Put(es, i, e)[j] == es[j]
  {
    var es' := Put(es, i, e);
    assert forall j :: 0 <= j < |es| && j != i ==> es'[j] == es[j] && es'[j].key != e.key;
  }

  // Putting an entry where its key is or into a slot for a key the table lacks.
  lemma PutWindows(es: seq<Entry>, i: int, e: Entry, k: string)
    requires DistinctKeys(es) && 0 <= i <= |es| && (Find(es, e.key) < 0 || Find(es, e.key) == i)
    ensures DistinctKeys(Put(es, i, e)) && WinOf(Put(es, i, e), e.key) == Open(e.start, e.count)
    ensures k != e.key && (i == |es| || es[i].key != k) ==> WinOf(Put(es, i, e), k) == WinOf(es, k)
  {
    hide DistinctKeys, Find;
    PutDistinct(es, i, e);
    FindUnique(Put(es, i, e), i);
    if k != e.key && (i == |es| || es[i].key != k) { PutOther(es, i, e, k); }
  }

  lemma PutOther(es: seq<Entry>, i: int, e: Entry, k: string)
    requires 0 <= i <= |es| && DistinctKeys(Put(es, i, e)) && k != e.key && (i == |es| || es[i].key != k)
    requires i < |Put(es, i, e)| && Put(es, i, e)[i] == e
    requires forall j :: 0 <= j < |es| && j != i ==> j < |Put(es, i, e)| && Put(es, i, e)[j] == es[j]
    ensures WinOf(Put(es, i, e), k) == WinOf(es, k)
  {
    var es', j := Put(es, i, e), Find(es, k);
    if j >= 0 { FindUnique(es', j); } else { assert forall x :: 0 <= x < |es'| ==> es'[x].key != k; }
  }

  // A call for k steps k's window; any other key keeps its window unless it is the one evicted.
  lemma CallWindows(es: seq<Entry>, cap: int, window: int, k: string, now: int, k': string)
    requires cap > 0 && |es| <= cap && DistinctKeys(es)
    ensures var es' := Call(es, cap, window, k, now);
      DistinctKeys(es') && |es'| <= cap && WinOf(es', k) == Step(WinOf(es, k), now, window)
    ensures k' != k && !Evicts(es, cap, k, k') ==> WinOf(Call(es, cap, window, k, now), k') == WinOf(es, k')
  {
    hide WinOf, DistinctKeys;
    var w := Step(WinOf(es, k), now, window);
    PutWindows(es, Place(es, cap, k), Entry(k, w.start, w.count), k');
  }

  ghost predicate Evicts(es: seq<Entry>, cap: int, k: string, k': string)
    requires cap > 0 && |es| <= cap
  { Find(es, k) < 0 && |es| >= cap && es[Oldest(es)].key == k' }

  // ----- whole runs -----

  datatype Hit = Hit(key: string, now: int)

  function Run(cap: int, window: int, hits: seq<Hit>): (es: seq<Entry>)
    requires cap > 0
    ensures |es| <= cap
  {
    if hits == [] then [] else
      var h := hits[|hits| - 1]; var es := Run(cap, window, hits[..|hits| - 1]); Call(es, cap, window, h.key, h.now)
  }

  // The times at which k is called.
  function Times(hits: seq<Hit>, k: string): seq<int> {
    if hits == [] then [] else
      var ts, h := Times(hits[..|hits| - 1], k), hits[|hits| - 1]; if h.key == k then ts + [h.now] else ts
  }

  ghost predicate NeverEvicted(cap: int, window: int, hits: seq<Hit>, k: string)
    requires cap > 0
  { forall i :: 0 <= i < |hits| && hits[i].key != k ==> !Evicts(Run(cap, window, hits[..i]), cap, hits[i].key, k) }

  // In any run, a key that is never evicted is counted as if it were alone, so the limits above apply to it.
  lemma {:induction false} RunWindow(cap: int, window: int, hits: seq<Hit>, k: string)
    requires cap > 0 && NeverEvicted(cap, window, hits, k)
    ensures DistinctKeys(Run(cap, window, hits)) && WinOf(Run(cap, window, hits), k) == After(Times(hits, k), window)
  {
    if hits != [] {
      var n := |hits| - 1;
      assert forall i :: 0 <= i < n ==> hits[..n][i] == hits[i] && hits[..n][..i] == hits[..i];
      RunWindow(cap, window, hits[..n], k);
      CallWindows(Run(cap, window, hits[..n]), cap, window, hits[n].key, hits[n].now, k);
      var ts := Times(hits[..n], k);
      assert (ts + [hits[n].now])[..|ts|] == ts;
    }
  }

  // ----- what the limiter answers in a run -----

  // The window that hit j falls in, after the hits before it.
  ghost function Turned(cap: int, window: int, hits: seq<Hit>, j: int): (w: Win)
    requires cap > 0 && 0 <= j < |hits|
    ensures w.Open?
  { Step(WinOf(Run(cap, window, hits[..j]), hits[j].key), hits[j].now, window) }

  // The answer to hit j.
  ghost predicate Answer(cap: int, window: int, limit: int, hits: seq<Hit>, j: int)
    requires cap > 0 && 0 <= j < |hits|
  { Turned(cap, window, hits, j).count <= limit }

  // How often k is let through in hits a..b.
  ghost function Answers(cap: int, window: int, limit: int, hits: seq<Hit>, k: string, a: int, b: int): (n: int)
    requires cap > 0 && 0 <= a <= b <= |hits|
    ensures 0 <= n <= b - a
  {
    if a == b then 0 else
      var more := hits[b - 1].key == k && Answer(cap, window, limit, hits, b - 1);
      Answers(cap, window, limit, hits, k, a, b - 1) + if more then 1 else 0
  }

  lemma TimesStep(hits: seq<Hit>, k: string, j: int)
    requires 0 <= j < |hits|
    ensures Times(hits[..j + 1], k) == Times(hits[..j], k) + if hits[j].key == k then [hits[j].now] else []
  {
    assert hits[..j + 1][..j] == hits[..j];
  }

  // The times before hit b are an initial part of all times.
  lemma {:induction false} TimesPrefix(hits: seq<Hit>, k: string, b: int)
    requires 0 <= b <= |hits|
    ensures Times(hits[..b], k) <= Times(hits, k)
    ensures b < |hits| && hits[b].key == k ==> Times(hits[..b], k) + [hits[b].now] <= Times(hits, k)
  {
    var n := |hits| - 1;
    if b == n + 1 { assert hits[..b] == hits; } else {
      TimesPrefix(hits[..n], k, b);
      assert hits[..n][..b] == hits[..b];
      if b < n { assert hits[..n][b] == hits[b]; }
    }
  }

  lemma NeverEvictedBefore(cap: int, window: int, hits: seq<Hit>, k: string, b: int)
    requires cap > 0 && NeverEvicted(cap, window, hits, k) && 0 <= b <= |hits|
    ensures NeverEvicted(cap, window, hits[..b], k)
  {
    assert forall i :: 0 <= i < b ==> hits[..b][i] == hits[i] && hits[..b][..i] == hits[..i];
  }

  // Each answer for a key that is never evicted is the one it would get alone.
  lemma AnswerAlone(cap: int, window: int, limit: int, hits: seq<Hit>, k: string, j: int)
    requires cap > 0 && NeverEvicted(cap, window, hits, k) && 0 <= j < |hits| && hits[j].key == k
    ensures var ts, i := Times(hits, k), |Times(hits[..j], k)|;
      i < |ts| && ts[i] == hits[j].now && Turned(cap, window, hits, j) == At(ts, window, i)
  {
    hide Times, Run, WinOf, NeverEvicted, DistinctKeys, Step, At;
    NeverEvictedBefore(cap, window, hits, k, j);
    RunWindow(cap, window, hits[..j], k);
    TimesPrefix(hits, k, j);
    var ts, i := Times(hits, k), |Times(hits[..j], k)|;
    assert ts[i] == (Times(hits[..j], k) + [hits[j].now])[i];
    assert ts[..i] == Times(hits[..j], k);
    AtAfter(ts, window, i);
  }

  // So letting through is counted by the times of that key.
  lemma {:induction false} AnswersAlone(cap: int, window: int, limit: int, hits: seq<Hit>, k: string, a: int, b: int)
    requires cap > 0 && NeverEvicted(cap, window, hits, k) && 0 <= a <= b <= |hits|
    ensures |Times(hits[..a], k)| <= |Times(hits[..b], k)| <= |Times(hits, k)|
    ensures Answers(cap, window, limit, hits, k, a, b) ==
      AllowedIn(Times(hits, k), window, limit, |Times(hits[..a], k)|, |Times(hits[..b], k)|)
  {
    hide At, NeverEvicted, Turned, Times;
    TimesPrefix(hits, k, b);
    if a < b {
      AnswersAlone(cap, window, limit, hits, k, a, b - 1);
      TimesStep(hits, k, b - 1);
      if hits[b - 1].key == k { AnswerAlone(cap, window, limit, hits, k, b - 1); }
    }
  }

  // The times of k in hits a..b lie within `window` of each other, in whatever order.
  ghost predicate HitsNear(hits: seq<Hit>, k: string, window: int, a: int, b: int)
    requires 0 <= a <= b <= |hits|
  { forall i, j :: a <= i < b && a <= j < b && hits[i].key == hits[j].key == k ==> hits[i].now - hits[j].now <= window }

  // A time of k counted between hits a and b is that of a hit between them.
  lemma {:induction false} TimeOf(hits: seq<Hit>, k: string, a: int, b: int, x: int) returns (j: int)
    requires 0 <= a <= b <= |hits| && |Times(hits[..a], k)| <= x < |Times(hits[..b], k)|
    ensures a <= j < b && hits[j].key == k && hits[j].now == Times(hits[..b], k)[x]
  {
    TimesStep(hits, k, b - 1);
    if x < |Times(hits[..b - 1], k)| { j := TimeOf(hits, k, a, b - 1, x); } else { j := b - 1; }
  }

  lemma TimesNear(hits: seq<Hit>, k: string, window: int, a: int, b: int)
    requires 0 <= a <= b <= |hits| && HitsNear(hits, k, window, a, b)
    ensures |Times(hits[..b], k)| <= |Times(hits, k)|
    ensures |Times(hits[..a], k)| <= |Times(hits[..b], k)| ==>
      Near(Times(hits, k), window, |Times(hits[..a], k)|, |Times(hits[..b], k)|)
  {
    hide Times;
    TimesPrefix(hits, k, b);
    var ts, lo, hi := Times(hits, k), |Times(hits[..a], k)|, |Times(hits[..b], k)|;
    forall x, y | lo <= x < hi && lo <= y < hi ensures ts[x] - ts[y] <= window {
      var i := TimeOf(hits, k, a, b, x);
      var j := TimeOf(hits, k, a, b, y);
    }
  }

  // In any run, a key that is never evicted is let through at most twice the limit in any stretch in which its times
  // lie within the window of each other.
  lemma RunLimit(cap: int, window: int, limit: int, hits: seq<Hit>, k: string, a: int, b: int)
    requires cap > 0 && window > 0 && limit >= 0 && NeverEvicted(cap, window, hits, k)
    requires 0 <= a <= b <= |hits| && HitsNear(hits, k, window, a, b)
    ensures Answers(cap, window, limit, hits, k, a, b) <= 2 * limit
  {
    hide NeverEvicted, Times, HitsNear, Near;
    AnswersAlone(cap, window, limit, hits, k, a, b);
    TimesNear(hits, k, window, a, b);
    var i, j := |Times(hits[..a], k)|, |Times(hits[..b], k)|;
    if i < j { TwiceLimit(Times(hits, k), window, limit, i, j); }
  }

  // While the table keeps one window for the key, at most the limit is let through.
  lemma RunWindowLimit(cap: int, window: int, limit: int, hits: seq<Hit>, k: string, a: int, b: int, start: int)
    requires cap > 0 && window > 0 && limit >= 0 && NeverEvicted(cap, window, hits, k) && 0 <= a < b <= |hits|
    requires forall j :: a <= j < b && hits[j].key == k ==> Turned(cap, window, hits, j).start == start
    ensures Answers(cap, window, limit, hits, k, a, b) <= limit
  {
    hide NeverEvicted, At, Turned, Times;
    AnswersAlone(cap, window, limit, hits, k, a, b);
    StartsAlone(cap, window, hits, k, a, b, start);
    var i, j := |Times(hits[..a], k)|, |Times(hits[..b], k)|;
    if i < j { WindowLimit(Times(hits, k), window, limit, i, j); }
  }

  lemma {:induction false} StartsAlone(cap: int, window: int, hits: seq<Hit>, k: string, a: int, b: int, start: int)
    requires cap > 0 && NeverEvicted(cap, window, hits, k) && 0 <= a <= b <= |hits|
    requires forall j :: a <= j < b && hits[j].key == k ==> Turned(cap, window, hits, j).start == start
    ensures |Times(hits[..b], k)| <= |Times(hits, k)|
    ensures forall x :: |Times(hits[..a], k)| <= x < |Times(hits[..b], k)| ==>
      At(Times(hits, k), window, x).start == start
  {
    hide NeverEvicted, At, Turned, Times;
    TimesPrefix(hits, k, b);
    if a < b {
      StartsAlone(cap, window, hits, k, a, b - 1, start);
      TimesStep(hits, k, b - 1);
      if hits[b - 1].key == k { AnswerAlone(cap, window, 0, hits, k, b - 1); }
    }
  }

  lemma RunStep(cap: int, window: int, hits: seq<Hit>, j: int)
    requires cap > 0 && 0 <= j < |hits|
    ensures Run(cap, window, hits[..j + 1]) == Call(Run(cap, window, hits[..j]), cap, window, hits[j].key, hits[j].now)
  {
    assert hits[..j + 1][..j] == hits[..j];
  }

  // ----- what remaining promises in a run -----

  lemma {:induction false} RunCounts(cap: int, window: int, hits: seq<Hit>)
    requires cap > 0
    ensures DistinctKeys(Run(cap, window, hits))
    ensures forall i :: 0 <= i < |Run(cap, window, hits)| ==> Run(cap, window, hits)[i].count >= 1
  {
    if hits != [] {
      var n := |hits| - 1;
      RunCounts(cap, window, hits[..n]);
      CallWindows(Run(cap, window, hits[..n]), cap, window, hits[n].key, hits[n].now, hits[n].key);
    }
  }

  // From hit n on, a key that is not evicted again steps its window at its own hits only.
  lemma {:induction false} RunFrom(cap: int, window: int, hits: seq<Hit>, k: string, n: int, j: int)
    requires cap > 0 && 0 <= n <= j <= |hits|
    requires forall i :: n <= i < j && hits[i].key != k ==> !Evicts(Run(cap, window, hits[..i]), cap, hits[i].key, k)
    ensures WinOf(Run(cap, window, hits[..j]), k) ==
      Calls(WinOf(Run(cap, window, hits[..n]), k), Times(hits[n..j], k), window)
  {
    hide Run, Times, Calls, WinOf, Call, DistinctKeys, Evicts;
    if n < j {
      RunFrom(cap, window, hits, k, n, j - 1);
      RunStep(cap, window, hits, j - 1);
      RunCounts(cap, window, hits[..j - 1]);
      CallWindows(Run(cap, window, hits[..j - 1]), cap, window, hits[j - 1].key, hits[j - 1].now, k);
      CallsStep(WinOf(Run(cap, window, hits[..n]), k), window, hits, k, n, j - 1);
    } else { CallsNone(WinOf(Run(cap, window, hits[..n]), k), window, hits, k, n); }
  }

  lemma CallsNone(w: Win, window: int, hits: seq<Hit>, k: string, n: int)
    requires 0 <= n <= |hits|
    ensures Calls(w, Times(hits[n..n], k), window) == w
  {}

  lemma CallsPush(w: Win, ts: seq<int>, now: int, window: int)
    ensures Calls(w, ts + [now], window) == Step(Calls(w, ts, window), now, window)
  {
    assert (ts + [now])[..|ts|] == ts;
  }

  lemma CallsStep(w: Win, window: int, hits: seq<Hit>, k: string, n: int, j: int)
    requires 0 <= n <= j < |hits|
    ensures var r := Calls(w, Times(hits[n..j], k), window);
      Calls(w, Times(hits[n..j + 1], k), window) == if hits[j].key == k then Step(r, hits[j].now, window) else r
  {
    assert hits[n..][..j - n] == hits[n..j] && hits[n..][..j - n + 1] == hits[n..j + 1];
    assert hits[n..][j - n] == hits[j];
    TimesStep(hits[n..], k, j - n);
    var ts := Times(hits[n..j], k);
    if hits[j].key == k { CallsPush(w, ts, hits[j].now, window); } else { assert ts + [] == ts; }
  }

  // If after n hits remaining reports r for k, then k's next r hits are all let through, unless k is evicted meanwhile.
  lemma RunRemaining(cap: int, window: int, limit: int, hits: seq<Hit>, k: string, n: int, now: int, j: int)
    requires cap > 0 && 0 <= n <= j < |hits| && hits[j].key == k
    requires forall i :: n <= i <= j && hits[i].key == k ==> now <= hits[i].now
    requires forall i :: n <= i < j && hits[i].key != k ==> !Evicts(Run(cap, window, hits[..i]), cap, hits[i].key, k)
    requires |Times(hits[n..j], k)| < Remaining(WinOf(Run(cap, window, hits[..n]), k), now, window, limit)
    ensures Answer(cap, window, limit, hits, j)
  {
    hide Run, Times, Calls, WinOf, Evicts, Remaining, Step;
    var w := WinOf(Run(cap, window, hits[..n]), k);
    RunFrom(cap, window, hits, k, n, j);
    CallsStep(w, window, hits, k, n, j);
    Counted(cap, window, hits[..n], k);
    LaterTimes(hits, k, n, j, now);
    RemainingHolds(w, now, window, limit, Times(hits[n..j + 1], k));
  }

  lemma LaterTimes(hits: seq<Hit>, k: string, n: int, j: int, now: int)
    requires 0 <= n <= j < |hits| && hits[j].key == k
    requires forall i :: n <= i <= j && hits[i].key == k ==> now <= hits[i].now
    ensures var ts := Times(hits[n..j + 1], k); |ts| == |Times(hits[n..j], k)| + 1 && now <= ts[0]
  {
    hide Times;
    var later := hits[n..j + 1];
    assert later[..j - n] == hits[n..j] && later[..j - n + 1] == later;
    TimesStep(later, k, j - n);
    NoTimes(later, k);
    var i := TimeOf(later, k, 0, |later|, 0);
  }

  lemma NoTimes(hits: seq<Hit>, k: string)
    ensures Times(hits[..0], k) == []
  {}

  lemma Counted(cap: int, window: int, hits: seq<Hit>, k: string)
    requires cap > 0
    ensures var w := WinOf(Run(cap, window, hits), k); w.Open? ==> w.count >= 1
  {
    RunCounts(cap, window, hits);
  }
}
