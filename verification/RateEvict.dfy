// When the table of windows may forget a key: the limit holds for every run over a set of keys exactly if the table has
// room for all of them.
module RateEvict {
  import opened Basics
  import opened RateSpec

  ghost predicate Over(hits: seq<Hit>, ks: set<string>) { forall i :: 0 <= i < |hits| ==> hits[i].key in ks }

  // Every run over ks lets every key through at most twice the limit while its times lie within the window.
  ghost predicate Limited(cap: int, window: int, limit: int, ks: set<string>)
    requires cap > 0
  {
    forall hits, k, a, b :: 0 <= a <= b <= |hits| && Over(hits, ks) && HitsNear(hits, k, window, a, b) ==>
      Answers(cap, window, limit, hits, k, a, b) <= 2 * limit
  }

  // ----- with room for every key nobody is evicted -----

  lemma {:induction false} RunKeys(cap: int, window: int, hits: seq<Hit>, ks: set<string>)
    requires cap > 0 && Over(hits, ks)
    ensures forall i :: 0 <= i < |Run(cap, window, hits)| ==> Run(cap, window, hits)[i].key in ks
  {
    if hits != [] { RunKeys(cap, window, hits[..|hits| - 1], ks); }
  }

  // Entries with different keys from ks are at most as many as ks.
  lemma {:induction false} Pigeonhole(es: seq<Entry>, ks: set<string>)
    requires DistinctKeys(es) && forall i :: 0 <= i < |es| ==> es[i].key in ks
    ensures |es| <= |ks|
  {
    if es != [] {
      var n := |es| - 1;
      Pigeonhole(es[..n], ks - {es[n].key});
    }
  }

  lemma RoomForAll(cap: int, window: int, hits: seq<Hit>, ks: set<string>, k: string)
    requires cap > 0 && Over(hits, ks) && |ks| <= cap
    ensures NeverEvicted(cap, window, hits, k)
  {
    forall i | 0 <= i < |hits| && hits[i].key != k
      ensures !Evicts(Run(cap, window, hits[..i]), cap, hits[i].key, k)
    {
      var es, x := Run(cap, window, hits[..i]), hits[i].key;
      RunCounts(cap, window, hits[..i]);
      RunKeys(cap, window, hits[..i], ks);
      if Find(es, x) < 0 { Pigeonhole(es, ks - {x}); }
    }
  }

  lemma {:induction false} NoAnswers(cap: int, window: int, hits: seq<Hit>, k: string, a: int, b: int)
    requires cap > 0 && 0 <= a <= b <= |hits|
    ensures Answers(cap, window, 0, hits, k, a, b) == 0
  {
    if a < b {
      NoAnswers(cap, window, hits, k, a, b - 1);
      RunCounts(cap, window, hits[..b - 1]);
    }
  }

  // ----- one key more than there is room for -----

  // The names as entries that have just been hit once at time 0.
  ghost function Filled(names: seq<string>, n: int): (es: seq<Entry>)
    requires 0 <= n <= |names|
    ensures |es| == n
  { seq(n, i requires 0 <= i < n => Entry(names[i], 0, 1)) }

  lemma Missing(names: seq<string>, n: int, k: string)
    requires 0 <= n <= |names| && forall i :: 0 <= i < n ==> names[i] != k
    ensures Find(Filled(names, n), k) < 0
  {}

  // Every name up to n is hit once at time 0.
  ghost function Filling(names: seq<string>, n: int): (hits: seq<Hit>)
    requires 0 <= n <= |names|
    ensures |hits| == n
  { seq(n, i requires 0 <= i < n => Hit(names[i], 0)) }

  lemma {:induction false} FillingRun(cap: int, window: int, names: seq<string>, n: int)
    requires 0 <= n <= cap && n <= |names| && cap > 0 && Different(names)
    ensures Run(cap, window, Filling(names, n)) == Filled(names, n)
  {
    hide Find, Oldest;
    if n > 0 {
      FillingRun(cap, window, names, n - 1);
      assert Filling(names, n)[..n - 1] == Filling(names, n - 1);
      Missing(names, n - 1, names[n - 1]);
      assert Filled(names, n) == Filled(names, n - 1) + [Entry(names[n - 1], 0, 1)];
    }
  }

  // After that the last name and the first take turns, n times.
  ghost function Contest(names: seq<string>, n: nat): (hits: seq<Hit>)
    requires |names| >= 2
    ensures |hits| == |names| - 1 + 2 * n
  {
    var last := |names| - 1;
    if n == 0 then Filling(names, last) else Contest(names, n - 1) + [Hit(names[last], 0), Hit(names[0], 0)]
  }

  // A name the full table lacks takes slot 0, which opened no later than any other, and starts a window.
  lemma TakesFirst(es: seq<Entry>, window: int, k: string)
    requires es != [] && Find(es, k) < 0 && forall i :: 0 <= i < |es| ==> es[i].start == 0
    ensures Call(es, |es|, window, k, 0) == es[0 := Entry(k, 0, 1)] && Step(WinOf(es, k), 0, window) == Open(0, 1)
  {
    hide Oldest, Find;
    FirstIsOldest(es);
  }

  lemma FirstIsOldest(es: seq<Entry>)
    requires es != [] && forall i :: 0 <= i < |es| ==> es[i].start == 0
    ensures Oldest(es) == 0
  {
    hide Oldest;
    assert es[0].start == 0;
  }

  lemma TurnKeeps(window: int, names: seq<string>)
    requires |names| >= 2 && Different(names)
    ensures var cap, es := |names| - 1, Filled(names, |names| - 1); var mid := es[0 := Entry(names[cap], 0, 1)];
      && Call(es, cap, window, names[cap], 0) == mid && Find(mid, names[0]) < 0
      && Call(mid, cap, window, names[0], 0) == es && Step(WinOf(mid, names[0]), 0, window) == Open(0, 1)
  {
    hide Call, Step, WinOf;
    var cap, es := |names| - 1, Filled(names, |names| - 1);
    var mid := es[0 := Entry(names[cap], 0, 1)];
    Missing(names, cap, names[cap]);
    TakesFirst(es, window, names[cap]);
    TakesFirst(mid, window, names[0]);
    assert mid[0 := Entry(names[0], 0, 1)] == es;
  }

  lemma RunPush(cap: int, window: int, hits: seq<Hit>, x: Hit)
    requires cap > 0
    ensures Run(cap, window, hits + [x]) == Call(Run(cap, window, hits), cap, window, x.key, x.now)
  {
    assert (hits + [x])[..|hits|] == hits;
  }

  lemma {:induction false} AnswersPrefix(cap: int, window: int, limit: int, hits: seq<Hit>, x: Hit, k: string, b: int)
    requires cap > 0 && 0 <= b <= |hits|
    ensures Answers(cap, window, limit, hits + [x], k, 0, b) == Answers(cap, window, limit, hits, k, 0, b)
  {
    if b > 0 {
      AnswersPrefix(cap, window, limit, hits, x, k, b - 1);
      assert (hits + [x])[..b - 1] == hits[..b - 1];
    }
  }

  lemma AnswersPush(cap: int, window: int, limit: int, hits: seq<Hit>, x: Hit, k: string)
    requires cap > 0
    ensures var n := |hits|; var more := Step(WinOf(Run(cap, window, hits), x.key), x.now, window).count <= limit;
      Answers(cap, window, limit, hits + [x], k, 0, n + 1) ==
      Answers(cap, window, limit, hits, k, 0, n) + if x.key == k && more then 1 else 0
  {
    hide Run, WinOf, Step;
    AnswersPrefix(cap, window, limit, hits, x, k, |hits|);
    assert (hits + [x])[..|hits|] == hits;
  }

  // The table is full of the first names again after every turn, and the first name has been let through every time.
  lemma {:induction false} ContestRun(window: int, limit: int, names: seq<string>, n: nat)
    requires |names| >= 2 && Different(names) && limit >= 1
    ensures var cap, hits := |names| - 1, Contest(names, n);
      Run(cap, window, hits) == Filled(names, cap) && Answers(cap, window, limit, hits, names[0], 0, |hits|) >= n
  {
    hide Run, Answers, Call, Step, WinOf, Filled;
    var cap := |names| - 1;
    if n == 0 { FillingRun(cap, window, names, cap); } else {
      ContestRun(window, limit, names, n - 1);
      TurnKeeps(window, names);
      var hits, x, y := Contest(names, n - 1), Hit(names[cap], 0), Hit(names[0], 0);
      RunPush(cap, window, hits, x);
      RunPush(cap, window, hits + [x], y);
      AnswersPush(cap, window, limit, hits, x, names[0]);
      AnswersPush(cap, window, limit, hits + [x], y, names[0]);
      assert hits + [x] + [y] == Contest(names, n);
    }
  }

  lemma {:induction false} ContestHits(names: seq<string>, n: nat)
    requires |names| >= 2
    ensures forall i :: 0 <= i < |Contest(names, n)| ==>
      Contest(names, n)[i].now == 0 && Contest(names, n)[i].key in names
  {
    if n > 0 { ContestHits(names, n - 1); }
  }

  // Eviction is what breaks the limit: with one key more than the table has entries, two of them taking turns at one
  // instant are let through as often as they please.
  lemma EvictionForgets(window: int, limit: int, names: seq<string>, n: nat) returns (hits: seq<Hit>)
    requires |names| >= 2 && Different(names) && window >= 0 && limit >= 1
    ensures forall i :: 0 <= i < |hits| ==> hits[i].key in names && hits[i].now == 0
    ensures Answers(|names| - 1, window, limit, hits, names[0], 0, |hits|) >= n
  {
    hits := Contest(names, n);
    ContestRun(window, limit, names, n);
    ContestHits(names, n);
  }

  lemma {:induction false} Listing(ks: set<string>, n: nat) returns (names: seq<string>)
    requires n <= |ks|
    ensures |names| == n && Different(names) && forall i :: 0 <= i < n ==> names[i] in ks
  {
    if n == 0 { names := []; } else {
      var k :| k in ks;
      var rest := Listing(ks - {k}, n - 1);
      names := [k] + rest;
    }
  }

  // ----- windows without length -----

  // No stretch with a call fits a negative window.
  lemma {:induction false} NoStretch(cap: int, window: int, limit: int, hits: seq<Hit>, k: string, a: int, b: int)
    requires cap > 0 && window < 0 && 0 <= a <= b <= |hits| && HitsNear(hits, k, window, a, b)
    ensures Answers(cap, window, limit, hits, k, a, b) == 0
  {
    if a < b {
      NoStretch(cap, window, limit, hits, k, a, b - 1);
      if hits[b - 1].key == k { HitsNearBy(hits, k, window, a, b, b - 1, b - 1); }
    }
  }

  lemma HitsNearBy(hits: seq<Hit>, k: string, window: int, a: int, b: int, i: int, j: int)
    requires 0 <= a <= i < b <= |hits| && a <= j < b && HitsNear(hits, k, window, a, b)
    requires hits[i].key == hits[j].key == k
    ensures hits[i].now - hits[j].now <= window
  {}

  // An empty window turns over at every call, so calls at one instant are all let through.
  lemma {:induction false} SameInstant(cap: int, limit: int, k: string, n: nat)
    requires cap > 0 && limit >= 1
    ensures var hits := seq(n, _ => Hit(k, 0));
      && Run(cap, 0, hits) == (if n == 0 then [] else [Entry(k, 0, 1)])
      && Answers(cap, 0, limit, hits, k, 0, n) == n
  {
    if n > 0 {
      SameInstant(cap, limit, k, n - 1);
      var before := seq(n - 1, _ => Hit(k, 0));
      assert seq(n, _ => Hit(k, 0)) == before + [Hit(k, 0)];
      RunPush(cap, 0, before, Hit(k, 0));
      AnswersPush(cap, 0, limit, before, Hit(k, 0), k);
    }
  }

  // ----- the exact condition -----

  // The limit holds for every run over ks exactly if nothing is ever allowed, no stretch fits the window, there is no
  // key, or the window has a length and the table has room for every key.
  lemma LimitedExactly(cap: int, window: int, limit: int, ks: set<string>)
    requires cap > 0 && limit >= 0
    ensures Limited(cap, window, limit, ks) <==> limit == 0 || window < 0 || ks == {} || (window > 0 && |ks| <= cap)
  {
    hide Limited;
    if limit == 0 || window < 0 || ks == {} || (window > 0 && |ks| <= cap) { LimitHolds(cap, window, limit, ks); }
    else { LimitFails(cap, window, limit, ks); }
  }

  lemma LimitHolds(cap: int, window: int, limit: int, ks: set<string>)
    requires cap > 0 && limit >= 0 && (limit == 0 || window < 0 || ks == {} || (window > 0 && |ks| <= cap))
    ensures Limited(cap, window, limit, ks)
  {
    hide Answers, NeverEvicted, HitsNear;
    forall hits: seq<Hit>, k, a, b | 0 <= a <= b <= |hits| && Over(hits, ks) && HitsNear(hits, k, window, a, b)
      ensures Answers(cap, window, limit, hits, k, a, b) <= 2 * limit
    {
      assert |hits| > 0 ==> hits[0].key in ks;
      if limit == 0 { NoAnswers(cap, window, hits, k, a, b); }
      else if window < 0 { NoStretch(cap, window, limit, hits, k, a, b); }
      else if ks != {} {
        RoomForAll(cap, window, hits, ks, k);
        RunLimit(cap, window, limit, hits, k, a, b);
      }
    }
  }

  lemma LimitFails(cap: int, window: int, limit: int, ks: set<string>)
    requires cap > 0 && limit >= 1 && window >= 0 && ks != {} && (window == 0 || |ks| > cap)
    ensures !Limited(cap, window, limit, ks)
  {
    hide Answers, HitsNear;
    var m := 2 * limit + 1;
    var hits, k;
    if window == 0 {
      k :| k in ks;
      hits := seq(m, _ => Hit(k, 0));
      SameInstant(cap, limit, k, m);
    } else {
      var names := Listing(ks, cap + 1);
      hits := EvictionForgets(window, limit, names, m);
      k := names[0];
    }
    AllAtOnce(hits, k, window);
    assert Over(hits, ks);
  }

  lemma AllAtOnce(hits: seq<Hit>, k: string, window: int)
    requires window >= 0 && forall i :: 0 <= i < |hits| ==> hits[i].now == 0
    ensures HitsNear(hits, k, window, 0, |hits|)
  {}
}
