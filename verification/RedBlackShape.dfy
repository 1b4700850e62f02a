// The pointer structure of the red-black tree: parent and child links over a node store, and what rotating,
// splicing out, substituting and attaching nodes do to the in-order sequence.
module RedBlackShape {

  const NIL: int := 0

  // The pointer fields of the node store; index NIL is the sentinel.
  datatype Links = Links(root: int, left: seq<int>, right: seq<int>, parent: seq<int>)

  // The subtree of a node is the slice [lo, hi) of the in-order sequence, the node itself sits at `at`.
  datatype Span = Span(lo: int, at: int, hi: int)
  datatype Layout = Layout(order: seq<int>, span: seq<Span>)

  predicate Sized(t: Links, g: Layout) {
    0 < |t.left| == |t.right| == |t.parent| == |g.span|
  }

  predicate In(g: Layout, n: int) {
    0 < n < |g.span| && g.span[n].lo < g.span[n].hi
  }

  predicate LeftOk(t: Links, g: Layout, n: int)
    requires Sized(t, g) && 0 <= n < |t.left|
  {
    var c, s := t.left[n], g.span[n];
    if c == NIL then s.lo == s.at else
      In(g, c) && t.parent[c] == n && g.span[c].lo == s.lo && g.span[c].hi == s.at
  }

  predicate RightOk(t: Links, g: Layout, n: int)
    requires Sized(t, g) && 0 <= n < |t.left|
  {
    var c, s := t.right[n], g.span[n];
    if c == NIL then s.hi == s.at + 1 else
      In(g, c) && t.parent[c] == n && g.span[c].lo == s.at + 1 && g.span[c].hi == s.hi
  }

  predicate UpOk(t: Links, g: Layout, n: int)
    requires Sized(t, g) && 0 <= n < |t.left|
  {
    var p := t.parent[n];
    if n == t.root then p == NIL else In(g, p) && (t.left[p] == n || t.right[p] == n)
  }

  predicate LinkOk(t: Links, g: Layout, n: int)
    requires Sized(t, g) && 0 <= n < |t.left|
  {
    && 0 <= g.span[n].lo <= g.span[n].at < g.span[n].hi <= |g.order| && g.order[g.span[n].at] == n
    && LeftOk(t, g, n) && RightOk(t, g, n) && UpOk(t, g, n)
  }

  ghost predicate Ordered(g: Layout) {
    forall i :: 0 <= i < |g.order| ==> In(g, g.order[i]) && g.span[g.order[i]].at == i
  }

  ghost predicate Linked(t: Links, g: Layout)
    requires Sized(t, g)
  {
    forall n {:trigger LinkOk(t, g, n)} :: In(g, n) ==> LinkOk(t, g, n)
  }

  predicate Rooted(t: Links, g: Layout) {
    if g.order == [] then t.root == NIL else
      In(g, t.root) && g.span[t.root].lo == 0 && g.span[t.root].hi == |g.order|
  }

  ghost predicate Shape(t: Links, g: Layout) {
    Sized(t, g) && Ordered(g) && Linked(t, g) && Rooted(t, g)
  }

  // ----- mirror image -----

  function Mirror(t: Links): Links { Links(t.root, t.right, t.left, t.parent) }

  function Reverse(s: seq<int>): (r: seq<int>)
  { seq(|s|, i requires 0 <= i < |s| => s[|s| - 1 - i]) }

  function Flip(s: Span, n: int): Span {
    if 0 <= s.lo <= s.at < s.hi <= n then Span(n - s.hi, n - 1 - s.at, n - s.lo) else Span(0, 0, 0)
  }

  function MirrorLayout(g: Layout): (m: Layout)
  {
    Layout(Reverse(g.order), seq(|g.span|, i requires 0 <= i < |g.span| => Flip(g.span[i], |g.order|)))
  }

  lemma MirrorLink(t: Links, g: Layout, n: int)
    requires Shape(t, g) && 0 <= n < |g.span|
    ensures In(MirrorLayout(g), n) <==> In(g, n)
    ensures In(g, n) ==> LinkOk(Mirror(t), MirrorLayout(g), n)
  {
    if In(g, n) {
      assert LinkOk(t, g, n);
      if t.left[n] != NIL { assert LinkOk(t, g, t.left[n]); }
      if t.right[n] != NIL { assert LinkOk(t, g, t.right[n]); }
      if n != t.root { assert LinkOk(t, g, t.parent[n]); }
    }
  }

  lemma MirrorShape(t: Links, g: Layout)
    requires Shape(t, g)
    ensures Shape(Mirror(t), MirrorLayout(g))
    ensures forall n :: In(MirrorLayout(g), n) <==> In(g, n)
  {
    var g' := MirrorLayout(g);
    forall n | 0 <= n < |g.span|
      ensures (In(g', n) <==> In(g, n)) && (In(g, n) ==> LinkOk(Mirror(t), g', n))
    { MirrorLink(t, g, n); }
    forall i | 0 <= i < |g'.order|
      ensures In(g', g'.order[i]) && g'.span[g'.order[i]].at == i
    {
      assert In(g, g.order[|g.order| - 1 - i]);
      assert LinkOk(t, g, g'.order[i]);
    }
    if t.root != NIL { assert LinkOk(t, g, t.root); }
  }

  lemma MirrorOrder(g: Layout)
    ensures MirrorLayout(MirrorLayout(g)).order == g.order
  {}

  // ----- rotations -----

  ghost predicate RotatedLeft(t: Links, t': Links, x: int, y: int, b: int, p: int)
    requires 0 <= x < |t.left| && 0 <= y < |t.left| && 0 <= b < |t.left| && 0 <= p < |t.left|
    requires |t.left| == |t.right| == |t.parent|
  {
    && t'.root == (if p == NIL then y else t.root)
    && |t'.left| == |t'.right| == |t'.parent| == |t.left|
    && (forall k :: 0 <= k < |t.left| ==>
      t'.left[k] == if k == y then x else if k == p != NIL && t.left[p] == x then y else t.left[k])
    && (forall k :: 0 <= k < |t.left| ==>
      t'.right[k] == if k == x then b else if k == p != NIL && t.left[p] != x then y else t.right[k])
    && (forall k :: 0 <= k < |t.left| ==>
      t'.parent[k] == if k == x then y else if k == y then p else if k == b != NIL then x else t.parent[k])
  }

  ghost predicate SpansLeft(g: Layout, g': Layout, x: int, y: int)
    requires 0 <= x < |g.span| && 0 <= y < |g.span|
  {
    g'.order == g.order && |g'.span| == |g.span| &&
    forall k :: 0 <= k < |g.span| ==>
      g'.span[k] ==
        if k == y then Span(g.span[x].lo, g.span[y].at, g.span[x].hi)
        else if k == x then Span(g.span[x].lo, g.span[x].at, g.span[y].at)
        else g.span[k]
  }

  ghost predicate Around(t: Links, g: Layout, x: int, y: int, b: int, p: int)
  {
    && Sized(t, g) && In(g, x) && y == t.right[x] && In(g, y) && b == t.left[y] && p == t.parent[x]
    && 0 <= p < |t.left| && 0 <= b < |t.left|
    && LinkOk(t, g, x) && LinkOk(t, g, y)
    && (In(g, p) ==> LinkOk(t, g, p)) && (In(g, b) ==> LinkOk(t, g, b))
  }

  lemma RotateLeftPivot(t: Links, g: Layout, t': Links, g': Layout, x: int, y: int, b: int, p: int, n: int)
    requires Around(t, g, x, y, b, p)
    requires RotatedLeft(t, t', x, y, b, p) && SpansLeft(g, g', x, y)
    requires n == x || n == y
    ensures Sized(t', g') && LinkOk(t', g', n)
  {}

  lemma RotateLeftTop(t: Links, g: Layout, t': Links, g': Layout, x: int, y: int, b: int, p: int, n: int)
    requires Around(t, g, x, y, b, p) && In(g, n)
    requires RotatedLeft(t, t', x, y, b, p) && SpansLeft(g, g', x, y)
    requires n == p
    ensures Sized(t', g') && LinkOk(t', g', n)
  {}

  lemma RotateLeftMid(t: Links, g: Layout, t': Links, g': Layout, x: int, y: int, b: int, p: int, n: int)
    requires Around(t, g, x, y, b, p) && In(g, n)
    requires RotatedLeft(t, t', x, y, b, p) && SpansLeft(g, g', x, y)
    requires n == b && n != p
    ensures Sized(t', g') && LinkOk(t', g', n)
  {}

  lemma RotateLeftFar(t: Links, g: Layout, t': Links, g': Layout, x: int, y: int, b: int, p: int, n: int)
    requires Around(t, g, x, y, b, p) && In(g, n) && LinkOk(t, g, n)
    requires RotatedLeft(t, t', x, y, b, p) && SpansLeft(g, g', x, y)
    requires n !in {x, y, b, p}
    ensures Sized(t', g') && LinkOk(t', g', n)
  {}

  lemma RotateLeftAt(t: Links, g: Layout, t': Links, g': Layout, x: int, y: int, b: int, p: int, n: int)
    requires Around(t, g, x, y, b, p) && In(g, n) && LinkOk(t, g, n)
    requires RotatedLeft(t, t', x, y, b, p) && SpansLeft(g, g', x, y)
    ensures Sized(t', g') && LinkOk(t', g', n)
  {
    hide LinkOk;
    hide RotatedLeft;
    hide SpansLeft;
      if n == x || n == y { RotateLeftPivot(t, g, t', g', x, y, b, p, n); }
      else if n == p { RotateLeftTop(t, g, t', g', x, y, b, p, n); }
      else if n == b { RotateLeftMid(t, g, t', g', x, y, b, p, n); }
      else { RotateLeftFar(t, g, t', g', x, y, b, p, n); }
  }

  lemma RotateLeftOrdered(t: Links, g: Layout, t': Links, g': Layout, x: int, y: int, b: int, p: int)
    requires Around(t, g, x, y, b, p) && RotatedLeft(t, t', x, y, b, p) && SpansLeft(g, g', x, y)
    requires Ordered(g) && Rooted(t, g)
    ensures Ordered(g') && Rooted(t', g') && forall n :: In(g', n) <==> In(g, n)
  {
    hide Linked;
  }

  lemma RotateLeftShape(t: Links, g: Layout, t': Links, x: int, y: int, b: int, p: int) returns (g': Layout)
    requires Shape(t, g) && In(g, x) && y == t.right[x] && 0 < y < |t.left| && b == t.left[y] && p == t.parent[x]
    requires 0 <= p < |t.left| && 0 <= b < |t.left|
    requires RotatedLeft(t, t', x, y, b, p)
    ensures Shape(t', g') && g'.order == g.order && forall n :: In(g', n) <==> In(g, n)
  {
    assert Around(t, g, x, y, b, p) by { assert LinkOk(t, g, x) && LinkOk(t, g, y); }
    var sx, sy := g.span[x], g.span[y];
    g' := g.(span := g.span[y := Span(sx.lo, sy.at, sx.hi)][x := Span(sx.lo, sx.at, sy.at)]);
    assert SpansLeft(g, g', x, y) by { hide Around, Shape, RotatedLeft; }
    hide RotatedLeft, SpansLeft, LinkOk, Ordered, Rooted;
    RotateLeftOrdered(t, g, t', g', x, y, b, p);
    assert Sized(t', g');
    forall n | In(g, n) ensures LinkOk(t', g', n) {
      assert LinkOk(t, g, n);
      RotateLeftAt(t, g, t', g', x, y, b, p, n);
    }
  }

  // ----- splicing out a node z that has no left child; x is its right child -----

  ghost predicate Spliced(t: Links, t': Links, z: int, x: int, p: int)
    requires 0 <= z < |t.left| && 0 <= x < |t.left| && 0 <= p < |t.left| && |t.left| == |t.right| == |t.parent|
  {
    && t'.root == (if p == NIL then x else t.root)
    && |t'.left| == |t'.right| == |t'.parent| == |t.left|
    && (forall k :: 0 <= k < |t.left| ==> t'.left[k] == if k == p != NIL && t.left[p] == z then x else t.left[k])
    && (forall k :: 0 <= k < |t.left| ==> t'.right[k] == if k == p != NIL && t.left[p] != z then x else t.right[k])
    && (forall k :: 0 <= k < |t.left| ==> t'.parent[k] == if k == x then p else t.parent[k])
  }

  function Down(i: int, k: int): int { if i > k then i - 1 else i }

  ghost predicate Dropped(g: Layout, g': Layout, z: int)
    requires In(g, z) && 0 <= g.span[z].at < |g.order|
  {
    var k := g.span[z].at;
    && g'.order == g.order[..k] + g.order[k + 1..]
    && |g'.span| == |g.span|
    && g'.span[z] == Span(0, 0, 0)
    && forall n :: 0 <= n < |g.span| && n != z ==>
         g'.span[n] == Span(Down(g.span[n].lo, k), Down(g.span[n].at, k), Down(g.span[n].hi, k))
  }

  ghost function Drop(g: Layout, z: int): (g': Layout)
    requires In(g, z) && 0 <= g.span[z].at < |g.order|
    ensures Dropped(g, g', z)
  {
    var k := g.span[z].at;
    Layout(g.order[..k] + g.order[k + 1..],
           seq(|g.span|, i requires 0 <= i < |g.span| => if i == z then Span(0, 0, 0) else
             Span(Down(g.span[i].lo, k), Down(g.span[i].at, k), Down(g.span[i].hi, k))))
  }

  ghost predicate AroundSplice(t: Links, g: Layout, z: int, x: int, p: int) {
    && Sized(t, g) && In(g, z) && t.left[z] == NIL && x == t.right[z] && p == t.parent[z]
    && 0 <= x < |t.left| && 0 <= p < |t.left|
    && LinkOk(t, g, z) && (In(g, p) ==> LinkOk(t, g, p)) && (In(g, x) ==> LinkOk(t, g, x))
  }

  lemma SpliceTop(t: Links, g: Layout, t': Links, g': Layout, z: int, x: int, p: int)
    requires AroundSplice(t, g, z, x, p) && In(g, p)
    requires Spliced(t, t', z, x, p) && Dropped(g, g', z)
    requires forall m {:trigger In(g', m)} :: In(g', m) <==> In(g, m) && m != z
    ensures Sized(t', g') && LinkOk(t', g', p)
  {}

  lemma SpliceMid(t: Links, g: Layout, t': Links, g': Layout, z: int, x: int, p: int)
    requires AroundSplice(t, g, z, x, p) && In(g, x)
    requires Spliced(t, t', z, x, p) && Dropped(g, g', z)
    requires forall m {:trigger In(g', m)} :: In(g', m) <==> In(g, m) && m != z
    ensures Sized(t', g') && LinkOk(t', g', x)
  {}

  lemma SpliceFar(t: Links, g: Layout, t': Links, g': Layout, z: int, x: int, p: int, n: int)
    requires AroundSplice(t, g, z, x, p) && In(g, n) && n != z && LinkOk(t, g, n)
    requires Spliced(t, t', z, x, p) && Dropped(g, g', z)
    requires n != p && n != x
    requires forall m {:trigger In(g', m)} :: In(g', m) <==> In(g, m) && m != z
    ensures Sized(t', g') && LinkOk(t', g', n)
  {
    hide LeftOk, RightOk, UpOk;
    SpliceFarLeft(t, g, t', g', z, x, p, n);
    SpliceFarRight(t, g, t', g', z, x, p, n);
    SpliceFarUp(t, g, t', g', z, x, p, n);
  }

  lemma SpliceFarLeft(t: Links, g: Layout, t': Links, g': Layout, z: int, x: int, p: int, n: int)
    requires AroundSplice(t, g, z, x, p) && In(g, n) && n != z && LinkOk(t, g, n)
    requires Spliced(t, t', z, x, p) && Dropped(g, g', z)
    requires n != p && n != x
    requires forall m {:trigger In(g', m)} :: In(g', m) <==> In(g, m) && m != z
    ensures Sized(t', g') && LeftOk(t', g', n)
  {}

  lemma SpliceFarRight(t: Links, g: Layout, t': Links, g': Layout, z: int, x: int, p: int, n: int)
    requires AroundSplice(t, g, z, x, p) && In(g, n) && n != z && LinkOk(t, g, n)
    requires Spliced(t, t', z, x, p) && Dropped(g, g', z)
    requires n != p && n != x
    requires forall m {:trigger In(g', m)} :: In(g', m) <==> In(g, m) && m != z
    ensures Sized(t', g') && RightOk(t', g', n)
  {}

  lemma SpliceFarUp(t: Links, g: Layout, t': Links, g': Layout, z: int, x: int, p: int, n: int)
    requires AroundSplice(t, g, z, x, p) && In(g, n) && n != z && LinkOk(t, g, n)
    requires Spliced(t, t', z, x, p) && Dropped(g, g', z)
    requires n != p && n != x
    requires forall m {:trigger In(g', m)} :: In(g', m) <==> In(g, m) && m != z
    ensures Sized(t', g') && UpOk(t', g', n)
  {}

  lemma DroppedIn(t: Links, g: Layout, g': Layout, z: int)
    requires Sized(t, g) && Linked(t, g) && In(g, z) && 0 <= g.span[z].at < |g.order| && Dropped(g, g', z)
    ensures forall m {:trigger In(g', m)} :: In(g', m) <==> In(g, m) && m != z
  {
    assert LinkOk(t, g, z);
    forall m | In(g, m) && m != z ensures In(g', m) {
      assert LinkOk(t, g, m);
    }
  }

  lemma SpliceOrdered(t: Links, g: Layout, t': Links, g': Layout, z: int, x: int, p: int)
    requires AroundSplice(t, g, z, x, p)
    requires Spliced(t, t', z, x, p) && Dropped(g, g', z)
    requires Ordered(g) && Rooted(t, g)
    requires forall m {:trigger In(g', m)} :: In(g', m) <==> In(g, m) && m != z
    ensures Ordered(g') && Rooted(t', g')
  {
    forall i | 0 <= i < |g'.order|
      ensures In(g', g'.order[i]) && g'.span[g'.order[i]].at == i
    {
      var k := g.span[z].at;
      assert g'.order[i] == g.order[if i < k then i else i + 1];
    }
  }

  lemma SpliceLinked(t: Links, g: Layout, t': Links, g': Layout, z: int, x: int, p: int)
    requires AroundSplice(t, g, z, x, p) && Linked(t, g)
    requires Spliced(t, t', z, x, p) && Dropped(g, g', z) && Sized(t', g')
    requires forall m {:trigger In(g', m)} :: In(g', m) <==> In(g, m) && m != z
    ensures Linked(t', g')
  {
    hide Spliced, Dropped, LinkOk;
    forall n | In(g', n) ensures LinkOk(t', g', n) {
      assert LinkOk(t, g, n);
      if n == p { SpliceTop(t, g, t', g', z, x, p); }
      else if n == x { SpliceMid(t, g, t', g', z, x, p); }
      else { SpliceFar(t, g, t', g', z, x, p, n); }
    }
  }

  lemma SpliceShape(t: Links, g: Layout, t': Links, z: int, x: int, p: int) returns (g': Layout)
    requires Shape(t, g) && In(g, z) && t.left[z] == NIL && x == t.right[z] && p == t.parent[z]
    requires 0 <= x < |t.left| && 0 <= p < |t.left|
    requires Spliced(t, t', z, x, p)
    ensures Shape(t', g')
    ensures In(g, z) && 0 <= g.span[z].at < |g.order| && Dropped(g, g', z)
    ensures forall n {:trigger In(g', n)} :: In(g', n) <==> In(g, n) && n != z
  {
    hide Drop;
    assert LinkOk(t, g, z);
    assert AroundSplice(t, g, z, x, p);
    g' := Drop(g, z);
    DroppedIn(t, g, g', z);
    SpliceOrdered(t, g, t', g', z, x, p);
    SpliceLinked(t, g, t', g', z, x, p);
  }

  // ----- putting a detached node y in the place of z -----

  ghost predicate Substituted(t: Links, t': Links, z: int, y: int)
    requires 0 <= z < |t.left| && 0 <= y < |t.left| && |t.left| == |t.right| == |t.parent|
  {
    var p, l, r := t.parent[z], t.left[z], t.right[z];
    && t'.root == (if p == NIL then y else t.root)
    && |t'.left| == |t'.right| == |t'.parent| == |t.left|
    && (forall k :: 0 < k < |t.left| && k != z ==>
      t'.left[k] == if k == y then l else if k == p && t.left[k] == z then y else t.left[k])
    && (forall k :: 0 < k < |t.left| && k != z ==>
      t'.right[k] == if k == y then r else if k == p && t.left[k] != z then y else t.right[k])
    && (forall k :: 0 <= k < |t.left| && k != z ==>
      t'.parent[k] == if k == y then p else if (k == l != NIL) || k == r then y else t.parent[k])
  }

  ghost predicate Renamed(g: Layout, g': Layout, z: int, y: int)
    requires In(g, z) && 0 <= g.span[z].at < |g.order| && 0 < y < |g.span|
  {
    && g'.order == g.order[g.span[z].at := y]
    && |g'.span| == |g.span|
    && forall n :: 0 <= n < |g.span| ==>
      g'.span[n] == if n == z then Span(0, 0, 0) else if n == y then g.span[z] else g.span[n]
  }

  lemma SubstituteAt(t: Links, g: Layout, t': Links, g': Layout, z: int, y: int, n: int)
    requires Sized(t, g) && In(g, z) && LinkOk(t, g, z) && 0 < y < |t.left| && y != z && !In(g, y)
    requires In(g, n) && LinkOk(t, g, n) && n != z
    requires Substituted(t, t', z, y) && Renamed(g, g', z, y)
    ensures Sized(t', g') && LinkOk(t', g', n)
  {}

  lemma SubstituteNew(t: Links, g: Layout, t': Links, g': Layout, z: int, y: int)
    requires Sized(t, g) && In(g, z) && LinkOk(t, g, z) && 0 < y < |t.left| && y != z && !In(g, y)
    requires (In(g, t.parent[z]) ==> LinkOk(t, g, t.parent[z])) && t.root != y
    requires Substituted(t, t', z, y) && Renamed(g, g', z, y)
    ensures Sized(t', g') && In(g', y) && LinkOk(t', g', y)
  {}

  lemma SubstituteOrdered(t: Links, g: Layout, t': Links, g': Layout, z: int, y: int)
    requires Sized(t, g) && In(g, z) && LinkOk(t, g, z) && 0 < y < |t.left| && y != z && !In(g, y)
    requires Substituted(t, t', z, y) && Renamed(g, g', z, y) && Ordered(g) && Rooted(t, g)
    ensures Ordered(g') && Rooted(t', g')
  {}

  lemma SubstituteShape(t: Links, g: Layout, t': Links, z: int, y: int) returns (g': Layout)
    requires Shape(t, g) && In(g, z) && 0 < y < |t.left| && y != z && !In(g, y)
    requires Substituted(t, t', z, y)
    ensures Shape(t', g') && LinkOk(t, g, z)
    ensures g'.order == g.order[g.span[z].at := y]
    ensures forall n :: In(g', n) <==> (In(g, n) && n != z) || n == y
  {
    hide Renamed, Substituted, Ordered, Rooted, LinkOk, Rename;
    assert LinkOk(t, g, z);
    SpotInRange(t, g, z);
    RootInTree(t, g);
    g' := Rename(g, z, y);
    RenamedIn(g, g', z, y);
    SubstitutedSizes(t, t', z, y);
    assert In(g, t.parent[z]) ==> LinkOk(t, g, t.parent[z]);
    SubstituteOrdered(t, g, t', g', z, y);
    forall n | In(g, n) && n != z ensures LinkOk(t', g', n) {
      assert LinkOk(t, g, n);
      SubstituteAt(t, g, t', g', z, y, n);
    }
    SubstituteNew(t, g, t', g', z, y);
  }

  lemma SpotInRange(t: Links, g: Layout, n: int)
    requires Sized(t, g) && In(g, n) && LinkOk(t, g, n)
    ensures 0 <= g.span[n].at < |g.order| && 0 <= t.parent[n] < |t.left|
  {}

  lemma RootInTree(t: Links, g: Layout)
    requires Rooted(t, g) && g.order != []
    ensures In(g, t.root)
  {}

  lemma SubstitutedSizes(t: Links, t': Links, z: int, y: int)
    requires 0 <= z < |t.left| && 0 <= y < |t.left| && |t.left| == |t.right| == |t.parent| && Substituted(t, t', z, y)
    ensures |t'.left| == |t'.right| == |t'.parent| == |t.left|
  {}

  ghost function Rename(g: Layout, z: int, y: int): (g': Layout)
    requires In(g, z) && 0 <= g.span[z].at < |g.order| && 0 < y < |g.span|
    ensures Renamed(g, g', z, y)
  {
    Layout(g.order[g.span[z].at := y],
      seq(|g.span|,
        i requires 0 <= i < |g.span| => if i == z then Span(0, 0, 0) else if i == y then g.span[z] else g.span[i]))
  }

  lemma RenamedIn(g: Layout, g': Layout, z: int, y: int)
    requires In(g, z) && 0 <= g.span[z].at < |g.order| && 0 < y < |g.span| && y != z && !In(g, y)
    requires Renamed(g, g', z, y)
    ensures |g'.span| == |g.span| && g'.order == g.order[g.span[z].at := y]
    ensures forall n :: In(g', n) <==> (In(g, n) && n != z) || n == y
  {}

  // ----- hanging a new leaf z to the left of y -----

  ghost predicate Attached(t: Links, t': Links, z: int, y: int)
    requires 0 <= z < |t.left| && 0 <= y < |t.left| && |t.left| == |t.right| == |t.parent|
  {
    && t'.root == t.root
    && |t'.left| == |t'.right| == |t'.parent| == |t.left|
    && (forall k :: 0 <= k < |t.left| ==> t'.left[k] == if k == z then NIL else if k == y then z else t.left[k])
    && (forall k :: 0 <= k < |t.left| ==> t'.right[k] == if k == z then NIL else t.right[k])
    && (forall k :: 0 <= k < |t.left| ==> t'.parent[k] == if k == z then y else t.parent[k])
  }

  function Up(i: int, k: int): int { if i > k then i + 1 else i }

  ghost predicate Grown(g: Layout, g': Layout, z: int, k: int)
    requires 0 < z < |g.span| && 0 <= k < |g.order|
  {
    && g'.order == g.order[..k] + [z] + g.order[k..]
    && |g'.span| == |g.span|
    && g'.span[z] == Span(k, k, k + 1)
    && forall n :: 0 <= n < |g.span| && n != z ==>
         g'.span[n] == Span(Up(g.span[n].lo, k), Up(g.span[n].at, k - 1), Up(g.span[n].hi, k))
  }

  ghost predicate AroundAttach(t: Links, g: Layout, z: int, y: int) {
    && Sized(t, g) && 0 < z < |t.left| && !In(g, z) && In(g, y) && LinkOk(t, g, y) && t.left[y] == NIL && t.root != z
  }

  lemma AttachAt(t: Links, g: Layout, t': Links, g': Layout, z: int, y: int, n: int)
    requires AroundAttach(t, g, z, y) && In(g, n) && LinkOk(t, g, n)
    requires Attached(t, t', z, y) && Grown(g, g', z, g.span[y].at)
    requires forall m {:trigger In(g', m)} :: In(g', m) <==> In(g, m) || m == z
    ensures Sized(t', g') && LinkOk(t', g', n)
  {}

  lemma AttachLeaf(t: Links, g: Layout, t': Links, g': Layout, z: int, y: int)
    requires AroundAttach(t, g, z, y)
    requires Attached(t, t', z, y) && Grown(g, g', z, g.span[y].at)
    requires forall m {:trigger In(g', m)} :: In(g', m) <==> In(g, m) || m == z
    ensures Sized(t', g') && LinkOk(t', g', z)
  {}

  lemma GrownIn(t: Links, g: Layout, t': Links, g': Layout, z: int, y: int)
    requires AroundAttach(t, g, z, y) && Linked(t, g) && Ordered(g) && Rooted(t, g)
    requires Attached(t, t', z, y) && Grown(g, g', z, g.span[y].at)
    ensures forall m {:trigger In(g', m)} :: In(g', m) <==> In(g, m) || m == z
    ensures Ordered(g') && Rooted(t', g')
  {
    var k := g.span[y].at;
    forall i | 0 <= i < |g'.order|
      ensures In(g', g'.order[i]) && g'.span[g'.order[i]].at == i
    {
      assert g'.order[i] == if i < k then g.order[i] else if i == k then z else g.order[i - 1];
    }
    assert LinkOk(t, g, t.root);
  }

  lemma AttachShape(t: Links, g: Layout, t': Links, z: int, y: int) returns (g': Layout)
    requires Shape(t, g) && 0 < z < |t.left| && !In(g, z) && In(g, y) && t.left[y] == NIL
    requires Attached(t, t', z, y)
    ensures Shape(t', g') && LinkOk(t, g, y) && Grown(g, g', z, g.span[y].at)
    ensures forall n :: In(g', n) <==> In(g, n) || n == z
  {
    assert LinkOk(t, g, y);
    var k := g.span[y].at;
    g' := Layout(g.order[..k] + [z] + g.order[k..],
                 seq(|g.span|, i requires 0 <= i < |g.span| => if i == z then Span(k, k, k + 1) else
                   Span(Up(g.span[i].lo, k), Up(g.span[i].at, k - 1), Up(g.span[i].hi, k))));
    assert Grown(g, g', z, k);
    GrownIn(t, g, t', g', z, y);
    hide Attached, Grown, LinkOk, Ordered, Rooted;
    forall n | In(g, n) ensures LinkOk(t', g', n) {
      assert LinkOk(t, g, n);
      AttachAt(t, g, t', g', z, y, n);
    }
    AttachLeaf(t, g, t', g', z, y);
  }
}
