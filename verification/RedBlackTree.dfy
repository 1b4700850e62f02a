// The red-black tree: every insert and delete keeps order, links, colours and black heights.
module RedBlackTree {
  import opened Basics
  import opened RedBlackShape
  import opened RedBlackBalance

  datatype Key = Key(deadline: int, id: nat)

  ghost predicate IsOrder(less: (Key, Key) -> bool) {
    && (forall a, b :: less(a, b) ==> !less(b, a))
    && (forall a, b, c :: !less(b, a) && !less(c, b) ==> !less(c, a))
  }

  ghost predicate Sorted(less: (Key, Key) -> bool, key: seq<Key>, order: seq<int>) {
    && (forall i :: 0 <= i < |order| ==> 0 <= order[i] < |key|)
    && (forall i, j :: 0 <= i < j < |order| ==> !less(key[order[j]], key[order[i]]))
  }

  ghost predicate Same(g: Layout, g': Layout) {
    g'.order == g.order && forall n {:trigger In(g', n)} :: In(g', n) <==> In(g, n)
  }

  // A left rotation at x touches distinct nodes; for a right rotation apply it to the mirror image.
  predicate Turns(t: Links, x: int) {
    && |t.left| == |t.right| == |t.parent| && 0 < x < |t.left|
    && 0 < t.right[x] < |t.left| && 0 <= t.parent[x] < |t.left| && 0 <= t.left[t.right[x]] < |t.left|
    && t.right[x] != x && t.left[t.right[x]] != x && t.left[t.right[x]] != t.right[x]
    && t.parent[x] != x && t.parent[x] != t.right[x]
  }

  lemma TurnsOk(t: Links, g: Layout, x: int)
    requires Shape(t, g) && In(g, x)
    ensures Kids(t, x) && 0 <= t.parent[x] < |t.left|
    ensures t.right[x] != NIL ==> Turns(t, x)
    ensures t.left[x] != NIL ==> Turns(Mirror(t), x)
  {
    assert LinkOk(t, g, x);
    if t.right[x] != NIL { assert LinkOk(t, g, t.right[x]); }
    if t.left[x] != NIL { assert LinkOk(t, g, t.left[x]); }
    if t.parent[x] != NIL { assert LinkOk(t, g, t.parent[x]); }
  }

  // Facts about a red node z under a red parent.
  lemma RedParent(t: Links, g: Layout, c: Paint, z: int)
    requires Inv(t, g, c, z, false) && In(g, z) && 0 <= t.parent[z] < |t.left| && c.red[t.parent[z]]
    ensures In(g, t.parent[z]) && t.parent[z] != t.root && LinkOk(t, g, t.parent[z]) && LinkOk(t, g, z)
    ensures z != t.parent[z]
    ensures var q := t.parent[t.parent[z]]; In(g, q) && LinkOk(t, g, q) && !c.red[q] && q != t.parent[z] && q != z
    ensures Kids(t, t.parent[z]) && Kids(t, t.parent[t.parent[z]]) && 0 <= t.parent[t.parent[t.parent[z]]] < |t.left|
    ensures Kids(t, z)
    ensures var p := t.parent[z]; (t.left[p] != z ==> !c.red[t.left[p]]) && (t.right[p] != z ==> !c.red[t.right[p]])
  {
    assert LinkOk(t, g, z);
    var p := t.parent[z];
    assert LinkOk(t, g, p) && Local(t, c, z, false, p);
    assert LinkOk(t, g, t.parent[p]) && Local(t, c, z, false, t.parent[p]);
  }

  lemma FlipBack(t: Links, gm: Layout, c: Paint, z: int, hole: bool) returns (g: Layout)
    requires Inv(Mirror(t), gm, c, z, hole)
    ensures Inv(t, g, c, z, hole) && g.order == Reverse(gm.order)
    ensures forall n {:trigger In(g, n)} :: In(g, n) <==> In(gm, n)
  {
    MirrorInv(Mirror(t), gm, c, z, hole);
    g := MirrorLayout(gm);
  }

  lemma OuterCase(t: Links, g: Layout, c: Paint, t': Links, z: int, p: int, q: int) returns (g': Layout)
    requires Inv(t, g, c, z, false) && In(g, z) && p == t.parent[z] && In(g, p) && q == t.parent[p] && In(g, q)
    requires 0 <= t.parent[q] < |t.left| && Kids(t, p) && Kids(t, q)
    requires c.red[p] && t.right[p] == z && t.right[q] == p && !c.red[t.left[q]]
    requires RotatedLeft(t, t', q, p, t.left[p], t.parent[q])
    ensures Inv(t', g', Swap(c, q, p), z, false) && |t'.parent| == |t'.left| == |t.left| && t'.parent[z] == p
    ensures !Swap(c, q, p).red[p] && Swap(c, q, p).red[z] == c.red[z] && |Swap(c, q, p).red| == |t.left|
    ensures g'.order == g.order && forall n {:trigger In(g', n)} :: In(g', n) <==> In(g, n)
  {
    RedParent(t, g, c, z);
    g' := RotateSwap(t, g, c, t', Swap(c, q, p), q, p, t.left[p], t.parent[q], z, false);
  }

  lemma OuterCaseMirror(t: Links, g: Layout, c: Paint, t': Links, z: int, p: int, q: int) returns (g': Layout)
    requires Inv(t, g, c, z, false) && In(g, z) && p == t.parent[z] && In(g, p) && q == t.parent[p] && In(g, q)
    requires 0 <= t.parent[q] < |t.left| && Kids(t, p) && Kids(t, q)
    requires c.red[p] && t.left[p] == z && t.left[q] == p && !c.red[t.right[q]]
    requires RotatedLeft(Mirror(t), Mirror(t'), q, p, t.right[p], t.parent[q])
    ensures Inv(t', g', Swap(c, q, p), z, false) && |t'.parent| == |t'.left| == |t.left| && t'.parent[z] == p
    ensures !Swap(c, q, p).red[p] && Swap(c, q, p).red[z] == c.red[z] && |Swap(c, q, p).red| == |t.left|
    ensures g'.order == g.order && forall n {:trigger In(g', n)} :: In(g', n) <==> In(g, n)
  {
    MirrorInv(t, g, c, z, false);
    hide Inv, RotatedLeft;
    var gm := OuterCase(Mirror(t), MirrorLayout(g), c, Mirror(t'), z, p, q);
    g' := FlipBack(t', gm, Swap(c, q, p), z, false);
    MirrorOrder(g);
  }

  lemma RotateRedMirror(t: Links, g: Layout, c: Paint, t': Links, x: int, y: int, b: int, p: int) returns (g': Layout)
    requires Inv(t, g, c, y, false) && In(g, x) && y == t.left[x] && 0 < y < |t.left| && b == t.right[y]
    requires p == t.parent[x]
    requires 0 <= p < |t.left| && 0 <= b < |t.left| && x != t.root
    requires RotatedLeft(Mirror(t), Mirror(t'), x, y, b, p) && c.red[x] && c.red[y]
    ensures Inv(t', g', c, x, false) && Same(g, g')
  {
    MirrorInv(t, g, c, y, false);
    hide Inv, RotatedLeft;
    var gm := RotateRed(Mirror(t), MirrorLayout(g), c, Mirror(t'), x, y, b, p);
    g' := FlipBack(t', gm, c, x, false);
    MirrorOrder(g);
  }

  lemma RotateSwapMirror(t: Links, g: Layout, c: Paint, t': Links, c': Paint, x: int, y: int, b: int, p: int, z: int,
          hole: bool) returns (g': Layout)
    requires Inv(t, g, c, z, hole) && In(g, x) && y == t.left[x] && 0 < y < |t.left| && b == t.right[y]
    requires p == t.parent[x]
    requires 0 <= p < |t.left| && 0 <= b < |t.left| && 0 <= t.right[x] < |t.left|
    requires RotatedLeft(Mirror(t), Mirror(t'), x, y, b, p)
    requires !c.red[x] && c.red[y] && !c.red[b] && !c.red[t.right[x]] && c' == Swap(c, x, y)
    requires z != x && z != y && (hole ==> t.parent[z] != y && (t.parent[z] == x ==> z != b) && !c.red[z])
    ensures Inv(t', g', c', z, hole) && Same(g, g')
  {
    MirrorInv(t, g, c, z, hole);
    hide Inv, RotatedLeft;
    var gm := RotateSwap(Mirror(t), MirrorLayout(g), c, Mirror(t'), c', x, y, b, p, z, hole);
    g' := FlipBack(t', gm, c', z, hole);
    MirrorOrder(g);
  }

  lemma RotateLastMirror(t: Links, g: Layout, c: Paint, t': Links, c': Paint, x: int, y: int, b: int, p: int,
          z: int) returns (g': Layout)
    requires Inv(t, g, c, z, true) && In(g, x) && y == t.left[x] && 0 < y < |t.left| && b == t.right[y]
    requires p == t.parent[x]
    requires 0 <= p < |t.left| && 0 <= b < |t.left| && t.right[x] == z && t.parent[z] == x && z != t.root && !c.red[z]
    requires RotatedLeft(Mirror(t), Mirror(t'), x, y, b, p)
    requires 0 <= t.left[y] < |t.left| && !c.red[y] && c.red[t.left[y]] && c' == Last(c, x, y, t.left[y])
    ensures Inv(t', g', c', NIL, false) && Same(g, g')
  {
    MirrorInv(t, g, c, z, true);
    hide Inv, RotatedLeft;
    var gm := RotateLast(Mirror(t), MirrorLayout(g), c, Mirror(t'), c', x, y, b, p, z);
    g' := FlipBack(t', gm, c', NIL, false);
    MirrorOrder(g);
  }

  // The neighbourhood of a short black node z other than the root: its sibling exists.
  lemma Sibling(t: Links, g: Layout, c: Paint, z: int)
    requires Inv(t, g, c, z, true) && z != t.root && !c.red[z]
    ensures var p := t.parent[z];
      In(g, p) && Kids(t, p) && t.left[p] != t.right[p] && (t.left[p] == z || t.right[p] == z)
    ensures Size(g, z) < Size(g, t.parent[z]) <= |g.order|
    ensures var p := t.parent[z]; var w := if t.left[p] == z then t.right[p] else t.left[p];
      In(g, w) && t.parent[w] == p && Kids(t, w) && w != z && p != t.left[w] && p != t.right[w] && w != p
      && (c.red[w] ==>
        !c.red[p] && t.left[w] != NIL && t.right[w] != NIL && !c.red[t.left[w]] && !c.red[t.right[w]]
        && z != t.left[w] && z != t.right[w])
  {
    var p := t.parent[z];
    assert LinkOk(t, g, p) && Local(t, c, z, true, p);
    var w := if t.left[p] == z then t.right[p] else t.left[p];
    assert LinkOk(t, g, w) && Local(t, c, z, true, w);
    if t.left[w] != NIL { assert LinkOk(t, g, t.left[w]); }
    if t.right[w] != NIL { assert LinkOk(t, g, t.right[w]); }
    SizeBelow(t, g, z, p);
  }

  lemma RedKid(t: Links, g: Layout, c: Paint, z: int, w: int, r: int)
    requires Inv(t, g, c, z, true) && In(g, w) && (r == t.left[w] || r == t.right[w]) && 0 <= r < |t.left| && c.red[r]
    requires r != z && z != w
    ensures In(g, r) && t.parent[r] == w && Kids(t, r) && 0 <= t.parent[w] < |t.left|
    ensures r != w && (t.left[r] != NIL ==> t.parent[t.left[r]] == r)
    ensures (t.right[r] != NIL ==> t.parent[t.right[r]] == r)
    ensures z != t.left[r] ==> !c.red[t.left[r]]
    ensures z != t.right[r] ==> !c.red[t.right[r]]
  {
    assert LinkOk(t, g, w) && LinkOk(t, g, r) && Local(t, c, z, true, r);
  }

  // Where the short node z finds its sibling after the rotation at w.
  lemma NewSibling(t: Links, t': Links, z: int, p: int, w: int, y: int, b: int)
    requires |t.left| == |t.right| == |t.parent| && 0 <= z < |t.left| && 0 < p < |t.left| && 0 < w < |t.left|
    requires 0 < y < |t.left| && 0 <= b < |t.left|
    requires RotatedLeft(t, t', w, y, b, p) && z != w && z != y && p != w && p != y && w != y && (b != NIL ==> z != b)
    ensures |t'.left| == |t.left| && t'.root == t.root && t'.parent[z] == t.parent[z] && t'.left[y] == w
    ensures t.left[p] == w ==> t'.left[p] == y && t'.right[p] == t.right[p]
    ensures t.left[p] != w ==> t'.right[p] == y && t'.left[p] == t.left[p]
  {}

  // z is the short left child of p; its black sibling w has a red left child y and a black right child.
  ghost predicate NearRed(t: Links, g: Layout, c: Paint, z: int, p: int, w: int, y: int, b: int) {
    && Inv(t, g, c, z, true) && z != t.root && !c.red[z] && p == t.parent[z] && 0 <= p < |t.left| && t.left[p] == z
    && w == t.right[p] && 0 <= w < |t.left| && Kids(t, w) && !c.red[w] && y == t.left[w] && c.red[y]
      && !c.red[t.right[w]]
    && 0 <= t.right[y] < |t.left| && b == t.right[y]
  }

  lemma NearRedReady(t: Links, g: Layout, c: Paint, z: int, p: int, w: int, y: int)
    requires Inv(t, g, c, z, true) && z != t.root && !c.red[z] && p == t.parent[z] && 0 <= p < |t.left|
    requires t.left[p] == z
    requires w == t.right[p] && 0 <= w < |t.left| && Kids(t, w) && !c.red[w] && y == t.left[w] && c.red[y]
    requires !c.red[t.right[w]]
    ensures 0 <= t.right[y] < |t.left| && NearRed(t, g, c, z, p, w, y, t.right[y]) && Turns(Mirror(t), w)
    ensures t.parent[w] == p
  {
    Sibling(t, g, c, z);
    RedKid(t, g, c, z, w, y);
    TurnsOk(t, g, w);
  }

  lemma NearRedStep(t: Links, g: Layout, c: Paint, t': Links, z: int, p: int, w: int, y: int,
          b: int) returns (g': Layout)
    requires NearRed(t, g, c, z, p, w, y, b) && RotatedLeft(Mirror(t), Mirror(t'), w, y, b, p)
    ensures Inv(t', g', Swap(c, w, y), z, true) && Same(g, g') && |t'.left| == |t.left|
    ensures t'.root == t.root && t'.parent[z] == p && t'.left[p] == z && t'.right[p] == y && t'.right[y] == w
    ensures !Swap(c, w, y).red[z] && Swap(c, w, y).red[w] && !Swap(c, w, y).red[y]
  {
    Sibling(t, g, c, z);
    RedKid(t, g, c, z, w, y);
    NewSibling(Mirror(t), Mirror(t'), z, p, w, y, b);
    hide RotatedLeft, Inv;
    g' := RotateSwapMirror(t, g, c, t', Swap(c, w, y), w, y, b, p, z, true);
  }

  lemma NearRedStepMirror(t: Links, g: Layout, c: Paint, t': Links, z: int, p: int, w: int, y: int,
          b: int) returns (g': Layout)
    requires NearRed(Mirror(t), MirrorLayout(g), c, z, p, w, y, b) && RotatedLeft(t, t', w, y, b, p)
    ensures Inv(t', g', Swap(c, w, y), z, true) && Same(g, g') && |t'.left| == |t.left|
    ensures t'.root == t.root && t'.parent[z] == p && t'.right[p] == z && t'.left[p] == y && t'.left[y] == w
    ensures !Swap(c, w, y).red[z] && Swap(c, w, y).red[w] && !Swap(c, w, y).red[y]
    requires forall n {:trigger In(MirrorLayout(g), n)} :: In(MirrorLayout(g), n) <==> In(g, n)
  {
    hide RotatedLeft;
    var gm := NearRedStep(Mirror(t), MirrorLayout(g), c, Mirror(t'), z, p, w, y, b);
    MirrorOrder(g);
    g' := FlipBack(t', gm, Swap(c, w, y), z, true);
  }

  // No hole at all is the same as a hole at the root.
  lemma HoleAtRoot(t: Links, g: Layout, c: Paint)
    requires Inv(t, g, c, NIL, false)
    ensures Inv(t, g, c, t.root, true)
  {
    forall n | In(g, n) ensures Local(t, c, t.root, true, n) { assert Local(t, c, NIL, false, n) && LinkOk(t, g, n); }
  }

  lemma PushRedStep(t: Links, g: Layout, c: Paint, z: int)
    requires Inv(t, g, c, z, false) && In(g, z) && 0 <= t.parent[z] < |t.left| && c.red[t.parent[z]]
    requires 0 <= t.parent[t.parent[z]] < |t.left|
    requires var q := t.parent[t.parent[z]]; Kids(t, q) && c.red[t.left[q]] && c.red[t.right[q]]
    ensures var q := t.parent[t.parent[z]];
      In(g, q) && (t.left[q] == t.parent[z] || t.right[q] == t.parent[z]) && 0 <= t.parent[q] < |t.left|
    ensures var q := t.parent[t.parent[z]]; q != t.left[q] && q != t.right[q] && Size(g, z) < Size(g, q) <= |g.order|
    ensures var q := t.parent[t.parent[z]]; Inv(t, g, PushRed(c, q, t.left[q], t.right[q]), q, false)
  {
    RedParent(t, g, c, z);
    var p := t.parent[z];
    var q := t.parent[p];
    SizeBelow(t, g, z, p);
    SizeBelow(t, g, p, q);
    PushRedInv(t, g, c, PushRed(c, q, t.left[q], t.right[q]), z, q);
  }

  function Size(g: Layout, n: int): int { if In(g, n) then g.span[n].hi - g.span[n].lo else 0 }

  lemma SizeBelow(t: Links, g: Layout, x: int, p: int)
    requires Shape(t, g) && In(g, p) && (t.left[p] == x || t.right[p] == x)
    ensures Size(g, x) < Size(g, p) <= |g.order|
  {
    assert LinkOk(t, g, p);
    if x != NIL { assert LinkOk(t, g, x); }
  }

  function Insertion<T>(s: seq<T>, k: int, e: T): (r: seq<T>)
    requires 0 <= k <= |s|
    ensures |r| == |s| + 1
    ensures forall i {:trigger r[i]} :: 0 <= i <= |s| ==> r[i] == if i < k then s[i] else if i == k then e else s[i - 1]
  { s[..k] + [e] + s[k..] }

  lemma ReverseWithout(s: seq<int>, k: int)
    requires 0 <= k < |s|
    ensures Reverse(Cut(Reverse(s), |s| - 1 - k)) == Cut(s, k)
  {}

  lemma ReverseInsertion(s: seq<int>, k: int, e: int)
    requires 0 <= k <= |s|
    ensures Reverse(Insertion(Reverse(s), |s| - k, e)) == Insertion(s, k, e)
  {}

  lemma SpliceFlipped(t: Links, g: Layout, c: Paint, z: int)
    requires Inv(t, g, c, NIL, false) && In(g, z)
    ensures var m := MirrorLayout(g);
      Inv(Mirror(t), m, c, NIL, false) && m.order == Reverse(g.order) && forall n :: In(m, n) <==> In(g, n)
    ensures 0 <= g.span[z].at < |g.order| && 0 <= z < |MirrorLayout(g).span|
    ensures MirrorLayout(g).span[z].at == |g.order| - 1 - g.span[z].at
    ensures |t.left| == |t.right| == |t.parent| == |c.red| && 0 <= z < |t.left|
  {
    InvSizes(t, g, c, NIL, false);
    MirrorInv(t, g, c, NIL, false);
    assert LinkOk(t, g, z);
  }

  // Splicing out z when it has no right child.
  lemma SpliceInvMirror(t: Links, g: Layout, c: Paint, t': Links, z: int, x: int, p: int) returns (g': Layout)
    requires Inv(t, g, c, NIL, false) && In(g, z) && t.right[z] == NIL && x == t.left[z] && p == t.parent[z]
    requires 0 <= x < |t.left| && 0 <= p < |t.left| && Spliced(Mirror(t), Mirror(t'), z, x, p)
    ensures if c.red[z] then Inv(t', g', c, NIL, false) && x == NIL && t'.root == t.root else Inv(t', g', c, x, true)
    ensures 0 <= g.span[z].at < |g.order| && g'.order == Cut(g.order, g.span[z].at)
    ensures forall n {:trigger In(g', n)} :: In(g', n) <==> In(g, n) && n != z
  {
    hide Inv, Spliced, Flip, In;
    var m := MirrorLayout(g);
    SpliceFlipped(t, g, c, z);
    ReverseWithout(g.order, g.span[z].at);
    var gm := SpliceInv(Mirror(t), m, c, Mirror(t'), z, x, p);
    if c.red[z] { g' := FlipBack(t', gm, c, NIL, false); }
    else { g' := FlipBack(t', gm, c, x, true); }
  }

  function Splice(t: Links, z: int, x: int, p: int): (t': Links)
    requires 0 <= z < |t.left| && 0 <= x < |t.left| && 0 <= p < |t.left| && |t.left| == |t.right| == |t.parent|
    ensures Spliced(t, t', z, x, p)
  {
    var u := t.(parent := t.parent[x := p]);
    if p == NIL then u.(root := x)
    else if t.left[p] == z then u.(left := t.left[p := x])
    else u.(right := t.right[p := x])
  }

  lemma SplicedMirror(t: Links, g: Layout, t': Links, z: int, x: int, p: int)
    requires Shape(t, g) && In(g, z) && p == t.parent[z] && 0 <= x < |t.left| && 0 <= p < |t.left|
    requires Spliced(t, t', z, x, p)
    ensures Spliced(Mirror(t), Mirror(t'), z, x, p)
  {
    assert LinkOk(t, g, z);
    if p != NIL { assert LinkOk(t, g, p); }
  }

  // The nodes named in the deletion of z with two children; y is the least node right of z.
  ghost predicate TwoChildren(t: Links, g: Layout, z: int, y: int) {
    && Sized(t, g) && In(g, z) && LinkOk(t, g, z) && t.left[z] != NIL && t.right[z] != NIL
    && In(g, y) && LinkOk(t, g, y) && t.left[y] == NIL && g.span[y].at == g.span[y].lo == g.span[z].at + 1
      && g.span[y].hi <= g.span[z].hi
    && In(g, t.left[z]) && LinkOk(t, g, t.left[z]) && In(g, t.right[z]) && LinkOk(t, g, t.right[z])
    && In(g, t.parent[y]) && LinkOk(t, g, t.parent[y])
    && (t.parent[z] != NIL ==> In(g, t.parent[z]) && LinkOk(t, g, t.parent[z]))
    && (t.right[y] != NIL ==> In(g, t.right[y]) && LinkOk(t, g, t.right[y]))
    && y != t.root && 0 <= t.root < |t.left|
  }

  lemma TwoChildrenOk(t: Links, g: Layout, z: int, y: int)
    requires Shape(t, g) && In(g, z) && t.left[z] != NIL && t.right[z] != NIL && In(g, y) && t.left[y] == NIL
    requires g.span[y].lo == g.span[y].at && In(g, t.right[z]) && g.span[y].lo == g.span[t.right[z]].lo
    requires g.span[y].hi <= g.span[t.right[z]].hi
    ensures TwoChildren(t, g, z, y)
  {
    assert LinkOk(t, g, z) && LinkOk(t, g, y) && LinkOk(t, g, t.left[z]) && LinkOk(t, g, t.right[z]);
    assert LinkOk(t, g, t.parent[y]);
    if t.parent[z] != NIL { assert LinkOk(t, g, t.parent[z]); }
    if t.right[y] != NIL { assert LinkOk(t, g, t.right[y]); }
  }

  // The pointer writes of the two-child deletion amount to splicing out y and putting it in the place of z.
  ghost predicate Moved(t: Links, t': Links, z: int, y: int)
    requires |t.left| == |t.right| == |t.parent| && 0 < z < |t.left| && 0 < y < |t.left|
  {
    var p, l, x, q := t.parent[z], t.left[z], t.right[y], t.parent[y];
    var r := if q == z then x else t.right[z];
    && |t'.left| == |t'.right| == |t'.parent| == |t.left|
    && t'.root == (if p == NIL then y else t.root)
    && (forall k :: 0 < k < |t.left| && k != z ==>
      t'.left[k] ==
      if k == y then l else if k == p && t.left[k] == z then y else if k == q && t.left[k] == y then x else t.left[k])
    && (forall k :: 0 < k < |t.left| && k != z ==>
      t'.right[k] == if k == y then r else if k == p && t.left[k] != z then y else t.right[k])
    && (forall k :: 0 <= k < |t.left| && k != z ==>
      t'.parent[k] == if k == y then p else if k == l || k == r then y else if k == x then q else t.parent[k])
  }

  predicate Apart(t: Links, z: int, y: int) {
    |t.left| == |t.right| == |t.parent| && 0 < z < |t.left| && 0 < y < |t.left| &&
    0 <= t.parent[z] < |t.left| && 0 < t.left[z] < |t.left| && 0 < t.right[z] < |t.left| &&
    0 <= t.right[y] < |t.left| && 0 < t.parent[y] < |t.left| && t.root != y &&
    var p, l, r, x, q := t.parent[z], t.left[z], t.right[z], t.right[y], t.parent[y];
    && y != z && y != l && y != p && z != l && z != r && z != p && l != r && p != l && p != r
    && x != y && x != z && x != l && (x != NIL ==> x != p && x != q && x != r) && q != y && q != l
    && (if q == z then r == y else t.left[q] == y && q != p && r != y && t.right[q] != y)
    && (p != NIL ==> (t.left[p] == z) != (t.right[p] == z))
  }

  lemma TwoChildrenApart(t: Links, g: Layout, z: int, y: int)
    requires TwoChildren(t, g, z, y)
    ensures Apart(t, z, y)
  {}

  ghost predicate Detached(t: Links, t': Links, z: int, y: int)
    requires |t.left| == |t.right| == |t.parent| && 0 < z < |t.left| && 0 < y < |t.left|
  {
    var x, q := t.right[y], t.parent[y];
    && |t'.left| == |t'.right| == |t'.parent| == |t.left| && t'.root == t.root
    && (forall k :: 0 <= k < |t.left| ==> t'.left[k] == if q != z && k == q then x else t.left[k])
    && (forall k :: 0 <= k < |t.left| ==> t'.right[k] == if q != z && k == y then t.right[z] else t.right[k])
    && (forall k :: 0 <= k < |t.left| ==> t'.parent[k] == if q == z then (if k == x then y else t.parent[k])
          else if k == t.right[z] then y else if k == x then q else t.parent[k])
  }

  lemma DetachedMoved(t: Links, t1: Links, t2: Links, t': Links, z: int, y: int)
    requires Apart(t, z, y) && Detached(t, t1, z, y) && t1.parent[z] == t.parent[z]
    requires Spliced(t1, t2, z, y, t1.parent[z])
    requires t'.root == t2.root && t'.right == t2.right && t'.left == t2.left[y := t2.left[z]]
    requires 0 <= t'.left[y] < |t.left|
    requires t'.parent == t2.parent[t'.left[y] := y]
    ensures Moved(t, t', z, y)
  {}

  lemma MovedIsSubstituted(t: Links, t': Links, z: int, y: int)
    requires Apart(t, z, y) && Moved(t, t', z, y)
    ensures Substituted(Splice(t, y, t.right[y], t.parent[y]), t', z, y)
  {}

  lemma DeleteInner(t: Links, g: Layout, c: Paint, t': Links, z: int, y: int) returns (g': Layout)
    requires Inv(t, g, c, NIL, false) && TwoChildren(t, g, z, y) && Moved(t, t', z, y) && !c.red[t.root]
    ensures if c.red[y] then Inv(t', g', Copy(c, y, z), NIL, false) && !Copy(c, y, z).red[t'.root]
            else Inv(t', g', Copy(c, y, z), t.right[y], true)
    ensures g'.order == Cut(g.order, g.span[z].at)
  {
    InnerSetup(t, g, t', z, y);
    var t1 := Splice(t, y, t.right[y], t.parent[y]);
    var g1 := InnerSpliced(t, g, c, t1, z, y);
    hide Splice, Substituted, Moved, TwoChildren, Inv, Copy;
    g' := SubstituteInv(t1, g1, c, t', z, y, if c.red[y] then NIL else t.right[y], !c.red[y]);
    SwapOut(g.order, g1.order, g'.order, g.span[z].at, y);
  }

  lemma InnerSpliced(t: Links, g: Layout, c: Paint, t1: Links, z: int, y: int) returns (g1: Layout)
    requires Inv(t, g, c, NIL, false) && In(g, y) && In(g, z) && y != z && t.left[y] == NIL
    requires 0 <= t.right[y] < |t.left| && 0 <= t.parent[y] < |t.left|
    requires 0 <= g.span[z].at && g.span[y].at == g.span[z].at + 1 < |g.order|
    requires Spliced(t, t1, y, t.right[y], t.parent[y])
    ensures Inv(t1, g1, c, if c.red[y] then NIL else t.right[y], !c.red[y])
    ensures g1.order == Cut(g.order, g.span[y].at) && In(g1, z) && !In(g1, y) && g1.span[z].at == g.span[z].at
  {
    g1 := SpliceInv(t, g, c, t1, y, t.right[y], t.parent[y]);
  }

  lemma InnerSetup(t: Links, g: Layout, t': Links, z: int, y: int)
    requires TwoChildren(t, g, z, y) && Moved(t, t', z, y)
    ensures 0 <= t.right[y] < |t.left| && 0 <= t.parent[y] < |t.left|
    ensures var t1 := Splice(t, y, t.right[y], t.parent[y]);
      && Substituted(t1, t', z, y) && t1.left[z] == t.left[z]
        && (t.right[y] == t1.right[z] ==> t1.parent[t.right[y]] == z)
      && |t1.left| == |t.left|
    ensures t'.root == (if t.parent[z] == NIL then y else t.root) && (t.parent[z] == NIL ==> z == t.root)
    ensures In(g, z) && In(g, y) && t.left[z] != NIL && t.left[y] == NIL && y != z && t.right[y] != z
    ensures 0 <= g.span[z].at && g.span[y].at == g.span[z].at + 1 < |g.order| && g.order[g.span[y].at] == y
  {
    TwoChildrenApart(t, g, z, y);
    MovedIsSubstituted(t, t', z, y);
  }

  lemma SwapOut(s: seq<int>, s1: seq<int>, s': seq<int>, k: int, y: int)
    requires 0 <= k < |s| - 1 && s[k + 1] == y && s1 == Cut(s, k + 1) && s' == s1[k := y]
    ensures s' == Cut(s, k)
  {}

  lemma SortedWithout(less: (Key, Key) -> bool, key: seq<Key>, order: seq<int>, k: int)
    requires Sorted(less, key, order) && 0 <= k < |order|
    ensures Sorted(less, key, Cut(order, k))
  {}

  // The places in the order where key v keeps the sequence sorted, new keys going behind equal ones.
  predicate Fits(less: (Key, Key) -> bool, key: seq<Key>, order: seq<int>, v: Key, k: int)
    requires forall i :: 0 <= i < |order| ==> 0 <= order[i] < |key|
  {
    && 0 <= k <= |order|
    && (forall i :: 0 <= i < k ==> !less(v, key[order[i]]))
    && (forall i :: k <= i < |order| ==> less(v, key[order[i]]))
  }

  lemma SortedInsertion(less: (Key, Key) -> bool, key: seq<Key>, order: seq<int>, z: int, k: int)
    requires IsOrder(less) && Sorted(less, key, order) && 0 <= z < |key| && Fits(less, key, order, key[z], k)
    ensures Sorted(less, key, Insertion(order, k, z))
  {}

  lemma AttachInvMirror(t: Links, g: Layout, c: Paint, t': Links, z: int, y: int) returns (g': Layout)
    requires Inv(t, g, c, NIL, false) && 0 < z < |t.left| && !In(g, z) && In(g, y) && t.right[y] == NIL
    requires Attached(Mirror(t), Mirror(t'), z, y)
    ensures Inv(t', g', Enter(c, z), z, false) && LinkOk(t, g, y) && g'.order == Insertion(g.order, g.span[y].at + 1, z)
    ensures forall n {:trigger In(g', n)} :: In(g', n) <==> In(g, n) || n == z
  {
    MirrorInv(t, g, c, NIL, false);
    assert LinkOk(t, g, y);
    var m := MirrorLayout(g);
    assert m.span[y].at == |g.order| - 1 - g.span[y].at;
    ReverseInsertion(g.order, g.span[y].at + 1, z);
    hide Inv, Attached, Flip;
    var gm := AttachInv(Mirror(t), m, c, Mirror(t'), z, y);
    g' := FlipBack(t', gm, Enter(c, z), z, false);
  }

  lemma InNonempty(t: Links, g: Layout)
    requires Shape(t, g)
    ensures forall n :: In(g, n) ==> |g.order| > 0
  {
    forall n | In(g, n) ensures |g.order| > 0 { assert LinkOk(t, g, n); }
  }

  lemma FirstInv(t: Links, g: Layout, c: Paint, t': Links, z: int) returns (g': Layout)
    requires Inv(t, g, c, NIL, false) && t.root == NIL && 0 < z < |t.left|
    requires t'.root == z && t'.left == t.left[z := NIL] && t'.right == t.right[z := NIL]
    requires t'.parent == t.parent[z := NIL]
    ensures Inv(t', g', Enter(c, z), z, false) && g.order == [] && g'.order == [z]
  {
    InNonempty(t, g);
    g' := Layout([z], g.span[z := Span(0, 0, 1)]);
    forall n | In(g', n) ensures n == z { assert !In(g, n); }
    assert LinkOk(t', g', z) && Local(t', Enter(c, z), z, false, z);
  }

  // A fresh node outside the tree.
  function Wider(t: Links): Links { Links(t.root, t.left + [NIL], t.right + [NIL], t.parent + [NIL]) }

  lemma WiderAt(t: Links, g: Layout, c: Paint, n: int)
    requires Sized(t, g) && Painted(t, c) && In(g, n) && LinkOk(t, g, n) && Local(t, c, NIL, false, n)
    ensures LinkOk(Wider(t), Layout(g.order, g.span + [Span(0, 0, 0)]), n)
    ensures Local(Wider(t), Paint(c.red + [false], c.bh + [0]), NIL, false, n)
  {}

  lemma WiderInv(t: Links, g: Layout, c: Paint) returns (g': Layout)
    requires Inv(t, g, c, NIL, false)
    ensures Inv(Wider(t), g', Paint(c.red + [false], c.bh + [0]), NIL, false)
    ensures g'.order == g.order && (forall n {:trigger In(g', n)} :: In(g', n) <==> In(g, n)) && !In(g', |t.left|)
    ensures forall n :: In(g, n) ==> g'.span[n] == g.span[n]
  {
    hide LinkOk, Local;
    g' := Layout(g.order, g.span + [Span(0, 0, 0)]);
    var t', c' := Wider(t), Paint(c.red + [false], c.bh + [0]);
    assert forall n :: In(g', n) <==> In(g, n);
    forall n | In(g, n) ensures LinkOk(t', g', n) && Local(t', c', NIL, false, n) {
      assert LinkOk(t, g, n) && Local(t, c, NIL, false, n);
      WiderAt(t, g, c, n);
    }
  }

  // Nodes on the longest path down from n.
  ghost function Height(t: Links, g: Layout, n: int): (h: nat)
    requires Shape(t, g)
    decreases Size(g, n)
  {
    if !In(g, n) then 0 else
      assert LinkOk(t, g, n);
      assert (t.left[n] == NIL || LinkOk(t, g, t.left[n])) && (t.right[n] == NIL || LinkOk(t, g, t.right[n]));
      var l, r := Height(t, g, t.left[n]), Height(t, g, t.right[n]);
      1 + if l < r then r else l
  }

  lemma {:induction false} BlackHeight(t: Links, g: Layout, c: Paint, n: int)
    requires Inv(t, g, c, NIL, false) && (n == NIL || In(g, n))
    ensures 0 <= c.bh[n] && Pow2(c.bh[n]) <= Size(g, n) + 1
    ensures Height(t, g, n) <= 2 * c.bh[n] + if c.red[n] then 1 else 0
    decreases Size(g, n)
  {
    if n != NIL {
      assert LinkOk(t, g, n) && Local(t, c, NIL, false, n);
      var l, r := t.left[n], t.right[n];
      assert l != NIL ==> LinkOk(t, g, l);
      assert r != NIL ==> LinkOk(t, g, r);
      BlackHeight(t, g, c, l);
      BlackHeight(t, g, c, r);
    }
  }

  // height <= 2 log2(n + 1)
  lemma HeightBound(t: Links, g: Layout, c: Paint)
    requires Inv(t, g, c, NIL, false) && !c.red[t.root]
    ensures Pow2(Height(t, g, t.root)) <= (|g.order| + 1) * (|g.order| + 1)
  {
    BlackHeight(t, g, c, t.root);
    var b := c.bh[t.root];
    Pow2Monotone(Height(t, g, t.root), b + b);
    Pow2Sum(b, b);
    Square(Pow2(b), |g.order| + 1);
  }

  lemma Square(p: nat, n: nat)
    requires p <= n
    ensures p * p <= n * n
  {}

  class Tree {
    constructor (less: (Key, Key) -> bool)
      requires IsOrder(less)
      ensures Valid() && this.less == less && g.order == [] && |key| == 1
    {
      this.less := less;
      key, root, left, right, parent, red := [Key(0, 0)], NIL, [NIL], [NIL], [NIL], [false];
      g, bh := Layout([], [Span(0, 0, 0)]), [0];
    }

    const less: (Key, Key) -> bool
    var key: seq<Key>
    var root: int
    var left: seq<int>
    var right: seq<int>
    var parent: seq<int>
    var red: seq<bool>
    ghost var g: Layout
    ghost var bh: seq<int>

    ghost function L(): Links reads this { Links(root, left, right, parent) }
    ghost function C(): Paint reads this { Paint(red, bh) }

    ghost predicate Valid() reads this {
      && Inv(L(), g, C(), NIL, false) && !red[root]
      && |key| == |left| && IsOrder(less) && Sorted(less, key, g.order)
    }

    method RotateLeft(x: int)
      requires Turns(L(), x)
      modifies this`root, this`left, this`right, this`parent
      ensures RotatedLeft(old(L()), L(), x, old(right[x]), old(left[right[x]]), old(parent[x]))
    {
      var y := right[x];
      right := right[x := left[y]];
      if left[y] != NIL { parent := parent[left[y] := x]; }
      parent := parent[y := parent[x]];
      if parent[x] == NIL { root := y; }
      else if x == left[parent[x]] { left := left[parent[x] := y]; }
      else { right := right[parent[x] := y]; }
      left := left[y := x];
      parent := parent[x := y];
    }

    method RotateRight(x: int)
      requires Turns(Mirror(L()), x)
      modifies this`root, this`left, this`right, this`parent
      ensures RotatedLeft(Mirror(old(L())), Mirror(L()), x, old(left[x]), old(right[left[x]]), old(parent[x]))
    {
      var y := left[x];
      left := left[x := right[y]];
      if right[y] != NIL { parent := parent[right[y] := x]; }
      parent := parent[y := parent[x]];
      if parent[x] == NIL { root := y; }
      else if x == right[parent[x]] { right := right[parent[x] := y]; }
      else { left := left[parent[x] := y]; }
      right := right[y := x];
      parent := parent[x := y];
    }

    ghost predicate Inserting(z: int) reads this {
      Inv(L(), g, C(), z, false) && In(g, z) && 0 <= parent[z] < |left| && red[z]
    }

    // z sits under a red left child p whose sibling is black.
    ghost predicate LeftHeavy(z: int) reads this {
      Inserting(z) && red[parent[z]] &&
      var q := parent[parent[z]]; 0 <= q < |left| && left[q] == parent[z] && 0 <= right[q] < |left| && !red[right[q]]
    }

    ghost predicate RightHeavy(z: int) reads this {
      Inserting(z) && red[parent[z]] &&
      var q := parent[parent[z]]; 0 <= q < |left| && right[q] == parent[z] && 0 <= left[q] < |left| && !red[left[q]]
    }

    method StraightenLeft(z0: int) returns (z: int)
      requires LeftHeavy(z0) && z0 == right[parent[z0]]
      modifies this`root, this`left, this`right, this`parent, this`g
      ensures LeftHeavy(z) && z == left[parent[z]] && Same(old(g), g) && |left| == old(|left|)
    {
      z := parent[z0];
      RedParent(L(), g, C(), z0);
      ghost var t := L();
      TurnsOk(t, g, z);
      RotateLeft(z);
      g := RotateRed(t, g, C(), L(), z, z0, t.left[z0], t.parent[z]);
    }

    method StraightenRight(z0: int) returns (z: int)
      requires RightHeavy(z0) && z0 == left[parent[z0]]
      modifies this`root, this`left, this`right, this`parent, this`g
      ensures RightHeavy(z) && z == right[parent[z]] && Same(old(g), g) && |left| == old(|left|)
    {
      z := parent[z0];
      RedParent(L(), g, C(), z0);
      ghost var t := L();
      TurnsOk(t, g, z);
      RotateRight(z);
      g := RotateRedMirror(t, g, C(), L(), z, z0, t.right[z0], t.parent[z]);
    }

    method TurnRight(z: int)
      requires LeftHeavy(z) && z == left[parent[z]]
      modifies this`root, this`left, this`right, this`parent, this`red, this`bh, this`g
      ensures Inserting(z) && !red[parent[z]] && Same(old(g), g) && |left| == old(|left|)
    {
      hide Inv, Shape, RotatedLeft, LinkOk;
      InvSizes(L(), g, C(), z, false);
      ghost var t, c := L(), C();
      RedParent(t, g, c, z);
      var p := parent[z];
      var q := parent[p];
      red := red[p := false];
      red := red[q := true];
      bh := Swap(c, q, p).bh;
      TurnsOk(t, g, q);
      RotateRight(q);
      g := OuterCaseMirror(t, g, c, L(), z, p, q);
    }

    method TurnLeft(z: int)
      requires RightHeavy(z) && z == right[parent[z]]
      modifies this`root, this`left, this`right, this`parent, this`red, this`bh, this`g
      ensures Inserting(z) && !red[parent[z]] && Same(old(g), g) && |left| == old(|left|)
    {
      hide Inv, Shape, RotatedLeft, LinkOk;
      InvSizes(L(), g, C(), z, false);
      ghost var t, c := L(), C();
      RedParent(t, g, c, z);
      var p := parent[z];
      var q := parent[p];
      red := red[p := false];
      red := red[q := true];
      bh := Swap(c, q, p).bh;
      TurnsOk(t, g, q);
      RotateLeft(q);
      g := OuterCase(t, g, c, L(), z, p, q);
    }

    method PushRedUp(z0: int) returns (z: int)
      requires Inserting(z0) && red[parent[z0]]
      requires var q := parent[parent[z0]]; 0 <= q < |left| && Kids(L(), q) && red[left[q]] && red[right[q]]
      modifies this`red, this`bh
      ensures Inserting(z) && Size(g, z0) < Size(g, z) <= |g.order|
    {
      ghost var c := C();
      PushRedStep(L(), g, c, z0);
      hide Inv;
      z := parent[parent[z0]];
      var y := if parent[z0] == left[z] then right[z] else left[z];
      red := red[parent[z0] := false];
      red := red[y := false];
      red := red[z := true];
      assert red == PushRed(c, z, left[z], right[z]).red;
      bh := PushRed(c, z, left[z], right[z]).bh;
    }

    method InsertFixup(z0: int)
      requires Inserting(z0)
      modifies this`root, this`left, this`right, this`parent, this`red, this`bh, this`g
      ensures Inv(L(), g, C(), NIL, false) && 0 <= root < |red| && !red[root] && Same(old(g), g)
      ensures |left| == old(|left|)
    {
      var z := z0;
      while red[parent[z]]
        invariant Inserting(z) && Same(old(g), g) && |left| == old(|left|)
        decreases if red[parent[z]] then 1 + |g.order| - Size(g, z) else 0
      {
        RedParent(L(), g, C(), z);
        if parent[z] == left[parent[parent[z]]] {
          if red[right[parent[parent[z]]]] { z := PushRedUp(z); }
          else {
            if z == right[parent[z]] { z := StraightenLeft(z); }
            TurnRight(z);
          }
        } else {
          if red[left[parent[parent[z]]]] { z := PushRedUp(z); }
          else {
            if z == left[parent[z]] { z := StraightenRight(z); }
            TurnLeft(z);
          }
        }
      }
      BlackenRoot(L(), g, C(), z);
      bh := Blacken(C(), root).bh;
      red := red[root := false];
    }

    ghost predicate Short(x: int) reads this {
      Inv(L(), g, C(), x, true) && 0 <= x < |left|
    }

    ghost predicate ShortLeft(x: int) reads this {
      Short(x) && x != root && !red[x] && 0 <= parent[x] < |left| && left[parent[x]] == x
    }

    ghost predicate ShortRight(x: int) reads this {
      Short(x) && x != root && !red[x] && 0 <= parent[x] < |left| && right[parent[x]] == x
    }

    method RedSiblingRight(x: int)
      requires ShortLeft(x) && 0 <= right[parent[x]] < |left| && red[right[parent[x]]]
      modifies this`root, this`left, this`right, this`parent, this`red, this`bh, this`g
      ensures ShortLeft(x) && Same(old(g), g) && |left| == old(|left|) && red[parent[x]]
      ensures 0 <= right[parent[x]] < |left| && !red[right[parent[x]]]
    {
      hide Inv, Shape, Local, LinkOk;
      InvSizes(L(), g, C(), x, true);
      ghost var t, c := L(), C();
      Sibling(t, g, c, x);
      var w := right[parent[x]];
      red := red[w := false];
      red := red[parent[x] := true];
      bh := Swap(c, parent[x], w).bh;
      TurnsOk(t, g, parent[x]);
      RotateLeft(parent[x]);
      g := RotateSwap(t, g, c, L(), C(), t.parent[x], w, t.left[w], t.parent[t.parent[x]], x, true);
    }

    method RedSiblingLeft(x: int)
      requires ShortRight(x) && 0 <= left[parent[x]] < |left| && red[left[parent[x]]]
      modifies this`root, this`left, this`right, this`parent, this`red, this`bh, this`g
      ensures ShortRight(x) && Same(old(g), g) && |left| == old(|left|) && red[parent[x]]
      ensures 0 <= left[parent[x]] < |left| && !red[left[parent[x]]]
    {
      hide Inv, Shape, Local, LinkOk;
      InvSizes(L(), g, C(), x, true);
      ghost var t, c := L(), C();
      Sibling(t, g, c, x);
      var w := left[parent[x]];
      red := red[w := false];
      red := red[parent[x] := true];
      bh := Swap(c, parent[x], w).bh;
      TurnsOk(t, g, parent[x]);
      RotateRight(parent[x]);
      g := RotateSwapMirror(t, g, c, L(), C(), t.parent[x], w, t.right[w], t.parent[t.parent[x]], x, true);
    }

    method PushHoleUp(x0: int, w: int) returns (x: int)
      requires Short(x0) && x0 != root && !red[x0] && In(g, parent[x0]) && 0 < w < |left| && w != x0 && w != parent[x0]
      requires var p := parent[x0]; (left[p] == x0 && right[p] == w) || (left[p] == w && right[p] == x0)
      requires 0 <= left[w] < |left| && 0 <= right[w] < |left| && !red[w] && !red[left[w]] && !red[right[w]]
      modifies this`red, this`bh
      ensures Short(x) && x == parent[x0] && red[x] == old(red[parent[x0]])
    {
      ghost var t, c := L(), C();
      x := parent[x0];
      red := red[w := true];
      bh := PushHole(c, x, w).bh;
      PushHoleInv(t, g, c, C(), x0, x, w);
    }

    method NearRedLeft(x: int)
      requires ShortLeft(x) && 0 <= right[parent[x]] < |left|
      requires var w := right[parent[x]];
        0 <= left[w] < |left| && 0 <= right[w] < |left| && !red[w] && red[left[w]] && !red[right[w]]
      modifies this`root, this`left, this`right, this`parent, this`red, this`bh, this`g
      ensures ShortLeft(x) && Same(old(g), g) && |left| == old(|left|) && 0 <= right[parent[x]] < |left|
      ensures var w := right[parent[x]]; 0 <= right[w] < |left| && !red[w] && red[right[w]]
    {
      hide Inv, Shape;
      InvSizes(L(), g, C(), x, true);
      ghost var t, c := L(), C();
      var w := right[parent[x]];
      NearRedReady(t, g, c, x, parent[x], w, left[w]);
      hide NearRed;
      red := red[left[w] := false];
      red := red[w := true];
      bh := Swap(c, w, left[w]).bh;
      RotateRight(w);
      hide RotatedLeft;
      g := NearRedStep(t, g, c, L(), x, t.parent[x], w, t.left[w], t.right[t.left[w]]);
    }

    method NearRedRight(x: int)
      requires ShortRight(x) && 0 <= left[parent[x]] < |left|
      requires var w := left[parent[x]];
        0 <= left[w] < |left| && 0 <= right[w] < |left| && !red[w] && red[right[w]] && !red[left[w]]
      modifies this`root, this`left, this`right, this`parent, this`red, this`bh, this`g
      ensures ShortRight(x) && Same(old(g), g) && |left| == old(|left|) && 0 <= left[parent[x]] < |left|
      ensures var w := left[parent[x]]; 0 <= left[w] < |left| && !red[w] && red[left[w]]
    {
      hide Inv, Shape;
      InvSizes(L(), g, C(), x, true);
      ghost var t, c := L(), C();
      var w := left[parent[x]];
      MirrorInv(t, g, c, x, true);
      NearRedReady(Mirror(t), MirrorLayout(g), c, x, parent[x], w, right[w]);
      hide NearRed;
      red := red[right[w] := false];
      red := red[w := true];
      bh := Swap(c, w, right[w]).bh;
      RotateLeft(w);
      hide RotatedLeft;
      g := NearRedStepMirror(t, g, c, L(), x, t.parent[x], w, t.right[w], t.left[t.right[w]]);
    }

    method FarRedRight(x: int)
      requires ShortLeft(x) && 0 <= right[parent[x]] < |left|
      requires var w := right[parent[x]]; 0 <= right[w] < |left| && !red[w] && red[right[w]]
      modifies this`root, this`left, this`right, this`parent, this`red, this`bh, this`g
      ensures Inv(L(), g, C(), NIL, false) && Same(old(g), g) && |left| == old(|left|)
    {
      ghost var t, c := L(), C();
      Sibling(t, g, c, x);
      var w := right[parent[x]];
      red := red[w := red[parent[x]]];
      red := red[parent[x] := false];
      red := red[right[w] := false];
      bh := Last(c, parent[x], w, right[w]).bh;
      TurnsOk(t, g, parent[x]);
      RotateLeft(parent[x]);
      g := RotateLast(t, g, c, L(), C(), t.parent[x], w, t.left[w], t.parent[t.parent[x]], x);
    }

    method FarRedLeft(x: int)
      requires ShortRight(x) && 0 <= left[parent[x]] < |left|
      requires var w := left[parent[x]]; 0 <= left[w] < |left| && !red[w] && red[left[w]]
      modifies this`root, this`left, this`right, this`parent, this`red, this`bh, this`g
      ensures Inv(L(), g, C(), NIL, false) && Same(old(g), g) && |left| == old(|left|)
    {
      ghost var t, c := L(), C();
      Sibling(t, g, c, x);
      var w := left[parent[x]];
      red := red[w := red[parent[x]]];
      red := red[parent[x] := false];
      red := red[left[w] := false];
      bh := Last(c, parent[x], w, left[w]).bh;
      TurnsOk(t, g, parent[x]);
      RotateRight(parent[x]);
      g := RotateLastMirror(t, g, c, L(), C(), t.parent[x], w, t.right[w], t.parent[t.parent[x]], x);
    }

    // A red child of the black sibling: one or two rotations end the repair.
    method FinishLeft(x0: int) returns (x: int)
      requires ShortLeft(x0) && 0 <= right[parent[x0]] < |left|
      requires var w := right[parent[x0]];
        0 <= left[w] < |left| && 0 <= right[w] < |left| && !red[w] && (red[left[w]] || red[right[w]])
      modifies this`root, this`left, this`right, this`parent, this`red, this`bh, this`g
      ensures Short(x) && x == root && Same(old(g), g) && |left| == old(|left|)
    {
      hide Inv, Shape, LinkOk;
      InvSizes(L(), g, C(), x0, true);
      if !red[right[right[parent[x0]]]] { NearRedLeft(x0); }
      FarRedRight(x0);
      InvSizes(L(), g, C(), NIL, false);
      HoleAtRoot(L(), g, C());
      x := root;
    }

    method FixLeft(x0: int) returns (x: int)
      requires ShortLeft(x0)
      modifies this`root, this`left, this`right, this`parent, this`red, this`bh, this`g
      ensures Short(x) && Same(old(g), g) && |left| == old(|left|)
      ensures x == root || red[x] || (g == old(g) && Size(g, x0) < Size(g, x) <= |g.order|)
    {
      x := x0;
      Sibling(L(), g, C(), x);
      if red[right[parent[x]]] { RedSiblingRight(x); Sibling(L(), g, C(), x); }
      var w := right[parent[x]];
      if !red[left[w]] && !red[right[w]] {
        x := PushHoleUp(x, w);
      } else {
        x := FinishLeft(x);
      }
    }

    // A red child of the black sibling: one or two rotations end the repair.
    method FinishRight(x0: int) returns (x: int)
      requires ShortRight(x0) && 0 <= left[parent[x0]] < |left|
      requires var w := left[parent[x0]];
        0 <= left[w] < |left| && 0 <= right[w] < |left| && !red[w] && (red[left[w]] || red[right[w]])
      modifies this`root, this`left, this`right, this`parent, this`red, this`bh, this`g
      ensures Short(x) && x == root && Same(old(g), g) && |left| == old(|left|)
    {
      hide Inv, Shape, LinkOk;
      InvSizes(L(), g, C(), x0, true);
      if !red[left[left[parent[x0]]]] { NearRedRight(x0); }
      FarRedLeft(x0);
      InvSizes(L(), g, C(), NIL, false);
      HoleAtRoot(L(), g, C());
      x := root;
    }

    method FixRight(x0: int) returns (x: int)
      requires ShortRight(x0)
      modifies this`root, this`left, this`right, this`parent, this`red, this`bh, this`g
      ensures Short(x) && Same(old(g), g) && |left| == old(|left|)
      ensures x == root || red[x] || (g == old(g) && Size(g, x0) < Size(g, x) <= |g.order|)
    {
      x := x0;
      Sibling(L(), g, C(), x);
      if red[left[parent[x]]] { RedSiblingLeft(x); Sibling(L(), g, C(), x); }
      var w := left[parent[x]];
      if !red[right[w]] && !red[left[w]] {
        x := PushHoleUp(x, w);
      } else {
        x := FinishRight(x);
      }
    }

    method DeleteFixup(x0: int)
      requires Short(x0)
      modifies this`root, this`left, this`right, this`parent, this`red, this`bh, this`g
      ensures Inv(L(), g, C(), NIL, false) && 0 <= root < |red| && !red[root] && Same(old(g), g)
      ensures |left| == old(|left|)
    {
      var x := x0;
      while x != root && !red[x]
        invariant Short(x) && Same(old(g), g) && |left| == old(|left|)
        decreases if x != root && !red[x] then 1 + |g.order| - Size(g, x) else 0
      {
        Sibling(L(), g, C(), x);
        if x == left[parent[x]] { x := FixLeft(x); } else { x := FixRight(x); }
      }
      BlackenHole(L(), g, C(), x);
      bh := Blacken(C(), x).bh;
      red := red[x := false];
    }

    method Transplant(u: int, v: int)
      requires |left| == |right| == |parent| && 0 <= u < |left| && 0 <= v < |left| && 0 <= parent[u] < |left|
      modifies this`root, this`left, this`right, this`parent
      ensures L() == Splice(old(L()), u, v, old(parent[u]))
      ensures Spliced(old(L()), L(), u, v, old(parent[u]))
    {
      if parent[u] == NIL { root := v; }
      else if u == left[parent[u]] { left := left[parent[u] := v]; }
      else { right := right[parent[u] := v]; }
      parent := parent[v := parent[u]];
    }

    method Min(x0: int) returns (x: int)
      requires Shape(L(), g) && In(g, x0)
      ensures In(g, x) && LinkOk(L(), g, x) && left[x] == NIL
      ensures g.span[x].lo == g.span[x0].lo == g.span[x].at && g.span[x].hi <= g.span[x0].hi
    {
      x := x0;
      assert LinkOk(L(), g, x);
      while left[x] != NIL
        invariant In(g, x) && LinkOk(L(), g, x) && g.span[x].lo == g.span[x0].lo && g.span[x].hi <= g.span[x0].hi
        decreases g.span[x].hi
      {
        x := left[x];
        assert LinkOk(L(), g, x);
      }
    }

    method Detach(z: int, y: int)
      requires Apart(L(), z, y)
      modifies this`root, this`left, this`right, this`parent
      ensures Detached(old(L()), L(), z, y)
    {
      hide Splice;
      var x := right[y];
      if parent[y] == z { parent := parent[x := y]; }
      else {
        Transplant(y, right[y]);
        right := right[y := right[z]];
        parent := parent[right[y] := y];
      }
    }

    method MoveUp(z: int, y: int)
      requires Apart(L(), z, y)
      modifies this`root, this`left, this`right, this`parent
      ensures Moved(old(L()), L(), z, y)
    {
      hide Splice;
      ghost var t := L();
      Detach(z, y);
      ghost var t1 := L();
      Transplant(z, y);
      ghost var t2 := L();
      left := left[y := left[z]];
      parent := parent[left[y] := y];
      DetachedMoved(t, t1, t2, L(), z, y);
    }

    method UnlinkInner(z: int) returns (x: int, wasRed: bool)
      requires Inv(L(), g, C(), NIL, false) && In(g, z) && left[z] != NIL && right[z] != NIL && 0 <= root < |red|
      requires !red[root]
      modifies this`root, this`left, this`right, this`parent, this`red, this`bh, this`g
      ensures if wasRed then Inv(L(), g, C(), NIL, false) && 0 <= root < |red| && !red[root] else Short(x)
      ensures 0 <= old(g.span[z].at) < |old(g.order)| && g.order == Cut(old(g.order), old(g.span[z].at))
      ensures |left| == old(|left|)
    {
      ghost var t, c := L(), C();
      assert LinkOk(t, g, z);
      var y := Min(right[z]);
      wasRed := red[y];
      x := right[y];
      TwoChildrenOk(t, g, z, y);
      TwoChildrenApart(t, g, z, y);
      hide LinkOk, Shape;
      MoveUp(z, y);
      red := red[y := red[z]];
      bh := bh[y := bh[z]];
      g := DeleteInner(t, g, c, L(), z, y);
    }

    method Unlink(z: int) returns (x: int, wasRed: bool)
      requires Inv(L(), g, C(), NIL, false) && In(g, z) && 0 <= root < |red| && !red[root]
      modifies this`root, this`left, this`right, this`parent, this`red, this`bh, this`g
      ensures if wasRed then Inv(L(), g, C(), NIL, false) && 0 <= root < |red| && !red[root] else Short(x)
      ensures 0 <= old(g.span[z].at) < |old(g.order)| && g.order == Cut(old(g.order), old(g.span[z].at))
      ensures |left| == old(|left|)
    {
      ghost var t, c := L(), C();
      assert LinkOk(t, g, z);
      wasRed := red[z];
      if left[z] == NIL {
        x := right[z];
        Transplant(z, right[z]);
        g := SpliceInv(t, g, c, L(), z, x, t.parent[z]);
      } else if right[z] == NIL {
        x := left[z];
        Transplant(z, left[z]);
        SplicedMirror(t, g, L(), z, x, t.parent[z]);
        g := SpliceInvMirror(t, g, c, L(), z, x, t.parent[z]);
      } else {
        x, wasRed := UnlinkInner(z);
      }
    }

    method Delete(z: int)
      requires Valid() && In(g, z)
      modifies this`root, this`left, this`right, this`parent, this`red, this`bh, this`g
      ensures Valid() && 0 <= old(g.span[z].at) < |old(g.order)| && old(g.order)[old(g.span[z].at)] == z
      ensures g.order == Cut(old(g.order), old(g.span[z].at))
    {
      assert LinkOk(L(), g, z);
      SortedWithout(less, key, g.order, g.span[z].at);
      hide Inv;
      var x, wasRed := Unlink(z);
      if !wasRed { DeleteFixup(x); }
    }

    // The position of z among the keys: below [a, b) everything is at most z, above it everything is greater.
    ghost predicate Window(z: int, a: int, b: int) reads this
      requires Sorted(less, key, g.order) && 0 <= z < |key|
    {
      && 0 <= a <= b <= |g.order|
      && (forall i :: 0 <= i < a ==> !less(key[z], key[g.order[i]]))
      && (forall i :: b <= i < |g.order| ==> less(key[z], key[g.order[i]]))
    }

    lemma WindowAll(z: int)
      requires Sorted(less, key, g.order) && 0 <= z < |key|
      ensures Window(z, 0, |g.order|)
    {}

    lemma WindowStep(z: int, a: int, b: int, at: int)
      requires IsOrder(less) && Sorted(less, key, g.order) && 0 <= z < |key| && Window(z, a, b) && a <= at < b
      ensures 0 <= g.order[at] < |key|
        && if less(key[z], key[g.order[at]]) then Window(z, a, at) else Window(z, at + 1, b)
    {}

    lemma WindowFits(z: int, a: int)
      requires Sorted(less, key, g.order) && 0 <= z < |key| && Window(z, a, a)
      ensures Fits(less, key, g.order, key[z], a)
    {}

    lemma LinkedAt(x: int)
      requires Inv(L(), g, C(), NIL, false) && In(g, x)
      ensures Sized(L(), g) && LinkOk(L(), g, x)
    {}

    method Descend(z: int) returns (y: int, goLeft: bool)
      requires Valid() && 0 < z < |left| && !In(g, z)
      ensures y == NIL ==> root == NIL
      ensures y != NIL ==> In(g, y) && LinkOk(L(), g, y) && (if goLeft then left[y] == NIL else right[y] == NIL)
      ensures y != NIL ==> Fits(less, key, g.order, key[z], if goLeft then g.span[y].at else g.span[y].at + 1)
      ensures y != NIL ==> goLeft == less(key[z], key[y])
    {
      hide Inv, Sorted, IsOrder, Window;
      InvSizes(L(), g, C(), NIL, false);
      y, goLeft := NIL, false;
      var x := root;
      ghost var a, b := 0, |g.order|;
      WindowAll(z);
      while x != NIL
        invariant x == NIL || (In(g, x) && g.span[x].lo == a && g.span[x].hi == b)
        invariant y == NIL ==> x == root && a == 0 && b == |g.order|
        invariant y != NIL ==> In(g, y) && LinkOk(L(), g, y) && goLeft == less(key[z], key[y])
        invariant y != NIL ==> x == (if goLeft then left[y] else right[y])
        invariant y != NIL && x == NIL ==> a == b == if goLeft then g.span[y].at else g.span[y].at + 1
        invariant Window(z, a, b)
        decreases if x == NIL then 0 else 1 + b - a
      {
        LinkedAt(x);
        ghost var at := g.span[x].at;
        WindowStep(z, a, b, at);
        y := x;
        goLeft := less(key[z], key[x]);
        if goLeft { x := left[x]; b := at; } else { x := right[x]; a := at + 1; }
      }
      if y != NIL { WindowFits(z, a); }
    }

    // The caller's calloc of a node.
    method NewNode(k: Key) returns (z: int)
      requires Valid()
      modifies this`key, this`left, this`right, this`parent, this`red, this`bh, this`g
      ensures Valid() && z == old(|key|) && key == old(key) + [k] && g.order == old(g.order) && 0 < z < |left|
      ensures !In(g, z)
    {
      ghost var g' := WiderInv(L(), g, C());
      z := |left|;
      key, left, right, parent, red := key + [k], left + [NIL], right + [NIL], parent + [NIL], red + [false];
      bh, g := bh + [0], g';
    }

    method Hang(z: int, y: int, goLeft: bool)
      requires Inv(L(), g, C(), NIL, false) && 0 < z < |left| && !In(g, z)
      requires if y == NIL then root == NIL else In(g, y) && (if goLeft then left[y] == NIL else right[y] == NIL)
      modifies this`root, this`left, this`right, this`parent, this`red, this`bh, this`g
      ensures Inserting(z) && |left| == old(|left|)
      ensures y == NIL ==> old(g.order) == [] && g.order == [z]
      ensures y != NIL ==> 0 <= old(g.span[y].at) < |old(g.order)|
      ensures y != NIL ==>
        g.order == Insertion(old(g.order), if goLeft then old(g.span[y].at) else old(g.span[y].at) + 1, z)
    {
      ghost var t, c := L(), C();
      if y != NIL { assert LinkOk(t, g, y); }
      parent := parent[z := y];
      if y == NIL { root := z; }
      else if goLeft { left := left[y := z]; }
      else { right := right[y := z]; }
      left := left[z := NIL];
      right := right[z := NIL];
      red := red[z := true];
      bh := bh[z := 0];
      if y == NIL { g := FirstInv(t, g, c, L(), z); }
      else if goLeft { g := AttachInv(t, g, c, L(), z, y); }
      else { g := AttachInvMirror(t, g, c, L(), z, y); }
      assert LinkOk(L(), g, z);
    }

    method Insert(z: int)
      requires Valid() && 0 < z < |left| && !In(g, z)
      modifies this`root, this`left, this`right, this`parent, this`red, this`bh, this`g
      ensures Valid() && |left| == old(|left|)
      ensures exists k :: 0 <= k <= |old(g.order)| && g.order == Insertion(old(g.order), k, z)
                          && Fits(less, key, old(g.order), key[z], k)
    {
      var y, goLeft := Descend(z);
      ghost var order := g.order;
      ghost var k := if y == NIL then 0 else if goLeft then g.span[y].at else g.span[y].at + 1;
      hide Inv;
      Hang(z, y, goLeft);
      InsertFixup(z);
      assert Fits(less, key, order, key[z], k);
      assert g.order == Insertion(order, k, z);
      SortedInsertion(less, key, order, z, k);
    }

    method Empty() returns (e: bool)
      requires Valid()
      ensures e <==> g.order == []
    {
      e := root == NIL;
    }

    // NIL stands for the null result.
    method First() returns (x: int)
      requires Valid()
      ensures if g.order == [] then x == NIL else x == g.order[0]
    {
      if root == NIL { return NIL; }
      x := Min(root);
    }

    method Next(n0: int) returns (r: int)
      requires Valid() && In(g, n0)
      ensures var i := g.span[n0].at;
        0 <= i < |g.order| && g.order[i] == n0 && r == if i + 1 < |g.order| then g.order[i + 1] else NIL
    {
      var n := n0;
      assert LinkOk(L(), g, n);
      if right[n] != NIL {
        r := Min(right[n]);
        return;
      }
      var p := parent[n];
      while p != NIL && n == right[p]
        invariant In(g, n) && LinkOk(L(), g, n) && p == parent[n] && g.span[n].hi == g.span[n0].at + 1
        decreases |g.order| - (g.span[n].hi - g.span[n].lo)
      {
        n := p;
        assert LinkOk(L(), g, n);
        p := parent[p];
      }
      if p != NIL { assert LinkOk(L(), g, p); }
      r := p;
    }

    // The longest path is at most twice the logarithm of the number of nodes.
    lemma Balanced()
      requires Valid()
      ensures Pow2(Height(L(), g, root)) <= (|g.order| + 1) * (|g.order| + 1)
    {
      HeightBound(L(), g, C());
    }

    lemma Position(i: int)
      requires Valid() && 0 <= i < |g.order|
      ensures In(g, g.order[i]) && g.span[g.order[i]].at == i && g.order[i] != NIL && 0 < g.order[i] < |key|
    {}

    lemma NoRepeats()
      requires Valid()
      ensures forall a, b :: 0 <= a < b < |g.order| ==> g.order[a] != g.order[b]
    {
      forall a, b | 0 <= a < b < |g.order| ensures g.order[a] != g.order[b] { Position(a); Position(b); }
    }

    lemma Spot(n: int)
      requires Valid() && In(g, n)
      ensures 0 <= g.span[n].at < |g.order| && g.order[g.span[n].at] == n
    {
      assert LinkOk(L(), g, n);
    }
  }
}
