// Colours and black heights of the red-black tree, and how each local change moves or repairs an imbalance.
module RedBlackBalance {
  import opened RedBlackShape

  // Colours, and for every subtree the number of black nodes on each downward path.
  datatype Paint = Paint(red: seq<bool>, bh: seq<int>)

  function Black(c: Paint, n: int): int
    requires 0 <= n < |c.red|
  { if c.red[n] then 0 else 1 }

  predicate Painted(t: Links, c: Paint) {
    |c.red| == |c.bh| == |t.left| == |t.right| == |t.parent| && 0 < |t.left| && !c.red[NIL] && c.bh[NIL] == 0
  }

  predicate Kids(t: Links, n: int) {
    0 <= n < |t.left| == |t.right| && 0 <= t.left[n] < |t.left| && 0 <= t.right[n] < |t.left|
  }

  // z may be a red child of a red parent; with `hole`, the subtree of z is one black node short.
  predicate Local(t: Links, c: Paint, z: int, hole: bool, n: int)
    requires Painted(t, c) && 0 <= n < |t.left| && 0 <= z < |t.left|
  {
    Kids(t, n) &&
    var l, r := t.left[n], t.right[n];
    var short := hole && z != t.root && n == t.parent[z];
    var dl, dr := if short && l == z then 1 else 0, if short && r == z then 1 else 0;
    && 0 <= c.bh[l] && 0 <= c.bh[r] && c.bh[l] + dl == c.bh[r] + dr
    && c.bh[n] == c.bh[l] + dl + Black(c, n)
    && (c.red[n] && !(hole && n == z) ==> (c.red[l] ==> l == z) && (c.red[r] ==> r == z))
  }

  predicate Placed(t: Links, g: Layout, z: int)
    requires Sized(t, g) && 0 <= z < |t.left|
  {
    z == t.root || (In(g, t.parent[z]) && var p := t.parent[z];
      t.left[p] != t.right[p] && (t.left[p] == z || t.right[p] == z))
  }

  ghost predicate Inv(t: Links, g: Layout, c: Paint, z: int, hole: bool) {
    && Shape(t, g) && Painted(t, c)
    && (z == NIL || In(g, z))
    && (hole ==> Placed(t, g, z))
    && (forall n {:trigger Local(t, c, z, hole, n)} :: In(g, n) ==> Local(t, c, z, hole, n))
    && 0 <= t.root < |t.left| && (c.red[t.root] ==> t.root == z)
  }

  lemma InvSizes(t: Links, g: Layout, c: Paint, z: int, hole: bool)
    requires Inv(t, g, c, z, hole)
    ensures Shape(t, g) && Sized(t, g) && Painted(t, c) && 0 <= t.root < |t.left|
  {}

  lemma MirrorInv(t: Links, g: Layout, c: Paint, z: int, hole: bool)
    requires Inv(t, g, c, z, hole)
    ensures Inv(Mirror(t), MirrorLayout(g), c, z, hole)
    ensures forall n :: In(MirrorLayout(g), n) <==> In(g, n)
  {
    MirrorShape(t, g);
    hide Shape, MirrorLayout;
    forall n | In(g, n) ensures Local(Mirror(t), c, z, hole, n) { assert Local(t, c, z, hole, n); }
  }

  // ----- rotations with a change of colours at the two pivots and at e, the far child of y -----

  ghost predicate AroundRot(t: Links, g: Layout, c: Paint, x: int, y: int, b: int, p: int, z: int, hole: bool) {
    && Painted(t, c) && Around(t, g, x, y, b, p) && (z == NIL || (In(g, z) && LinkOk(t, g, z)))
    && Local(t, c, z, hole, x) && Local(t, c, z, hole, y)
    && (hole ==> Placed(t, g, z) && !c.red[z])
  }

  ghost predicate Recoloured(c: Paint, c': Paint, x: int, y: int, e: int) {
    && |c'.red| == |c'.bh| == |c.red| == |c.bh| && 0 <= x < |c.red| && 0 <= y < |c.red|
    && c'.bh[y] == c.bh[x] && (c'.red[y] ==> c.red[x])
    && forall k :: 0 <= k < |c.red| && k != x && k != y && k != e ==> c'.red[k] == c.red[k] && c'.bh[k] == c.bh[k]
  }

  // How the exempted node changes: kept, gone after the last case, or handed to x.
  predicate Handover(t: Links, x: int, y: int, b: int, z: int, hole: bool, z': int, hole': bool)
    requires 0 <= z < |t.parent|
  {
    || (z' == z && hole' == hole && z != x && z != y && (hole ==> t.parent[z] != y && (t.parent[z] == x ==> z != b)))
    || (z' == NIL && !hole' && hole && t.parent[z] == x)
    || (!hole && !hole' && z == y && z' == x)
  }

  // The rotation swaps one child of p and nothing else below nodes other than the pivots.
  lemma RotateKids(t: Links, g: Layout, t': Links, x: int, y: int, b: int, p: int, n: int)
    requires Around(t, g, x, y, b, p) && RotatedLeft(t, t', x, y, b, p)
    requires In(g, n) && LinkOk(t, g, n) && n != x && n != y
    ensures n == p ==> (t.left[p] == x) != (t.right[p] == x) && p != x && p != y
    ensures n == p ==>
      t'.left[p] == (if t.left[p] == x then y else t.left[p])
      && t'.right[p] == (if t.right[p] == x then y else t.right[p])
    ensures n != p ==> t'.left[n] == t.left[n] && t'.right[n] == t.right[n] && t.left[n] != x && t.right[n] != x
    ensures t.left[n] != y && t.right[n] != y
    ensures t.right[y] != NIL ==> t.left[n] != t.right[y] && t.right[n] != t.right[y]
  {}

  lemma RotateRest(t: Links, c: Paint, t': Links, c': Paint, x: int, y: int, e: int, p: int,
                   z: int, hole: bool, z': int, hole': bool, n: int)
    requires Painted(t, c) && Painted(t', c') && |t'.left| == |t.left| && 0 <= z < |t.left| && 0 <= z' < |t.left|
    requires 0 < n < |t.left|
    requires Recoloured(c, c', x, y, e) && Local(t, c, z, hole, n) && n != x && n != y && n != e
    requires t.left[n] != y && t.right[n] != y && (e != NIL ==> t.left[n] != e && t.right[n] != e)
    requires hole' ==> z' == z && hole && t'.parent[z] == t.parent[z] && (z == t'.root <==> z == t.root)
    requires !hole' && hole ==> t.parent[z] != n
    requires z != z' ==> t.left[n] != z && t.right[n] != z
    requires hole ==> z != x && !c.red[z]
    requires if n == p then
        (t.left[p] == x) != (t.right[p] == x)
        && t'.left[p] == (if t.left[p] == x then y else t.left[p])
        && t'.right[p] == (if t.right[p] == x then y else t.right[p])
        && (c'.red[y] ==> x != z || !c.red[p]) && z' != y
      else
        t'.left[n] == t.left[n] && t'.right[n] == t.right[n] && t.left[n] != x && t.right[n] != x
    ensures Local(t', c', z', hole', n)
  {}

  lemma RotateInv(t: Links, g: Layout, c: Paint, t': Links, c': Paint, x: int, y: int, b: int, p: int, e: int,
                  z: int, hole: bool, z': int, hole': bool) returns (g': Layout)
    requires Inv(t, g, c, z, hole) && In(g, x) && y == t.right[x] && 0 < y < |t.left| && b == t.left[y]
    requires p == t.parent[x]
    requires 0 <= p < |t.left| && 0 <= b < |t.left| && AroundRot(t, g, c, x, y, b, p, z, hole)
    requires (e == NIL || e == t.right[y]) && (t.root == NIL || e != t.root)
    requires RotatedLeft(t, t', x, y, b, p) && Recoloured(c, c', x, y, e) && Painted(t', c')
    requires (z' == NIL || In(g, z')) && Handover(t, x, y, b, z, hole, z', hole')
    requires hole ==> !c.red[z]
    requires c'.red[y] ==> (x != z && x != z') || (p != NIL && !c.red[p])
    requires Local(t', c', z', hole', x) && Local(t', c', z', hole', y) && (e != NIL ==> Local(t', c', z', hole', e))
    ensures Inv(t', g', c', z', hole') && g'.order == g.order
    ensures forall n {:trigger In(g', n)} :: In(g', n) <==> In(g, n)
  {
    hide RotatedLeft, Recoloured, Handover, LinkOk, Ordered, Rooted, Local, AroundRot, Placed, Linked;
    g' := RotateLeftShape(t, g, t', x, y, b, p);
    RotateRoot(t, g, c, t', g', c', x, y, b, p, e, z, hole, z', hole');
    RotateLocals(t, g, c, t', g', c', x, y, b, p, e, z, hole, z', hole');
  }

  lemma HoleStays(t: Links, g: Layout, c: Paint, t': Links, x: int, y: int, b: int, p: int, z: int, hole: bool, z': int,
          hole': bool)
    requires AroundRot(t, g, c, x, y, b, p, z, hole) && RotatedLeft(t, t', x, y, b, p)
    requires Handover(t, x, y, b, z, hole, z', hole')
    ensures hole' ==> z' == z && hole && t'.parent[z] == t.parent[z] && (z == t'.root <==> z == t.root)
  {}

  lemma RotateLocals(t: Links, g: Layout, c: Paint, t': Links, g': Layout, c': Paint, x: int, y: int, b: int, p: int,
          e: int, z: int, hole: bool, z': int, hole': bool)
    requires AroundRot(t, g, c, x, y, b, p, z, hole) && RotatedLeft(t, t', x, y, b, p) && Recoloured(c, c', x, y, e)
    requires Sized(t', g') && Painted(t', c') && 0 <= z' < |t.left|
    requires (e == NIL || e == t.right[y]) && Handover(t, x, y, b, z, hole, z', hole')
    requires c'.red[y] ==> (x != z && x != z') || (p != NIL && !c.red[p])
    requires Linked(t, g) && forall n {:trigger Local(t, c, z, hole, n)} :: In(g, n) ==> Local(t, c, z, hole, n)
    requires Local(t', c', z', hole', x) && Local(t', c', z', hole', y) && (e != NIL ==> Local(t', c', z', hole', e))
    ensures forall n {:trigger Local(t', c', z', hole', n)} :: In(g, n) ==> Local(t', c', z', hole', n)
  {
    assert Sized(t, g) && |t'.left| == |t.left| && 0 <= z < |t.left|;
    HoleStays(t, g, c, t', x, y, b, p, z, hole, z', hole');
    forall n | In(g, n) ensures Local(t', c', z', hole', n) {
      assert LinkOk(t, g, n) && Local(t, c, z, hole, n);
      if n != x && n != y && n != e {
        RotateKids(t, g, t', x, y, b, p, n);
        RotateRest(t, c, t', c', x, y, e, p, z, hole, z', hole', n);
      }
    }
  }

  lemma RotateRoot(t: Links, g: Layout, c: Paint, t': Links, g': Layout, c': Paint, x: int, y: int, b: int, p: int,
          e: int, z: int, hole: bool, z': int, hole': bool)
    requires AroundRot(t, g, c, x, y, b, p, z, hole) && RotatedLeft(t, t', x, y, b, p) && Recoloured(c, c', x, y, e)
    requires (e == NIL || e == t.right[y]) && Handover(t, x, y, b, z, hole, z', hole')
    requires Sized(t', g') && Painted(t', c') && forall n {:trigger In(g', n)} :: In(g', n) <==> In(g, n)
    requires 0 <= t.root < |t.left| && (c.red[t.root] ==> t.root == z)
    requires (c'.red[y] ==> (x != z && x != z') || (p != NIL && !c.red[p]))
    requires 0 <= z' < |t.left| && (t.root == NIL || e != t.root)
    ensures 0 <= t'.root < |t'.left| && (c'.red[t'.root] ==> t'.root == z') && (hole' ==> Placed(t', g', z'))
  {}

  // x black, y red: exchange their colours.
  function Swap(c: Paint, x: int, y: int): Paint
    requires 0 <= x < |c.red| == |c.bh| && 0 <= y < |c.red|
  {
    Paint(c.red[y := false][x := true], c.bh[x := c.bh[y]][y := c.bh[x]])
  }

  lemma SwapPivots(t: Links, g: Layout, c: Paint, t': Links, c': Paint, x: int, y: int, b: int, p: int, z: int,
          hole: bool, n: int)
    requires AroundRot(t, g, c, x, y, b, p, z, hole) && RotatedLeft(t, t', x, y, b, p)
    requires !c.red[x] && c.red[y] && !c.red[b] && !c.red[t.left[x]]
    requires z != x && z != y && (hole ==> t.parent[z] != y)
    requires |c'.red| == |c'.bh| == |c.red|
    requires forall k :: 0 <= k < |c.red| ==> c'.red[k] == if k == x then true else if k == y then false else c.red[k]
    requires forall k :: 0 <= k < |c.red| ==>
      c'.bh[k] == if k == x then c.bh[y] else if k == y then c.bh[x] else c.bh[k]
    requires n == x || n == y
    ensures Painted(t', c') && Local(t', c', z, hole, n)
  {}

  lemma RotateSwap(t: Links, g: Layout, c: Paint, t': Links, c': Paint, x: int, y: int, b: int, p: int, z: int,
          hole: bool) returns (g': Layout)
    requires Inv(t, g, c, z, hole) && In(g, x) && y == t.right[x] && 0 < y < |t.left| && b == t.left[y]
    requires p == t.parent[x]
    requires 0 <= p < |t.left| && 0 <= b < |t.left| && 0 <= t.left[x] < |t.left|
    requires RotatedLeft(t, t', x, y, b, p)
    requires !c.red[x] && c.red[y] && !c.red[b] && !c.red[t.left[x]] && c' == Swap(c, x, y)
    requires z != x && z != y && (hole ==> t.parent[z] != y && (t.parent[z] == x ==> z != b) && !c.red[z])
    ensures Inv(t', g', c', z, hole) && g'.order == g.order && forall n {:trigger In(g', n)} :: In(g', n) <==> In(g, n)
  {
    assert AroundRot(t, g, c, x, y, b, p, z, hole) by {
      assert LinkOk(t, g, x) && LinkOk(t, g, y);
      assert z != NIL ==> LinkOk(t, g, z);
      assert Local(t, c, z, hole, x) && Local(t, c, z, hole, y);
    }
    hide Inv, AroundRot, Local;
    SwapPivots(t, g, c, t', c', x, y, b, p, z, hole, x);
    SwapPivots(t, g, c, t', c', x, y, b, p, z, hole, y);
    hide RotatedLeft;
    g' := RotateInv(t, g, c, t', c', x, y, b, p, NIL, z, hole, z, hole);
  }

  // x red with the red child z == y: the exemption moves from y to x.
  lemma RotateRed(t: Links, g: Layout, c: Paint, t': Links, x: int, y: int, b: int, p: int) returns (g': Layout)
    requires Inv(t, g, c, y, false) && In(g, x) && y == t.right[x] && 0 < y < |t.left| && b == t.left[y]
    requires p == t.parent[x]
    requires 0 <= p < |t.left| && 0 <= b < |t.left| && x != t.root
    requires RotatedLeft(t, t', x, y, b, p) && c.red[x] && c.red[y]
    ensures Inv(t', g', c, x, false) && g'.order == g.order && forall n {:trigger In(g', n)} :: In(g', n) <==> In(g, n)
  {
    assert AroundRot(t, g, c, x, y, b, p, y, false) by {
      assert LinkOk(t, g, x) && LinkOk(t, g, y);
      assert Local(t, c, y, false, x) && Local(t, c, y, false, y);
    }
    assert !c.red[p] by { assert LinkOk(t, g, x) && LinkOk(t, g, p) && Local(t, c, y, false, p); }
    RedPivots(t, g, c, t', x, y, b, p);
    hide RotatedLeft, Inv, AroundRot, Local;
    g' := RotateInv(t, g, c, t', c, x, y, b, p, NIL, y, false, x, false);
  }

  lemma RedPivots(t: Links, g: Layout, c: Paint, t': Links, x: int, y: int, b: int, p: int)
    requires AroundRot(t, g, c, x, y, b, p, y, false) && RotatedLeft(t, t', x, y, b, p) && c.red[x] && c.red[y]
    ensures Painted(t', c) && Local(t', c, x, false, x) && Local(t', c, x, false, y) && c.bh[x] == c.bh[y]
  {}

  // The sibling y of the short left child of x is black and its far child e is red.
  function Last(c: Paint, x: int, y: int, e: int): Paint
    requires 0 <= x < |c.red| == |c.bh| && 0 <= y < |c.red| && 0 <= e < |c.red|
  {
    Paint(c.red[y := c.red[x]][x := false][e := false], c.bh[y := c.bh[x]][x := c.bh[y]][e := c.bh[e] + 1])
  }

  lemma LastPivots(t: Links, g: Layout, c: Paint, t': Links, c': Paint, x: int, y: int, b: int, p: int, z: int, e: int,
          n: int)
    requires AroundRot(t, g, c, x, y, b, p, z, true) && RotatedLeft(t, t', x, y, b, p)
    requires t.left[x] == z && t.parent[z] == x && z != t.root
    requires e == t.right[y] && In(g, e) && LinkOk(t, g, e) && Local(t, c, z, true, e) && !c.red[y] && c.red[e]
    requires |c'.red| == |c'.bh| == |c.red|
    requires forall k :: 0 <= k < |c.red| ==>
      c'.red[k] == if k == e || k == x then false else if k == y then c.red[x] else c.red[k]
    requires forall k :: 0 <= k < |c.red| ==>
      c'.bh[k] == if k == e then c.bh[e] + 1 else if k == x then c.bh[y] else if k == y then c.bh[x] else c.bh[k]
    requires n == x || n == y || n == e
    ensures Painted(t', c') && Local(t', c', NIL, false, n)
  {}

  lemma RotateLast(t: Links, g: Layout, c: Paint, t': Links, c': Paint, x: int, y: int, b: int, p: int,
          z: int) returns (g': Layout)
    requires Inv(t, g, c, z, true) && In(g, x) && y == t.right[x] && 0 < y < |t.left| && b == t.left[y]
    requires p == t.parent[x]
    requires 0 <= p < |t.left| && 0 <= b < |t.left| && t.left[x] == z && t.parent[z] == x && z != t.root && !c.red[z]
    requires RotatedLeft(t, t', x, y, b, p)
    requires 0 <= t.right[y] < |t.left| && !c.red[y] && c.red[t.right[y]] && c' == Last(c, x, y, t.right[y])
    ensures Inv(t', g', c', NIL, false) && g'.order == g.order
    ensures forall n {:trigger In(g', n)} :: In(g', n) <==> In(g, n)
  {
    hide Inv, AroundRot, Local, RotatedLeft;
    LastSetup(t, g, c, x, y, b, p, z);
    var e := t.right[y];
    LastPivots(t, g, c, t', c', x, y, b, p, z, e, x);
    LastPivots(t, g, c, t', c', x, y, b, p, z, e, y);
    LastPivots(t, g, c, t', c', x, y, b, p, z, e, e);
    g' := RotateInv(t, g, c, t', c', x, y, b, p, e, z, true, NIL, false);
  }

  lemma LastSetup(t: Links, g: Layout, c: Paint, x: int, y: int, b: int, p: int, z: int)
    requires Inv(t, g, c, z, true) && In(g, x) && y == t.right[x] && 0 < y < |t.left| && b == t.left[y]
    requires p == t.parent[x] && 0 <= p < |t.left| && 0 <= b < |t.left| && t.left[x] == z && t.parent[z] == x
    requires z != t.root && !c.red[z] && 0 <= t.right[y] < |t.left| && !c.red[y] && c.red[t.right[y]]
    ensures AroundRot(t, g, c, x, y, b, p, z, true) && In(g, t.right[y]) && LinkOk(t, g, t.right[y])
    ensures Sized(t, g) && Painted(t, c) && Local(t, c, z, true, t.right[y]) && t.right[y] != t.root && t.root != NIL
  {
    var e := t.right[y];
    assert LinkOk(t, g, x) && LinkOk(t, g, y) && LinkOk(t, g, e);
    assert z != NIL ==> LinkOk(t, g, z);
    assert Local(t, c, z, true, x) && Local(t, c, z, true, y) && Local(t, c, z, true, e);
  }

  // ----- steps that only recolour -----

  // Both children of q are red, one of them is the parent of the exempted node.
  function PushRed(c: Paint, q: int, l: int, r: int): Paint
    requires 0 <= q < |c.red| == |c.bh| && 0 <= l < |c.red| && 0 <= r < |c.red|
  {
    Paint(c.red[l := false][r := false][q := true], c.bh[l := c.bh[l] + 1][r := c.bh[r] + 1])
  }

  lemma PushRedAt(t: Links, g: Layout, c: Paint, c': Paint, z: int, q: int, l: int, r: int, n: int)
    requires Painted(t, c) && Sized(t, g) && In(g, z) && LinkOk(t, g, z) && In(g, q) && LinkOk(t, g, q)
    requires l == t.left[q] && r == t.right[q]
    requires In(g, l) && In(g, r) && c.red[l] && c.red[r] && (t.parent[z] == l || t.parent[z] == r)
    requires In(g, n) && LinkOk(t, g, n) && Local(t, c, z, false, n) && Local(t, c, z, false, q)
    requires c' == PushRed(c, q, l, r)
    ensures Painted(t, c') && Local(t, c', q, false, n)
  {}

  lemma PushRedInv(t: Links, g: Layout, c: Paint, c': Paint, z: int, q: int)
    requires Inv(t, g, c, z, false) && In(g, z) && In(g, q) && 0 <= t.left[q] < |t.left| && 0 <= t.right[q] < |t.left|
    requires var l, r := t.left[q], t.right[q];
      c.red[l] && c.red[r] && (t.parent[z] == l || t.parent[z] == r) && c' == PushRed(c, q, l, r)
    ensures Inv(t, g, c', q, false)
  {
    var l, r := t.left[q], t.right[q];
    assert LinkOk(t, g, z) && LinkOk(t, g, q) && Local(t, c, z, false, q);
    forall n | In(g, n) ensures Painted(t, c') && Local(t, c', q, false, n) {
      assert LinkOk(t, g, n) && Local(t, c, z, false, n);
      hide Inv, Shape, LinkOk, Local;
      PushRedAt(t, g, c, c', z, q, l, r, n);
    }
    assert t.root != NIL ==> LinkOk(t, g, t.root);
    assert t.root != l && t.root != r;
  }

  // The sibling w of the short node z is black with black children: w turns red and the parent x becomes short.
  function PushHole(c: Paint, x: int, w: int): Paint
    requires 0 <= x < |c.red| == |c.bh| && 0 <= w < |c.red|
  {
    Paint(c.red[w := true], c.bh[w := c.bh[w] - 1][x := c.bh[x] - 1])
  }

  lemma PushHoleAt(t: Links, g: Layout, c: Paint, c': Paint, z: int, x: int, w: int, n: int)
    requires Painted(t, c) && Sized(t, g) && (z == NIL || (In(g, z) && LinkOk(t, g, z))) && z != t.root
    requires x == t.parent[z]
    requires In(g, x) && LinkOk(t, g, x) && Local(t, c, z, true, x) && In(g, w) && LinkOk(t, g, w)
    requires Local(t, c, z, true, w)
    requires (t.left[x] == z && t.right[x] == w) || (t.left[x] == w && t.right[x] == z)
    requires z != w && !c.red[w] && !c.red[z] && !c.red[t.left[w]] && !c.red[t.right[w]]
    requires In(g, n) && LinkOk(t, g, n) && Local(t, c, z, true, n)
    requires c' == PushHole(c, x, w)
    ensures Painted(t, c') && Local(t, c', x, true, n)
  {}

  lemma PushHoleInv(t: Links, g: Layout, c: Paint, c': Paint, z: int, x: int, w: int)
    requires Inv(t, g, c, z, true) && z != t.root && x == t.parent[z] && In(g, x) && 0 < w < |t.left|
    requires (t.left[x] == z && t.right[x] == w) || (t.left[x] == w && t.right[x] == z)
    requires 0 <= t.left[w] < |t.left| && 0 <= t.right[w] < |t.left|
    requires z != w && !c.red[w] && !c.red[z] && !c.red[t.left[w]] && !c.red[t.right[w]] && c' == PushHole(c, x, w)
    ensures Inv(t, g, c', x, true)
  {
    assert z != NIL ==> LinkOk(t, g, z);
    assert LinkOk(t, g, x) && Local(t, c, z, true, x);
    assert LinkOk(t, g, w) && Local(t, c, z, true, w);
    forall n | In(g, n) ensures Painted(t, c') && Local(t, c', x, true, n) {
      assert LinkOk(t, g, n) && Local(t, c, z, true, n);
      hide Inv, Shape, LinkOk, Local;
      PushHoleAt(t, g, c, c', z, x, w, n);
    }
    if t.parent[x] != NIL { assert LinkOk(t, g, t.parent[x]); }
  }

  function Blacken(c: Paint, n: int): Paint
    requires 0 <= n < |c.red| == |c.bh|
  {
    Paint(c.red[n := false], c.bh[n := c.bh[n] + if c.red[n] then 1 else 0])
  }

  // Insertion ends: z has a black parent, or is the root.
  lemma BlackenRoot(t: Links, g: Layout, c: Paint, z: int)
    requires Inv(t, g, c, z, false) && (z != NIL && z != t.root ==> 0 <= t.parent[z] < |t.left| && !c.red[t.parent[z]])
    ensures Inv(t, g, Blacken(c, t.root), NIL, false) && !Blacken(c, t.root).red[t.root]
  {
    var c' := Blacken(c, t.root);
    if t.root != NIL { assert LinkOk(t, g, t.root); }
    forall n | In(g, n) ensures Local(t, c', NIL, false, n) {
      assert LinkOk(t, g, n) && Local(t, c, z, false, n);
    }
  }

  // Deletion ends: the short node is red or the root.
  lemma BlackenHole(t: Links, g: Layout, c: Paint, z: int)
    requires Inv(t, g, c, z, true) && (z == t.root || c.red[z])
    ensures Inv(t, g, Blacken(c, z), NIL, false) && !Blacken(c, z).red[t.root]
  {
    var c' := Blacken(c, z);
    if z != NIL { assert LinkOk(t, g, z); }
    forall n | In(g, n) ensures Local(t, c', NIL, false, n) {
      assert LinkOk(t, g, n) && Local(t, c, z, true, n);
    }
  }

  // ----- adding and removing a node -----

  function Enter(c: Paint, z: int): Paint
    requires 0 <= z < |c.red| == |c.bh|
  { Paint(c.red[z := true], c.bh[z := 0]) }

  lemma AttachInv(t: Links, g: Layout, c: Paint, t': Links, z: int, y: int) returns (g': Layout)
    requires Inv(t, g, c, NIL, false) && 0 < z < |t.left| && !In(g, z) && In(g, y) && t.left[y] == NIL
    requires Attached(t, t', z, y)
    ensures Inv(t', g', Enter(c, z), z, false) && LinkOk(t, g, y) && Grown(g, g', z, g.span[y].at)
    ensures forall n {:trigger In(g', n)} :: In(g', n) <==> In(g, n) || n == z
  {
    g' := AttachShape(t, g, t', z, y);
    var c' := Enter(c, z);
    forall n | In(g, n) ensures Local(t', c', z, false, n) {
      assert LinkOk(t, g, n) && Local(t, c, NIL, false, n);
      hide Shape, Linked, Ordered, Rooted, Grown;
    }
  }

  lemma SpliceInv(t: Links, g: Layout, c: Paint, t': Links, z: int, x: int, p: int) returns (g': Layout)
    requires Inv(t, g, c, NIL, false) && In(g, z) && t.left[z] == NIL && x == t.right[z] && p == t.parent[z]
    requires 0 <= x < |t.left| && 0 <= p < |t.left| && Spliced(t, t', z, x, p)
    ensures if c.red[z] then Inv(t', g', c, NIL, false) && x == NIL && t'.root == t.root else Inv(t', g', c, x, true)
    ensures 0 <= g.span[z].at < |g.order| && Dropped(g, g', z)
    ensures forall n {:trigger In(g', n)} :: In(g', n) <==> In(g, n) && n != z
  {
    assert AroundSplice(t, g, z, x, p) && Local(t, c, NIL, false, z) by {
      assert LinkOk(t, g, z) && Local(t, c, NIL, false, z);
    }
    assert In(g, x) ==> Local(t, c, NIL, false, x);
    assert In(g, p) ==> Local(t, c, NIL, false, p);
    assert t.root != NIL ==> LinkOk(t, g, t.root);
    g' := SpliceShape(t, g, t', z, x, p);
    var z', hole := if c.red[z] then NIL else x, !c.red[z];
    forall n | In(g, n) && n != z ensures Local(t', c, z', hole, n) {
      assert LinkOk(t, g, n) && Local(t, c, NIL, false, n);
      SpliceLocal(t, g, c, t', z, x, p, n);
    }
  }

  lemma SpliceLocal(t: Links, g: Layout, c: Paint, t': Links, z: int, x: int, p: int, n: int)
    requires Painted(t, c) && AroundSplice(t, g, z, x, p) && Local(t, c, NIL, false, z) && Spliced(t, t', z, x, p)
    requires t.root != NIL
    requires In(g, x) ==> Local(t, c, NIL, false, x)
    requires In(g, n) && n != z && LinkOk(t, g, n) && Local(t, c, NIL, false, n)
    ensures Painted(t', c) && Local(t', c, if c.red[z] then NIL else x, !c.red[z], n)
  {}

  function Copy(c: Paint, y: int, z: int): Paint
    requires 0 <= z < |c.red| == |c.bh| && 0 <= y < |c.red|
  { Paint(c.red[y := c.red[z]], c.bh[y := c.bh[z]]) }

  ghost predicate AroundSub(t: Links, g: Layout, c: Paint, z: int, y: int, x: int, hole: bool) {
    && Painted(t, c) && Sized(t, g) && In(g, z) && LinkOk(t, g, z) && t.left[z] != NIL
    && 0 < y < |t.left| && y != z && !In(g, y) && t.root != y && t.root != NIL
    && (x == NIL || (In(g, x) && LinkOk(t, g, x))) && x != z && (hole ==> Placed(t, g, x)) && Local(t, c, x, hole, z)
    && (hole && x == t.right[z] ==> t.parent[x] == z)
  }

  // What Local looks at, seen alike in two trees.
  ghost predicate SameView(t: Links, c: Paint, t': Links, c': Paint, x: int, hole: bool, n: int)
    requires 0 <= n < |t.left| && 0 <= x < |t.left| == |t.right| == |t.parent| == |c.red| == |c.bh|
    requires |t.left| == |t'.left| == |t'.right| == |t'.parent| == |c'.red| == |c'.bh| && Kids(t, n) && Kids(t', n)
  {
    var l, r, l', r' := t.left[n], t.right[n], t'.left[n], t'.right[n];
    && (hole && x != t'.root && n == t'.parent[x]) == (hole && x != t.root && n == t.parent[x])
    && (l' == x) == (l == x) && (r' == x) == (r == x)
    && c'.bh[l'] == c.bh[l] && c'.bh[r'] == c.bh[r] && c'.red[l'] == c.red[l] && c'.red[r'] == c.red[r]
    && c'.bh[n] == c.bh[n] && c'.red[n] == c.red[n]
  }

  lemma LocalSame(t: Links, c: Paint, t': Links, c': Paint, x: int, hole: bool, n: int)
    requires Painted(t, c) && Painted(t', c') && |t'.left| == |t.left| && 0 <= n < |t.left| && 0 <= x < |t.left|
    requires Kids(t, n) && Kids(t', n) && SameView(t, c, t', c', x, hole, n) && Local(t, c, x, hole, n)
    ensures Local(t', c', x, hole, n)
  {}

  lemma SubstituteView(t: Links, g: Layout, c: Paint, t': Links, c': Paint, z: int, y: int, x: int, hole: bool, n: int)
    requires AroundSub(t, g, c, z, y, x, hole) && Substituted(t, t', z, y) && c' == Copy(c, y, z)
    requires In(g, n) && n != z && LinkOk(t, g, n)
    ensures Painted(t', c') && |t'.left| == |t.left| && Kids(t, n) && Kids(t', n) && SameView(t, c, t', c', x, hole, n)
  {
    hide Local;
    KidsNotNew(t, g, n, y);
    ParentLinks(t, g, z);
  }

  lemma SubstituteLocal(t: Links, g: Layout, c: Paint, t': Links, c': Paint, z: int, y: int, x: int, hole: bool, n: int)
    requires AroundSub(t, g, c, z, y, x, hole) && Substituted(t, t', z, y) && c' == Copy(c, y, z)
    requires In(g, n) && n != z && LinkOk(t, g, n) && Local(t, c, x, hole, n)
    ensures Painted(t', c') && Local(t', c', x, hole, n)
  {
    hide Local, LinkOk, Substituted, SameView;
    SubstituteView(t, g, c, t', c', z, y, x, hole, n);
    LocalSame(t, c, t', c', x, hole, n);
  }

  lemma ParentLinks(t: Links, g: Layout, z: int)
    requires Sized(t, g) && In(g, z) && LinkOk(t, g, z)
    ensures var p := t.parent[z]; p == NIL || (0 < p < |t.left| && (t.left[p] == z || t.right[p] == z))
  {}

  lemma KidsNotNew(t: Links, g: Layout, n: int, y: int)
    requires Sized(t, g) && In(g, n) && LinkOk(t, g, n) && y != NIL && !In(g, y)
    ensures t.left[n] != y && t.right[n] != y && n != y && t.parent[n] != y && Kids(t, n)
    ensures t.left[n] != NIL ==> t.parent[t.left[n]] == n && t.left[n] != t.right[n]
    ensures t.right[n] != NIL ==> t.parent[t.right[n]] == n && t.left[n] != t.right[n]
  {}

  lemma SubstituteLocalNew(t: Links, g: Layout, c: Paint, t': Links, c': Paint, z: int, y: int, x: int, hole: bool)
    requires AroundSub(t, g, c, z, y, x, hole) && Substituted(t, t', z, y) && c' == Copy(c, y, z)
    ensures Painted(t', c') && Local(t', c', x, hole, y)
  {}

  lemma SubstitutePlaced(t: Links, g: Layout, c: Paint, t': Links, g': Layout, z: int, y: int, x: int)
    requires AroundSub(t, g, c, z, y, x, true) && Substituted(t, t', z, y) && Sized(t', g')
    requires x != t.root ==> LinkOk(t, g, t.parent[x])
    requires forall n {:trigger In(g', n)} :: In(g', n) <==> (In(g, n) && n != z) || n == y
    ensures Placed(t', g', x)
  {}

  lemma SubstituteInv(t: Links, g: Layout, c: Paint, t': Links, z: int, y: int, x: int, hole: bool) returns (g': Layout)
    requires Inv(t, g, c, x, hole) && In(g, z) && 0 < y < |t.left| && y != z && !In(g, y) && x != z && t.left[z] != NIL
    requires hole && x == t.right[z] ==> t.parent[x] == z
    requires Substituted(t, t', z, y)
    ensures Inv(t', g', Copy(c, y, z), x, hole) && LinkOk(t, g, z) && g'.order == g.order[g.span[z].at := y]
    ensures forall n {:trigger In(g', n)} :: In(g', n) <==> (In(g, n) && n != z) || n == y
  {
    var c' := Copy(c, y, z);
    assert AroundSub(t, g, c, z, y, x, hole) by {
      assert LinkOk(t, g, z) && Local(t, c, x, hole, z);
      assert x != NIL ==> LinkOk(t, g, x);
    }
    assert hole && x != t.root ==> LinkOk(t, g, t.parent[x]);
    g' := SubstituteShape(t, g, t', z, y);
    if hole { SubstitutePlaced(t, g, c, t', g', z, y, x); }
    SubstituteLocals(t, g, c, t', g', c', z, y, x, hole);
  }

  lemma SubstituteLocals(t: Links, g: Layout, c: Paint, t': Links, g': Layout, c': Paint, z: int, y: int, x: int,
          hole: bool)
    requires AroundSub(t, g, c, z, y, x, hole) && Substituted(t, t', z, y) && c' == Copy(c, y, z) && Linked(t, g)
    requires forall n {:trigger Local(t, c, x, hole, n)} :: In(g, n) ==> Local(t, c, x, hole, n)
    requires forall n {:trigger In(g', n)} :: In(g', n) <==> (In(g, n) && n != z) || n == y
    requires Sized(t', g')
    ensures Painted(t', c')
    ensures forall n {:trigger Local(t', c', x, hole, n)} :: In(g', n) ==> Local(t', c', x, hole, n)
  {
    SubstituteLocalNew(t, g, c, t', c', z, y, x, hole);
    forall n | In(g', n) ensures Local(t', c', x, hole, n) {
      if n != y {
        assert LinkOk(t, g, n) && Local(t, c, x, hole, n);
        SubstituteLocal(t, g, c, t', c', z, y, x, hole, n);
      }
    }
  }
}
