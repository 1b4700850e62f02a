// Arithmetic of taking turns around a ring.
module Turns {
  lemma MulSign(d: int, k: int)
    requires d > 0
    ensures k >= 1 ==> d * k >= d
    ensures k <= -1 ==> d * k <= -d
  {
    if k >= 1 { assert d * (k - 1) >= 0; } else if k <= -1 { assert d * (-1 - k) >= 0; }
  }

  lemma Divided(x: int, d: int)
    requires d > 0
    ensures x == d * (x / d) + x % d && 0 <= x % d < d
  {}

  // Quotient and remainder are the only ones that fit.
  lemma DivUnique(x: int, d: int, q: int, r: int)
    requires d > 0 && 0 <= r < d && x == d * q + r
    ensures x / d == q && x % d == r
  {
    Divided(x, d);
    Unique(d, q, r, x / d, x % d);
  }

  lemma Unique(d: int, q: int, r: int, q': int, r': int)
    requires d > 0 && 0 <= r < d && 0 <= r' < d && d * q + r == d * q' + r'
    ensures q == q' && r == r'
  {
    MulSign(d, q' - q);
    assert d * (q' - q) == d * q' - d * q;
  }

  lemma ModDistinct(j: int, n: int, cap: int)
    requires cap > 0 && 0 <= j < n && n - cap < j
    ensures j % cap != n % cap
  {
    Divided(j, cap);
    Divided(n, cap);
    MulSign(cap, n / cap - j / cap);
    assert cap * (n / cap - j / cap) == cap * (n / cap) - cap * (j / cap);
  }

  lemma NextTurn(n: int, cap: int)
    requires cap > 0 && n >= 0
    ensures (n % cap + 1) % cap == (n + 1) % cap && (n + 1 == cap ==> (n + 1) % cap == 0)
  {
    Divided(n, cap);
    var q, r := n / cap, n % cap;
    if r + 1 < cap {
      DivUnique(n + 1, cap, q, r + 1);
      DivUnique(r + 1, cap, 0, r + 1);
    } else {
      assert cap * (q + 1) == cap * q + cap;
      DivUnique(n + 1, cap, q + 1, 0);
      DivUnique(r + 1, cap, 1, 0);
    }
    if n + 1 == cap { DivUnique(n + 1, cap, 1, 0); }
  }

  // The latest turn before n that used slot i.
  lemma Turn(n: int, cap: int, i: int) returns (j: int)
    requires cap > 0 && 0 <= i < cap && 0 <= n && (n < cap ==> i < n)
    ensures 0 <= j < n && n - cap <= j && j % cap == i
  {
    Divided(n, cap);
    var q, r := n / cap, n % cap;
    MulSign(cap, q);
    if i < r { j := cap * q + i; DivUnique(j, cap, q, i); }
    else {
      j := cap * (q - 1) + i;
      assert cap * (q - 1) == cap * q - cap;
      DivUnique(j, cap, q - 1, i);
      MulSign(cap, q - 1);
    }
  }
}
