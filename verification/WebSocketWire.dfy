// The wire format of a frame byte by byte (section 5.2 of RFC 6455), and which bytes the decoder takes for a frame.
module WebSocketWire {
  import opened Basics
  import opened WebSocket

  // A frame as it stands on the wire: reserved bits, the size of the extended length field, and the data still masked.
  datatype Wire = Wire(fin: bool, rsv: int, opcode: int, masked: bool, form: nat, key: seq<int>, data: seq<int>)

  ghost predicate WireOk(w: Wire) {
    && 0 <= w.rsv < 8 && 0 <= w.opcode < 16 && Bytes(w.key) && |w.key| == (if w.masked then 4 else 0) && Bytes(w.data)
    && ((w.form == 0 && |w.data| <= 125) || (w.form == 2 && |w.data| < 65536) || (w.form == 8 && |w.data| < Pow256(8)))
  }

  // Byte i of a length in k bytes, the highest first.
  ghost function LengthByte(n: nat, k: nat, i: nat): int
    requires i < k
  { n / Pow256(k - 1 - i) % 256 }

  ghost function Head2(w: Wire): seq<int> {
    [(if w.fin then 128 else 0) + w.rsv * 16 + w.opcode,
     (if w.masked then 128 else 0) + if w.form == 0 then |w.data| else if w.form == 2 then 126 else 127]
  }

  ghost function WireBytes(w: Wire): (r: seq<int>)
    ensures |r| == 2 + w.form + |w.key| + |w.data|
  { Head2(w) + seq(w.form, i requires 0 <= i < w.form => LengthByte(|w.data|, w.form, i)) + w.key + w.data }

  // The frame with its data unmasked: every bit is flipped where the key has a one.
  ghost predicate FrameOf(w: Wire, f: Frame) {
    && f.fin == w.fin && f.opcode == w.opcode && f.masked == w.masked && f.key == w.key && |f.payload| == |w.data|
    && (!w.masked ==> f.payload == w.data)
    && (w.masked ==> |w.key| == 4 && forall i :: 0 <= i < |w.data| ==> Flipped(w.data[i], w.key[i % 4], f.payload[i]))
  }

  ghost function Bit(x: int, i: nat): int { x / Pow2(i) % 2 }

  ghost predicate Flipped(a: int, b: int, r: int) {
    0 <= r < 256 && forall i: nat :: i < 8 ==> Bit(r, i) == (Bit(a, i) + Bit(b, i)) % 2
  }

  // ----- bits and bytes -----

  lemma DivPow2(x: int, i: nat)
    requires i > 0
    ensures x / Pow2(i) == x / 2 / Pow2(i - 1)
  {
    DivDiv(x, 2, Pow2(i - 1));
  }

  lemma DivDiv(x: int, a: int, b: int)
    requires a > 0 && b > 0
    ensures a * b > 0 && x / (a * b) == x / a / b
  {
    MulPos(a, b);
    var q, r := x / a, x % a;
    var q', r' := q / b, q % b;
    assert x == a * q + r && q == b * q' + r';
    assert a * q == a * (b * q') + a * r';
    assert a * (b * q') == (a * b) * q' by { MulAssoc(a, b, q'); }
    BoundRest(a, b, r, r');
    DivIs(x, a * b, q', a * r' + r);
  }

  lemma MulPos(a: int, b: int)
    requires a > 0 && b > 0
    ensures a * b > 0
  {}

  lemma MulAssoc(a: int, b: int, c: int)
    ensures a * (b * c) == (a * b) * c
  {}

  lemma BoundRest(a: int, b: int, r: int, r': int)
    requires 0 <= r < a && 0 <= r' < b
    ensures 0 <= a * r' + r < a * b
  {
    assert a * r' <= a * (b - 1) by { MulLe(a, r', b - 1); }
    assert a * (b - 1) == a * b - a;
    MulLe(a, 0, r');
  }

  lemma MulLe(a: int, x: int, y: int)
    requires a >= 0 && x <= y
    ensures a * x <= a * y
  {}

  lemma DivIs(x: int, m: int, q: int, r: int)
    requires m > 0 && x == m * q + r && 0 <= r < m
    ensures x / m == q
  {
    var d := x / m - q;
    assert x == m * (x / m) + x % m;
    assert m * (x / m) - m * q == m * d;
    if d >= 1 { MulLe(m, 1, d); } else if d <= -1 { MulLe(m, d, -1); }
  }

  lemma BitUp(x: int, i: nat)
    requires i > 0
    ensures Bit(x, i) == Bit(x / 2, i - 1)
  {
    DivPow2(x, i);
  }

  lemma {:induction false} XorBit(a: int, b: int, k: nat, i: nat)
    requires i < k
    ensures Bit(Xor(a, b, k), i) == (Bit(a, i) + Bit(b, i)) % 2
    decreases k
  {
    hide Xor, Pow2, Bit;
    XorStep(a, b, k);
    var x := Xor(a / 2, b / 2, k - 1);
    if i == 0 { LowBits(a, b, x); } else {
      Halves(x, (a + b) % 2);
      BitUp(Xor(a, b, k), i);
      BitUp(a, i);
      BitUp(b, i);
      XorBit(a / 2, b / 2, k - 1, i - 1);
    }
  }

  lemma LowBits(a: int, b: int, x: int)
    ensures Bit(a, 0) == a % 2 && Bit(b, 0) == b % 2 && Bit(2 * x + (a + b) % 2, 0) == (a % 2 + b % 2) % 2
  {
    assert Pow2(0) == 1;
  }

  lemma MaskFlips(data: seq<int>, key: seq<int>)
    requires |key| == 4 && Bytes(data) && Bytes(key)
    ensures forall i :: 0 <= i < |data| ==> Flipped(data[i], key[i % 4], Mask(data, key)[i])
  {
    hide Flipped, Xor;
    MaskTwice(data, key);
    forall i | 0 <= i < |data| ensures Flipped(data[i], key[i % 4], Mask(data, key)[i]) {
      XorFlips(data[i], key[i % 4]);
    }
  }

  lemma XorFlips(a: int, b: int)
    requires 0 <= Xor(a, b, 8) < 256
    ensures Flipped(a, b, Xor(a, b, 8))
  {
    hide Bit, Xor;
    forall j: nat | j < 8 ensures Bit(Xor(a, b, 8), j) == (Bit(a, j) + Bit(b, j)) % 2 { XorBit(a, b, 8, j); }
  }

  ghost function Unmasked(w: Wire): Frame
    requires w.masked ==> |w.key| == 4
  { Frame(w.fin, w.opcode, w.masked, w.key, if w.masked then Mask(w.data, w.key) else w.data) }

  lemma UnmaskedIs(w: Wire)
    requires WireOk(w)
    ensures FrameOf(w, Unmasked(w))
  {
    hide Mask, Flipped;
    if w.masked { MaskFlips(w.data, w.key); }
  }

  lemma {:induction false} BeByte(n: nat, k: nat, i: nat)
    requires i < k
    ensures Be(n, k)[i] == LengthByte(n, k, i)
  {
    if i == k - 1 { assert Pow256(0) == 1; } else {
      BeByte(n / 256, k - 1, i);
      assert Pow256(k - 1 - i) == 256 * Pow256(k - 2 - i);
      DivDiv(n, 256, Pow256(k - 2 - i));
    }
  }

  lemma BeBytes(n: nat, k: nat)
    ensures Be(n, k) == seq(k, i requires 0 <= i < k => LengthByte(n, k, i))
  {
    forall i | 0 <= i < k ensures Be(n, k)[i] == LengthByte(n, k, i) { BeByte(n, k, i); }
  }

  // ----- the encoder -----

  // The encoder writes no reserved bits and the shortest form of the length.
  lemma EncodeIsWire(f: Frame) returns (w: Wire)
    requires FrameOk(f) && |f.payload| < Pow256(8)
    ensures WireOk(w) && WireBytes(w) == Encode(f) && FrameOf(w, f) && w.rsv == 0
    ensures w.form == if |f.payload| <= 125 then 0 else if |f.payload| <= 65535 then 2 else 8
  {
    hide Be, Mask, Flipped, LengthByte, Pow256;
    var n := |f.payload|;
    w := Wire(f.fin, 0, f.opcode, f.masked, if n <= 125 then 0 else if n <= 65535 then 2 else 8, f.key, Body(f));
    BeBytes(n, w.form);
    assert Head(f) == Head2(w) + Be(n, w.form) by { assert Be(n, 0) == []; }
    if f.masked {
      MaskTwice(f.payload, f.key);
      MaskFlips(Body(f), f.key);
    }
  }

  // ----- the decoder -----

  lemma WireHead(w: Wire, rest: seq<int>)
    requires WireOk(w) && Bytes(rest)
    ensures var d := Head2(w) + Be(|w.data|, w.form) + rest;
      && Bytes(d) && |d| >= 2 && d[0] % 16 == w.opcode && (d[0] / 128 % 2 == 1) == w.fin
      && (d[1] / 128 % 2 == 1) == w.masked && Length(d) == (2 + w.form, |w.data|)
  {
    hide Be, FromBe;
    var n := |w.data|;
    var d := Head2(w) + Be(n, w.form) + rest;
    FlagBits(w.masked, if w.form == 0 then n else if w.form == 2 then 126 else 127);
    if w.form > 0 {
      assert d[2..2 + w.form] == Be(n, w.form);
      assert Pow256(2) == 65536;
      FromBeBe(n, w.form);
    }
  }

  // The decoder reads every wire frame, whatever its reserved bits and the form of its length, and refuses it exactly
  // if its payload is above the limit.
  lemma WireDecodes(w: Wire, rest: seq<int>)
    requires WireOk(w) && Bytes(rest)
    ensures Bytes(WireBytes(w) + rest)
    ensures |w.data| > 1048576 ==> Decode(WireBytes(w) + rest) == Bad
    ensures |w.data| <= 1048576 ==> var r := Decode(WireBytes(w) + rest);
      r.Got? && FrameOf(w, r.frame) && r.consumed == |WireBytes(w)|
  {
    hide Be, Mask, Length, FrameOf, Decode, WireBytes, Head2, Unmasked, WireOk, Bytes;
    UnmaskedIs(w);
    WireSplit(w);
    var head := Head2(w) + Be(|w.data|, w.form);
    Regroup(head, w.key, w.data, rest);
    TailBytes(w, rest);
    WireHead(w, w.key + w.data + rest);
    Parts(head, w.key, w.data, rest);
    DecodeTail(w, head + w.key + w.data + rest);
  }

  lemma WireSplit(w: Wire)
    ensures WireBytes(w) == Head2(w) + Be(|w.data|, w.form) + w.key + w.data
    ensures |Head2(w) + Be(|w.data|, w.form)| == 2 + w.form
  {
    hide Be, LengthByte;
    BeBytes(|w.data|, w.form);
  }

  lemma Regroup(a: seq<int>, b: seq<int>, c: seq<int>, d: seq<int>)
    ensures a + b + c + d == a + (b + c + d)
  {}

  lemma TailBytes(w: Wire, rest: seq<int>)
    requires WireOk(w) && Bytes(rest)
    ensures Bytes(w.key + w.data + rest) && |w.key| == if w.masked then 4 else 0
  {}

  // Once the head is read, key and data follow.
  lemma DecodeTail(w: Wire, d: seq<int>)
    requires Bytes(d) && |d| >= 2 && Length(d) == (2 + w.form, |w.data|) && |w.key| == (if w.masked then 4 else 0)
    requires d[0] % 16 == w.opcode && (d[0] / 128 % 2 == 1) == w.fin && (d[1] / 128 % 2 == 1) == w.masked
    requires var p := 2 + w.form; var q := p + |w.key|;
      q + |w.data| <= |d| && d[p..q] == w.key && d[q..q + |w.data|] == w.data
    ensures Decode(d) == if |w.data| > 1048576 then Bad else
      Got(Unmasked(w), 2 + w.form + |w.key| + |w.data|)
  {
    hide Length, Mask;
  }

  // A proper start of at least two bytes asks for more, as far as the length is not known to be above the limit.
  lemma WireStarts(w: Wire, n: int)
    requires WireOk(w) && 2 <= n < |WireBytes(w)|
    ensures Bytes(WireBytes(w)[..n])
    ensures n < 2 + w.form || |w.data| <= 1048576 ==> Decode(WireBytes(w)[..n]) == More
    ensures n >= 2 + w.form && |w.data| > 1048576 ==> Decode(WireBytes(w)[..n]) == Bad
  {
    hide Be, Mask, LengthByte, Length;
    BeBytes(|w.data|, w.form);
    var e := WireBytes(w);
    assert e + [] == e;
    assert Bytes(e) by { hide Decode; WireDecodes(w, []); }
    var d := e[..n];
    if n >= 2 + w.form {
      var rest := d[2 + w.form..];
      assert d == Head2(w) + Be(|w.data|, w.form) + rest;
      WireHead(w, rest);
    } else {
      LengthMissing(w, d);
    }
  }

  lemma LengthMissing(w: Wire, d: seq<int>)
    requires WireOk(w) && 2 <= |d| < 2 + w.form && Bytes(d) && d[1] == Head2(w)[1]
    ensures Length(d).0 == -1
  {
    FlagBits(w.masked, if w.form == 2 then 126 else 127);
  }

  ghost function Flag(b: int): bool { b / 128 % 2 == 1 }
  ghost function Reserved(b: int): int { b / 16 % 8 }
  ghost function Low(b: int): int { b % 16 }

  // The wire frame whose first two bytes are those of d.
  ghost function WireFrom(d: seq<int>, form: nat, key: seq<int>, data: seq<int>): Wire
    requires |d| >= 2
  { Wire(Flag(d[0]), Reserved(d[0]), Low(d[0]), Flag(d[1]), form, key, data) }

  // The second byte of d announces a length n in that form.
  ghost predicate FormOk(d: seq<int>, form: nat, n: nat)
    requires |d| >= 2
  {
    || (form == 0 && n <= 125 && d[1] % 128 == n)
    || (form == 2 && n < 65536 && d[1] % 128 == 126)
    || (form == 8 && n < Pow256(8) && d[1] % 128 == 127)
  }

  lemma HeadFrom(d: seq<int>, form: nat, key: seq<int>, data: seq<int>)
    requires Bytes(d) && |d| >= 2 && FormOk(d, form, |data|)
    requires Bytes(key) && Bytes(data) && |key| == if Flag(d[1]) then 4 else 0
    ensures WireOk(WireFrom(d, form, key, data))
    ensures WireBytes(WireFrom(d, form, key, data)) == d[..2] + Be(|data|, form) + key + data
  {
    hide Be, LengthByte;
    ByteParts(d[0]);
    ByteParts(d[1]);
    BeBytes(|data|, form);
    assert Head2(WireFrom(d, form, key, data)) == d[..2];
  }

  // What decoding a frame reads.
  lemma DecodeParts(d: seq<int>)
    requires Bytes(d) && Decode(d).Got?
    ensures var (p, n) := Length(d); var q := if Flag(d[1]) then p + 4 else p;
      && 2 <= p <= q && 0 <= n <= 1048576 && q + n == Decode(d).consumed <= |d|
      && Decode(d).frame == Frame(Flag(d[0]), Low(d[0]), Flag(d[1]), d[p..q],
        if Flag(d[1]) then Mask(d[q..q + n], d[p..q]) else d[q..q + n])
  {
    hide Length, Mask;
  }

  // Whatever the decoder takes for a frame is a wire frame.
  lemma DecodesOnly(d: seq<int>) returns (w: Wire)
    requires Bytes(d) && Decode(d).Got?
    ensures WireOk(w) && |w.data| <= 1048576 && WireBytes(w) == d[..Decode(d).consumed] && FrameOf(w, Decode(d).frame)
  {
    hide Mask, FrameOf, Length, WireBytes, Be, WireOk, Decode, Flag, Reserved, Low, FormOk;
    DecodeParts(d);
    LengthBack(d);
    var (p, n) := Length(d);
    var q := if Flag(d[1]) then p + 4 else p;
    var key, data := d[p..q], d[q..q + n];
    w := WireFrom(d, p - 2, key, data);
    HeadFrom(d, p - 2, key, data);
    Quarters(d, p, q, q + n);
    UnmaskedIs(w);
  }

  // A decoded frame can be encoded again, and everything that can be encoded within the limit can be decoded.
  lemma DecodedOk(f: Frame)
    ensures (exists d :: Bytes(d) && Decode(d).Got? && Decode(d).frame == f) <==> FrameOk(f) && |f.payload| <= 1048576
  {
    hide Decode, Encode;
    if d :| Bytes(d) && Decode(d).Got? && Decode(d).frame == f {
      var w := DecodesOnly(d);
      FlippedBytes(w, f);
    }
    if FrameOk(f) && |f.payload| <= 1048576 {
      LengthFits(|f.payload|);
      RoundTrip(f, []);
    }
  }

  lemma FlippedBytes(w: Wire, f: Frame)
    requires WireOk(w) && FrameOf(w, f)
    ensures FrameOk(f)
  {
    if w.masked {
      forall i | 0 <= i < |f.payload| ensures 0 <= f.payload[i] < 256 {
        assert Flipped(w.data[i], w.key[i % 4], f.payload[i]);
      }
    }
  }

  lemma Quarters(d: seq<int>, p: int, q: int, e: int)
    requires 2 <= p <= q <= e <= |d|
    ensures d[..2] + d[2..p] + d[p..q] + d[q..e] == d[..e]
  {}

  lemma ByteParts(b: int)
    requires 0 <= b < 256
    ensures b == b / 128 * 128 + b / 16 % 8 * 16 + b % 16 && b == b / 128 * 128 + b % 128 && 0 <= b / 128 < 2
  {}

  // The length field holds the bytes of the length.
  lemma LengthBack(d: seq<int>)
    requires Bytes(d) && |d| >= 2 && Length(d).0 >= 0
    ensures var (p, n) := Length(d); 2 <= p <= |d| && FormOk(d, p - 2, n) && d[2..p] == Be(n, p - 2)
  {
    hide FromBe, Be;
    var p := Length(d).0;
    assert Pow256(1) == 256;
    assert Pow256(2) == 65536;
    if p > 2 { BeFromBe(d[2..p]); } else { EmptyBe(d[1] % 128); }
  }

  lemma EmptyBe(n: nat)
    ensures Be(n, 0) == []
  {}

  lemma {:induction false} BeFromBe(s: seq<int>)
    requires Bytes(s)
    ensures FromBe(s) < Pow256(|s|) && Be(FromBe(s), |s|) == s
  {
    if s != [] {
      var k := |s| - 1;
      BeFromBe(s[..k]);
      var m := FromBe(s[..k]);
      assert (m * 256 + s[k]) / 256 == m && (m * 256 + s[k]) % 256 == s[k];
      assert s == s[..k] + [s[k]];
    }
  }

  ghost function Zeros(n: nat): (r: seq<int>)
    ensures |r| == n && Bytes(r)
  { seq(n, _ => 0) }

  // What was read when more is asked for.
  lemma MoreParts(d: seq<int>)
    requires Bytes(d) && Decode(d) == More
    ensures |d| >= 2
    ensures Length(d).0 >= 0 ==>
      Length(d).1 <= 1048576 && |d| - Length(d).0 < (if Flag(d[1]) then 4 else 0) + Length(d).1
  {
    hide Length;
  }

  // And whatever it asks more for is a proper start of one: what is missing may be zeros.
  lemma AsksOnly(d: seq<int>) returns (w: Wire)
    requires Bytes(d) && Decode(d) == More
    ensures WireOk(w) && 2 <= |d| < |WireBytes(w)| && d == WireBytes(w)[..|d|]
    ensures |d| >= 2 + w.form ==> |w.data| <= 1048576
  {
    hide Mask, Flipped, Length, WireBytes, Be, WireOk, Decode, Flag, Reserved, Low, FormOk, Zeros;
    MoreParts(d);
    var k := if Flag(d[1]) then 4 else 0;
    if Length(d).0 >= 0 {
      var (p, n) := Length(d);
      LengthBack(d);
      var all := d[p..] + Zeros(k + n - (|d| - p));
      w := WireFrom(d, p - 2, all[..k], all[k..]);
      HeadFrom(d, p - 2, all[..k], all[k..]);
      Completed(d, p - 2, d[2..p], d[p..], all, k);
    } else {
      var form, len := LengthGuess(d);
      var all := Zeros(k + FromBe(len));
      w := WireFrom(d, form, all[..k], all[k..]);
      HeadFrom(d, form, all[..k], all[k..]);
      Completed(d, form, len, [], all, k);
    }
  }

  // A length field that is not complete yet goes on with zeros.
  lemma LengthGuess(d: seq<int>) returns (form: nat, len: seq<int>)
    requires Bytes(d) && |d| >= 2 && Length(d).0 < 0
    ensures |d| < 2 + form && |len| == form && d[2..] <= len && Bytes(len)
    ensures FormOk(d, form, FromBe(len)) && Be(FromBe(len), form) == len
  {
    hide FromBe, Be;
    form := if d[1] % 128 == 126 then 2 else 8;
    len := d[2..] + Zeros(2 + form - |d|);
    BeFromBe(len);
    assert Pow256(1) == 256;
    assert Pow256(2) == 65536;
  }

  lemma Completed(d: seq<int>, form: nat, len: seq<int>, tail: seq<int>, all: seq<int>, k: nat)
    requires |d| >= 2 && |len| == form && tail <= all && k <= |all|
    requires |d| >= 2 + form ==> d == d[..2] + len + tail
    requires |d| < 2 + form ==> d[2..] <= len
    ensures var e := d[..2] + len + all[..k] + all[k..]; |e| >= |d| && e[..|d|] == d
  {
    var e := d[..2] + len + all[..k] + all[k..];
    assert all[..k] + all[k..] == all;
    assert e == d[..2] + len + all;
    if |d| < 2 + form { assert d == d[..2] + d[2..]; }
  }

  // Everything else is refused: less than two bytes, or a length above the limit.
  lemma RefusesOnly(d: seq<int>)
    requires Bytes(d) && Decode(d) == Bad
    ensures |d| < 2 || (Length(d).0 >= 0 && Length(d).1 > 1048576)
  {}
}
