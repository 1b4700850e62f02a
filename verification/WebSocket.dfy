// WebSocket frames (sections 5.2 and 5.3 of RFC 6455): encoder, decoder and stream reader. Bytes are integers 0 to 255.
module WebSocket {
  import opened Basics

  const MAX_PAYLOAD := 1048576

  // The key has four bytes when the frame is masked, and is empty otherwise.
  datatype Frame = Frame(fin: bool, opcode: int, masked: bool, key: seq<int>, payload: seq<int>)

  // Bad: malformed or too short to start; More: a proper start of a frame.
  datatype Decoded = Bad | More | Got(frame: Frame, consumed: int)

  predicate Bytes(s: seq<int>) { forall i :: 0 <= i < |s| ==> 0 <= s[i] < 256 }

  predicate FrameOk(f: Frame) {
    0 <= f.opcode < 16 && Bytes(f.payload) && Bytes(f.key) && |f.key| == if f.masked then 4 else 0
  }

  // ----- masking -----

  // Exclusive or of the low k bits.
  function Xor(a: int, b: int, k: nat): (r: int)
    ensures r >= 0
    decreases k
  { if k == 0 then 0 else 2 * Xor(a / 2, b / 2, k - 1) + (a + b) % 2 }

  lemma Halves(x: int, bit: int)
    requires 0 <= bit < 2
    ensures (2 * x + bit) / 2 == x
  {}

  lemma Parity(x: int, a: int, b: int)
    ensures (2 * x + (a + b) % 2 + b) % 2 == a % 2
  {}

  lemma XorStep(a: int, b: int, k: nat)
    requires k > 0
    ensures Xor(a, b, k) == 2 * Xor(a / 2, b / 2, k - 1) + (a + b) % 2 && Pow2(k) == 2 * Pow2(k - 1)
  {}

  lemma {:induction false} XorTwice(a: int, b: int, k: nat)
    requires 0 <= a < Pow2(k) && 0 <= b
    ensures Xor(a, b, k) < Pow2(k) && Xor(Xor(a, b, k), b, k) == a
  {
    if k > 0 {
      hide Xor, Pow2;
      XorStep(a, b, k);
      XorTwice(a / 2, b / 2, k - 1);
      var x, y := Xor(a / 2, b / 2, k - 1), Xor(a, b, k);
      XorStep(y, b, k);
      Halves(x, (a + b) % 2);
      Parity(x, a, b);
    }
  }

  function Mask(p: seq<int>, key: seq<int>): (r: seq<int>)
    requires |key| == 4
    ensures |r| == |p|
  { seq(|p|, i requires 0 <= i < |p| => Xor(p[i], key[i % 4], 8)) }

  lemma MaskTwice(p: seq<int>, key: seq<int>)
    requires |key| == 4 && Bytes(p) && Bytes(key)
    ensures Mask(Mask(p, key), key) == p && Bytes(Mask(p, key))
  {
    assert Pow2(8) == 256 by { assert Pow2(2) == 4; assert Pow2(4) == 16; assert Pow2(6) == 64; }
    forall i | 0 <= i < |p|
      ensures Mask(Mask(p, key), key)[i] == p[i] && 0 <= Mask(p, key)[i] < 256
    {
      XorTwice(p[i], key[i % 4], 8);
    }
  }

  // ----- lengths -----

  // n in k bytes, the highest first.
  function Be(n: int, k: nat): (r: seq<int>)
    requires n >= 0
    ensures |r| == k && Bytes(r)
  { if k == 0 then [] else Be(n / 256, k - 1) + [n % 256] }

  function FromBe(s: seq<int>): (n: int)
    requires Bytes(s)
    ensures n >= 0
  { if s == [] then 0 else FromBe(s[..|s| - 1]) * 256 + s[|s| - 1] }

  function Pow256(k: nat): (n: int)
    ensures n >= 1
  { if k == 0 then 1 else 256 * Pow256(k - 1) }

  lemma {:induction false} FromBeBe(n: int, k: nat)
    requires 0 <= n < Pow256(k)
    ensures FromBe(Be(n, k)) == n
  {
    if k > 0 {
      var r := Be(n, k);
      assert r[..k - 1] == Be(n / 256, k - 1);
      FromBeBe(n / 256, k - 1);
    }
  }

  lemma {:induction false} Pow256Grows(j: nat, k: nat)
    requires j <= k
    ensures Pow256(j) <= Pow256(k)
  {
    if j < k { Pow256Grows(j, k - 1); }
  }

  lemma LengthFits(n: int)
    ensures (n <= 65535 ==> n < Pow256(2)) && (n <= MAX_PAYLOAD ==> n < Pow256(8))
  {
    assert Pow256(2) == 65536;
    assert Pow256(3) == 16777216;
    Pow256Grows(3, 8);
  }

  // ----- frames -----

  // The two fixed bytes and the extended length.
  function Head(f: Frame): (r: seq<int>)
    requires 0 <= f.opcode < 16
    ensures |r| == if |f.payload| <= 125 then 2 else if |f.payload| <= 65535 then 4 else 10
  {
    var n, bit := |f.payload|, if f.masked then 128 else 0;
    [(if f.fin then 128 else 0) + f.opcode] +
    (if n <= 125 then [bit + n] else if n <= 65535 then [bit + 126] + Be(n, 2) else [bit + 127] + Be(n, 8))
  }

  function Body(f: Frame): (r: seq<int>)
    requires f.masked ==> |f.key| == 4
    ensures |r| == |f.payload|
  { if f.masked then Mask(f.payload, f.key) else f.payload }

  function Encode(f: Frame): (r: seq<int>)
    requires FrameOk(f)
  { Head(f) + f.key + Body(f) }

  // Where the length field ends and what it says, or -1 when bytes are missing.
  function Length(d: seq<int>): (r: (int, int))
    requires |d| >= 2 && Bytes(d)
    ensures (r.0 == -1 || 2 <= r.0 <= |d|) && r.1 >= 0
  {
    var n := d[1] % 128;
    if n == 126 then (if |d| < 4 then (-1, 0) else (4, FromBe(d[2..4])))
    else if n == 127 then (if |d| < 10 then (-1, 0) else (10, FromBe(d[2..10])))
    else (2, n)
  }

  function Decode(d: seq<int>): (r: Decoded)
    requires Bytes(d)
    ensures r.Got? ==> 2 <= r.consumed <= |d|
  {
    if |d| < 2 then Bad else
      var masked := d[1] / 128 % 2 == 1;
      var (p, n) := Length(d);
      if p < 0 then More
      else if n > MAX_PAYLOAD then Bad
      else if masked && p + 4 > |d| then More
      else
        var q := if masked then p + 4 else p;
        if n > |d| - q then More
        else
          var key, raw := d[p..q], d[q..q + n];
          Got(Frame(d[0] / 128 % 2 == 1, d[0] % 16, masked, key, if masked then Mask(raw, key) else raw), q + n)
  }

  lemma FlagBits(flag: bool, n: int)
    requires 0 <= n < 128
    ensures var b := (if flag then 128 else 0) + n; (b / 128 % 2 == 1) == flag && b % 128 == n && b % 16 == n % 16
  {}

  // What the head of an encoded frame decodes to, whatever follows.
  lemma HeadRead(f: Frame, rest: seq<int>)
    requires FrameOk(f) && |f.payload| < Pow256(8) && Bytes(Head(f) + rest)
    ensures var d := Head(f) + rest; |d| >= 2 && Length(d) == (|Head(f)|, |f.payload|)
    ensures var d := Head(f) + rest;
      (d[0] / 128 % 2 == 1) == f.fin && d[0] % 16 == f.opcode && (d[1] / 128 % 2 == 1) == f.masked
  {
    hide Be, FromBe;
    var n, d := |f.payload|, Head(f) + rest;
    LengthFits(n);
    FlagBits(f.fin, f.opcode);
    FlagBits(f.masked, if n <= 125 then n else if n <= 65535 then 126 else 127);
    if 125 < n <= 65535 { FromBeBe(n, 2); assert d[2..4] == Be(n, 2); }
    else if n > 65535 { FromBeBe(n, 8); assert d[2..10] == Be(n, 8); }
  }

  lemma EncodeBytes(f: Frame)
    requires FrameOk(f)
    ensures Bytes(Encode(f))
  {
    if f.masked { MaskTwice(f.payload, f.key); }
  }

  // A frame whose length fits the eight-byte field decodes to itself exactly if its payload is within the limit, and is
  // refused otherwise.
  lemma RoundTrip(f: Frame, rest: seq<int>)
    requires FrameOk(f) && |f.payload| < Pow256(8) && Bytes(rest)
    ensures Bytes(Encode(f) + rest)
    ensures Decode(Encode(f) + rest) == if |f.payload| <= MAX_PAYLOAD then Got(f, |Encode(f)|) else Bad
  {
    hide Length, Head, Mask, Pow256, Body;
    EncodeBytes(f);
    var d := Encode(f) + rest;
    assert d == Head(f) + (f.key + Body(f) + rest);
    HeadRead(f, f.key + Body(f) + rest);
    Parts(Head(f), f.key, Body(f), rest);
    BodyBack(f);
  }

  lemma Parts(a: seq<int>, b: seq<int>, c: seq<int>, d: seq<int>)
    ensures var s := a + b + c + d; s[|a|..|a| + |b|] == b && s[|a| + |b|..|a| + |b| + |c|] == c
  {}

  lemma BodyBack(f: Frame)
    requires FrameOk(f)
    ensures f.payload == if f.masked then Mask(Body(f), f.key) else Body(f)
  {
    if f.masked { MaskTwice(f.payload, f.key); }
  }

  // Any proper start of a frame of at least two bytes asks for more.
  lemma PrefixNeedsMore(f: Frame, n: int)
    requires FrameOk(f) && |f.payload| <= MAX_PAYLOAD && 2 <= n < |Encode(f)|
    ensures Bytes(Encode(f)[..n]) && Decode(Encode(f)[..n]) == More
  {
    hide Mask;
    LengthFits(|f.payload|);
    EncodeBytes(f);
    var e := Encode(f);
    var h := |Head(f)|;
    var d := e[..n];
    if n < h { ShortHead(f, d); } else {
      assert d == Head(f) + d[h..];
      HeadRead(f, d[h..]);
    }
  }

  lemma ShortHead(f: Frame, d: seq<int>)
    requires FrameOk(f) && 2 <= |d| < |Head(f)| && d == Head(f)[..|d|] && Bytes(d)
    ensures Length(d).0 == -1
  {
    FlagBits(f.masked, if |f.payload| <= 65535 then 126 else 127);
  }

  // ----- runs of frames -----

  function EncodeAll(fs: seq<Frame>): seq<int>
    requires forall i :: 0 <= i < |fs| ==> FrameOk(fs[i])
  { if fs == [] then [] else Encode(fs[0]) + EncodeAll(fs[1..]) }

  // Decodes frames until no whole frame is left.
  function DecodeAll(d: seq<int>): (r: (seq<Frame>, seq<int>))
    requires Bytes(d)
    decreases |d|
  {
    var x := Decode(d);
    if x.Got? then var r := DecodeAll(d[x.consumed..]); ([x.frame] + r.0, r.1) else ([], d)
  }

  // A concatenation of encoded frames gives back those frames, and leaves what follows the last whole one.
  lemma {:induction false} StreamRoundTrip(fs: seq<Frame>, tail: seq<int>)
    requires (forall i :: 0 <= i < |fs| ==> FrameOk(fs[i]) && |fs[i].payload| <= MAX_PAYLOAD) && Bytes(tail)
    requires !Decode(tail).Got?
    ensures Bytes(EncodeAll(fs) + tail) && DecodeAll(EncodeAll(fs) + tail) == (fs, tail)
  {
    hide Encode, Decode;
    if fs == [] { assert EncodeAll(fs) + tail == tail; } else {
      var e, rest := Encode(fs[0]), EncodeAll(fs[1..]) + tail;
      assert EncodeAll(fs) + tail == e + rest;
      StreamRoundTrip(fs[1..], tail);
      LengthFits(|fs[0].payload|);
      RoundTrip(fs[0], rest);
      assert (e + rest)[|e|..] == rest;
      assert [fs[0]] + fs[1..] == fs;
    }
  }

  // ----- loops over buffers -----

  // Fails exactly when the frame does not fit; otherwise the buffer starts with the encoded frame.
  method EncodeInto(f: Frame, out: array<int>) returns (ok: bool, len: int)
    requires FrameOk(f)
    modifies out
    ensures ok == (|Encode(f)| <= out.Length)
    ensures ok ==> len == |Encode(f)| && out[..len] == Encode(f)
    ensures !ok ==> out[..] == old(out[..])
  {
    hide Head, Body, FrameOk;
    var n := |f.payload|;
    var hdr := (if n <= 125 then 2 else if n <= 65535 then 4 else 10) + if f.masked then 4 else 0;
    KeySize(f);
    if hdr > out.Length || n > out.Length - hdr { return false, 0; }
    len := Fill(out, 0, Head(f));
    len := Fill(out, len, f.key);
    len := FillBody(out, len, f);
    ok := true;
  }

  // Copies the payload, masked if need be.
  method FillBody(out: array<int>, at: int, f: Frame) returns (end: int)
    requires FrameOk(f) && 0 <= at && at + |f.payload| <= out.Length
    modifies out
    ensures end == at + |f.payload| && out[..end] == old(out[..at]) + Body(f)
  {
    hide Body, FrameOk, Xor;
    KeySize(f);
    for i := 0 to |f.payload|
      invariant out[..at + i] == old(out[..at]) + Body(f)[..i]
    {
      BodyAt(f, i);
      out[at + i] := if f.masked then Xor(f.payload[i], f.key[i % 4], 8) else f.payload[i];
      assert out[..at + i + 1] == out[..at + i] + [Body(f)[i]];
    }
    end := at + |f.payload|;
    assert Body(f)[..|f.payload|] == Body(f);
  }

  lemma KeySize(f: Frame)
    requires FrameOk(f)
    ensures |f.key| == if f.masked then 4 else 0
    ensures 0 <= f.opcode < 16
  {}

  lemma BodyAt(f: Frame, i: int)
    requires FrameOk(f) && 0 <= i < |f.payload|
    ensures |f.key| == (if f.masked then 4 else 0)
    ensures Body(f)[i] == if f.masked then Xor(f.payload[i], f.key[i % 4], 8) else f.payload[i]
  {
    hide Xor;
  }

  method Fill(out: array<int>, at: int, s: seq<int>) returns (end: int)
    requires 0 <= at && at + |s| <= out.Length
    modifies out
    ensures end == at + |s| && out[..end] == old(out[..at]) + s
    ensures out[end..] == old(out[end..])
  {
    for i := 0 to |s|
      invariant out[..at + i] == old(out[..at]) + s[..i] && out[at + |s|..] == old(out[at + |s|..])
    {
      out[at + i] := s[i];
    }
    end := at + |s|;
    assert s[..|s|] == s;
  }

  // Big-endian bytes read one at a time.
  method ReadLength(d: seq<int>, at: int, k: int) returns (n: int)
    requires 0 <= at && 0 <= k && at + k <= |d| && Bytes(d)
    ensures n == FromBe(d[at..at + k])
  {
    n := 0;
    for i := 0 to k
      invariant n == FromBe(d[at..at + i])
    {
      assert d[at..at + i + 1][..i] == d[at..at + i];
      n := n * 256 + d[at + i];
    }
  }

  method Unmask(raw: seq<int>, masked: bool, key: seq<int>) returns (p: seq<int>)
    requires masked ==> |key| == 4
    ensures p == if masked then Mask(raw, key) else raw
  {
    if !masked { return raw; }
    p := [];
    for i := 0 to |raw|
      invariant p == Mask(raw[..i], key)
    {
      p := p + [Xor(raw[i], key[i % 4], 8)];
    }
    assert raw[..|raw|] == raw;
  }

  method DecodeFrom(d: seq<int>) returns (r: Decoded)
    requires Bytes(d)
    ensures r == Decode(d)
  {
    hide Mask, FromBe;
    if |d| < 2 { return Bad; }
    var pos := 2;
    var masked := d[1] / 128 % 2 == 1;
    var n := d[1] % 128;
    if n == 126 {
      if pos + 2 > |d| { return More; }
      n := ReadLength(d, pos, 2);
      pos := pos + 2;
    } else if n == 127 {
      if pos + 8 > |d| { return More; }
      n := ReadLength(d, pos, 8);
      pos := pos + 8;
    }
    if n > MAX_PAYLOAD { return Bad; }
    var key := [];
    if masked {
      if pos + 4 > |d| { return More; }
      key := d[pos..pos + 4];
      pos := pos + 4;
    }
    if n > |d| - pos { return More; }
    var payload := Unmask(d[pos..pos + n], masked, key);
    r := Got(Frame(d[0] / 128 % 2 == 1, d[0] % 16, masked, key, payload), pos + n);
  }

  // Reads the rest of the length field after the two fixed bytes.
  method ReadSize(stream: seq<int>) returns (ok: bool, n: int, rest: seq<int>)
    requires Bytes(stream) && |stream| >= 2
    ensures ok == (Length(stream).0 >= 0)
    ensures ok ==> n == Length(stream).1 && rest == stream[Length(stream).0..]
  {
    hide FromBe;
    n, rest := stream[1] % 128, stream[2..];
    if n == 126 {
      if |rest| < 2 { return false, n, rest; }
      n := ReadLength(rest, 0, 2);
      assert rest[0..2] == stream[2..4];
      rest := rest[2..];
    } else if n == 127 {
      if |rest| < 8 { return false, n, rest; }
      n := ReadLength(rest, 0, 8);
      assert rest[0..8] == stream[2..10];
      rest := rest[8..];
    }
    ok := true;
  }

  // Reads one frame from the front of a stream, taking just the bytes it needs; the rest of the stream stays.
  method ReadFrame(stream: seq<int>) returns (ok: bool, f: Frame, rest: seq<int>)
    requires Bytes(stream)
    ensures ok == Decode(stream).Got?
    ensures ok ==> f == Decode(stream).frame && rest == stream[Decode(stream).consumed..]
  {
    hide Mask, Length;
    f, rest := Frame(false, 0, false, [], []), stream;
    if |stream| < 2 { return false, f, rest; }
    var n;
    ok, n, rest := ReadSize(stream);
    if !ok { return; }
    if n > MAX_PAYLOAD { return false, f, rest; }
    ghost var p := Length(stream).0;
    var masked, key := stream[1] / 128 % 2 == 1, [];
    ghost var q := if masked then p + 4 else p;
    if masked {
      if |rest| < 4 { return false, f, rest; }
      key, rest := rest[..4], rest[4..];
    }
    Suffix(stream, p, q);
    assert rest == stream[q..] && key == stream[p..q];
    if |rest| < n { return false, f, rest; }
    Suffix(stream, q, q + n);
    var payload := Unmask(rest[..n], masked, key);
    rest := rest[n..];
    f := Frame(stream[0] / 128 % 2 == 1, stream[0] % 16, masked, key, payload);
  }

  lemma Suffix(s: seq<int>, p: int, q: int)
    requires 0 <= p <= q
    ensures q <= |s| ==> s[p..][..q - p] == s[p..q] && s[p..][q - p..] == s[q..]
  {}
}
