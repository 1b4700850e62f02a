// Other ways to write a string than the printer's: what every escape stands for.
module JsonText {
  import opened Json

  // ----- escapes of one character -----

  // The named escapes stand for their characters, any other character but u for itself.
  lemma SimpleEscapes(c: char, tail: string)
    requires c != 'u'
    ensures Unit(['\\', c] + tail).1 == 2
    ensures Unit(['\\', c] + tail).0 == [
      if c == 'b' then 8 as char else if c == 'f' then 12 as char else if c == 'n' then 10 as char
      else if c == 'r' then 13 as char else if c == 't' then 9 as char else c]
  {
    var t := ['\\', c] + tail;
    assert t[0] == '\\' && t[1] == c;
  }

  // A u without four hexadecimal digits after it stands for itself, and so does a backslash at the end.
  lemma BadEscapes(tail: string)
    requires |tail| < 4 || exists i :: 0 <= i < 4 && !HexChar(tail[i])
    ensures Unit("\\u" + tail) == ("u", 2) && Unit("\\") == ("\\", 1)
  {
    var t := "\\u" + tail;
    if |tail| >= 4 {
      assert t[2..6] == tail[..4];
      assert tail[..4][0] == tail[0] && tail[..4][1] == tail[1] && tail[..4][2] == tail[2] && tail[..4][3] == tail[3];
    }
  }

  predicate HexChar(c: char) { '0' <= c <= '9' || 'a' <= c <= 'f' || 'A' <= c <= 'F' }

  // ----- \u escapes -----

  ghost predicate IsScalar(cp: int) { 0 <= cp < 0x110000 && !IsHigh(cp) && !IsLow(cp) }

  // A hexadecimal digit in either case.
  function HexAs(d: int, upper: bool): char
    requires 0 <= d < 16
  { if d < 10 then (d + '0' as int) as char else (d - 10 + if upper then 'A' as int else 'a' as int) as char }

  function Four(v: int, upper: (bool, bool, bool, bool)): (r: string)
    requires 0 <= v < 0x10000
    ensures |r| == 4
  { [HexAs(v / 4096, upper.0), HexAs(v / 256 % 16, upper.1), HexAs(v / 16 % 16, upper.2), HexAs(v % 16, upper.3)] }

  lemma HexAsBack(d: int, upper: bool)
    requires 0 <= d < 16
    ensures Hex(HexAs(d, upper)) == d
  {}

  lemma Nibbles(v: int)
    requires v >= 0
    ensures v == v / 16 * 16 + v % 16 && v / 16 == v / 256 * 16 + v / 16 % 16 && v / 256 == v / 4096 * 16 + v / 256 % 16
  {
    assert v / 16 / 16 == v / 256;
    assert v / 256 / 16 == v / 4096;
  }

  lemma FourBack(v: int, upper: (bool, bool, bool, bool))
    requires 0 <= v < 0x10000
    ensures Hex4(Four(v, upper)) == v
  {
    hide Hex, HexAs;
    Nibbles(v);
    HexAsBack(v / 4096, upper.0);
    HexAsBack(v / 256 % 16, upper.1);
    HexAsBack(v / 16 % 16, upper.2);
    HexAsBack(v % 16, upper.3);
  }

  // The escape of a code point: four digits, or a pair of surrogates beyond the first plane.
  function EscapeOf(cp: int, upper: (bool, bool, bool, bool), upper2: (bool, bool, bool, bool)): (r: string)
    requires 0 <= cp < 0x110000
    ensures |r| == if cp < 0x10000 then 6 else 12
  {
    if cp < 0x10000 then "\\u" + Four(cp, upper)
    else "\\u" + Four(0xD800 + (cp - 0x10000) / 1024, upper) + "\\u" + Four(0xDC00 + (cp - 0x10000) % 1024, upper2)
  }

  // The escape of every scalar value but NUL, in either case, stands for its UTF-8 form.
  lemma EscapeDecodes(cp: int, upper: (bool, bool, bool, bool), upper2: (bool, bool, bool, bool), tail: string)
    requires IsScalar(cp) && cp != 0
    ensures Unit(EscapeOf(cp, upper, upper2) + tail) == (Utf8(cp), |EscapeOf(cp, upper, upper2)|)
  {
    hide Hex4, Four, Utf8;
    var t := EscapeOf(cp, upper, upper2) + tail;
    if cp < 0x10000 {
      FourBack(cp, upper);
      assert t[2..6] == Four(cp, upper);
    } else {
      var hi, lo := 0xD800 + (cp - 0x10000) / 1024, 0xDC00 + (cp - 0x10000) % 1024;
      FourBack(hi, upper);
      FourBack(lo, upper2);
      assert t[2..6] == Four(hi, upper);
      assert t[8..12] == Four(lo, upper2);
    }
  }

  ghost predicate LowFollows(tail: string) {
    |tail| >= 6 && tail[0] == '\\' && tail[1] == 'u' && IsLow(Hex4(tail[2..6]))
  }

  // NUL and a surrogate without its partner stand for U+FFFD.
  lemma EscapeReplaced(cp: int, upper: (bool, bool, bool, bool), tail: string)
    requires cp == 0 || IsLow(cp) || (IsHigh(cp) && !LowFollows(tail))
    ensures Unit("\\u" + Four(cp, upper) + tail) == (Utf8(0xFFFD), 6)
  {
    hide Hex4, Four, Utf8;
    var t := "\\u" + Four(cp, upper) + tail;
    FourBack(cp, upper);
    assert t[2..6] == Four(cp, upper);
    if |tail| >= 6 { assert t[8..12] == tail[2..6] && t[6] == tail[0] && t[7] == tail[1]; }
  }

  // A continuation byte, and the six bits it carries.
  predicate Goes(c: char) { 0x80 <= c as int < 0xC0 }

  // The shortest form: one to four bytes, whose lead byte and continuation bytes carry the bits of the code point.
  lemma Utf8Form(cp: int)
    requires 0 <= cp < 0x110000
    ensures cp <= 0x7F <==> |Utf8(cp)| == 1
    ensures 0x80 <= cp <= 0x7FF <==> |Utf8(cp)| == 2
    ensures 0x800 <= cp <= 0xFFFF <==> |Utf8(cp)| == 3
    ensures |Utf8(cp)| <= 4 && forall i :: 0 < i < |Utf8(cp)| ==> Goes(Utf8(cp)[i])
    ensures var r := Utf8(cp); |r| == 1 ==> r[0] as int == cp
    ensures var r := Utf8(cp); |r| == 2 ==> 0xC0 <= r[0] as int < 0xE0
    ensures var r := Utf8(cp); |r| == 2 ==> (r[0] as int - 0xC0) * 64 + (r[1] as int - 0x80) == cp
    ensures var r := Utf8(cp); |r| == 3 ==> 0xE0 <= r[0] as int < 0xF0
    ensures var r := Utf8(cp); |r| == 3 ==>
      ((r[0] as int - 0xE0) * 64 + (r[1] as int - 0x80)) * 64 + (r[2] as int - 0x80) == cp
    ensures var r := Utf8(cp); |r| == 4 ==> 0xF0 <= r[0] as int < 0xF8
    ensures var r := Utf8(cp); |r| == 4 ==>
      (((r[0] as int - 0xF0) * 64 + (r[1] as int - 0x80)) * 64 + (r[2] as int - 0x80)) * 64 + (r[3] as int - 0x80) == cp
  {
    Shift(cp);
  }

  // No UTF-8 form is the beginning of another, so a text determines its code points.
  lemma Utf8PrefixFree(a: int, b: int, s: string, t: string)
    requires 0 <= a < 0x110000 && 0 <= b < 0x110000 && Utf8(a) + s == Utf8(b) + t
    ensures a == b && s == t
  {
    var x, y := Utf8(a), Utf8(b);
    assert (x + s)[0] == x[0] && (y + t)[0] == y[0];
    assert |x| == |y|;
    assert (x + s)[..|x|] == x && (y + t)[..|y|] == y;
    assert (x + s)[|x|..] == s && (y + t)[|y|..] == t;
    if a < 0x80 {} else if a < 0x800 { Join(a, b); assert x[1] == y[1]; } else if a < 0x10000 {
      Join(a, b); assert x[1] == y[1] && x[2] == y[2];
    } else {
      Join(a, b); assert x[1] == y[1] && x[2] == y[2] && x[3] == y[3];
    }
  }

  lemma Join(a: int, b: int)
    requires a >= 0 && b >= 0
    ensures a / 64 == b / 64 && a % 64 == b % 64 ==> a == b
    ensures a / 4096 == b / 4096 && a / 64 % 64 == b / 64 % 64 ==> a / 64 == b / 64
    ensures a / 262144 == b / 262144 && a / 4096 % 64 == b / 4096 % 64 ==> a / 4096 == b / 4096
  {
    Shift(a);
    Shift(b);
    Rejoin(a, b);
    Rejoin(a / 64, b / 64);
    Rejoin(a / 4096, b / 4096);
  }

  lemma Shift(a: int)
    requires a >= 0
    ensures a / 64 / 64 == a / 4096 && a / 4096 / 64 == a / 262144
  {}

  lemma Rejoin(a: int, b: int)
    ensures a / 64 == b / 64 && a % 64 == b % 64 ==> a == b
  {}

  function Utf8All(cps: seq<int>): string
    requires forall i :: 0 <= i < |cps| ==> 0 <= cps[i] < 0x110000
  { if cps == [] then "" else Utf8(cps[0]) + Utf8All(cps[1..]) }

  function EscapeAll(cps: seq<int>, upper: (bool, bool, bool, bool)): string
    requires forall i :: 0 <= i < |cps| ==> 0 <= cps[i] < 0x110000
  { if cps == [] then "" else EscapeOf(cps[0], upper, upper) + EscapeAll(cps[1..], upper) }

  // A literal written in escapes throughout decodes to the text of its code points.
  lemma {:induction false} EscapedText(cps: seq<int>, upper: (bool, bool, bool, bool))
    requires forall i :: 0 <= i < |cps| ==> 0 < cps[i] < 0x110000 && IsScalar(cps[i])
    ensures Unescape(EscapeAll(cps, upper)) == Utf8All(cps)
  {
    hide EscapeOf, Unit, Utf8;
    if cps != [] {
      EscapedText(cps[1..], upper);
      var e := EscapeOf(cps[0], upper, upper);
      EscapeDecodes(cps[0], upper, upper, EscapeAll(cps[1..], upper));
      assert EscapeAll(cps, upper)[|e|..] == EscapeAll(cps[1..], upper);
    }
  }

  lemma {:induction false} Utf8AllInjective(a: seq<int>, b: seq<int>)
    requires forall i :: 0 <= i < |a| ==> 0 <= a[i] < 0x110000
    requires forall i :: 0 <= i < |b| ==> 0 <= b[i] < 0x110000
    requires Utf8All(a) == Utf8All(b)
    ensures a == b
  {
    hide Utf8;
    if a != [] && b != [] {
      Utf8PrefixFree(a[0], b[0], Utf8All(a[1..]), Utf8All(b[1..]));
      Utf8AllInjective(a[1..], b[1..]);
    }
  }

  // ----- what the printer writes -----

  // Quote, backslash and the five characters with names get their escape of two characters, other control characters
  // one in lower-case hexadecimal, and every other character stands for itself.
  lemma EscapeForms(c: char)
    ensures c == '"' ==> EscapeChar(c) == "\\\""
    ensures c == '\\' ==> EscapeChar(c) == "\\\\"
    ensures c as int == 8 ==> EscapeChar(c) == "\\b"
    ensures c as int == 9 ==> EscapeChar(c) == "\\t"
    ensures c as int == 10 ==> EscapeChar(c) == "\\n"
    ensures c as int == 12 ==> EscapeChar(c) == "\\f"
    ensures c as int == 13 ==> EscapeChar(c) == "\\r"
    ensures c as int < 32 && c as int !in {8, 9, 10, 12, 13} ==>
      EscapeChar(c) == "\\u" + Four(c as int, (false, false, false, false))
    ensures c as int >= 32 && c != '"' && c != '\\' ==> EscapeChar(c) == [c]
  {
    if c as int < 32 { assert "\\u" + Four(c as int, (false, false, false, false)) == ['\\', 'u', '0', '0',
      HexDigit(c as int / 16), HexDigit(c as int % 16)]; }
  }

  ghost predicate Visible(s: string) { forall i :: 0 <= i < |s| ==> s[i] as int >= 32 }

  lemma {:induction false} EscapeVisible(s: string)
    ensures Visible(Escape(s))
  {
    if s != "" {
      EscapeVisible(s[1..]);
      EscapeForms(s[0]);
    }
  }

  lemma DigitsVisible(n: int)
    requires n >= 0
    ensures Visible(Digits(n))
  {
    assert forall i :: 0 <= i < |Digits(n)| ==> IsDigit(Digits(n)[i]);
  }

  // The printed form of a value holds no control character, so it is a single line.
  lemma {:induction false} PrintVisible(v: Value)
    requires Plain(v)
    ensures Visible(Print(v))
    decreases v, 0
  {
    hide Escape, Digits, PrintItems, PrintPairs;
    match v
    case Null =>
    case Bool(b) =>
    case Int(n) => DigitsVisible(if n < 0 then -n else n);
    case Str(s) => EscapeVisible(s);
    case Arr(items) => ItemsVisible(items);
    case Obj(pairs) => PairsVisible(pairs);
  }

  lemma {:induction false} ItemsVisible(items: seq<Value>)
    requires forall i :: 0 <= i < |items| ==> Plain(items[i])
    ensures Visible(PrintItems(items))
    decreases items, 1
  {
    hide Print;
    if items != [] {
      PrintVisible(items[0]);
      ItemsVisible(items[1..]);
    }
  }

  lemma {:induction false} PairsVisible(pairs: seq<Pair>)
    requires forall i :: 0 <= i < |pairs| ==> CString(pairs[i].key) && Plain(pairs[i].val)
    ensures Visible(PrintPairs(pairs))
    decreases pairs, 2
  {
    hide Print, Escape;
    if pairs != [] {
      EscapeVisible(pairs[0].key);
      PrintVisible(pairs[0].val);
      PairsVisible(pairs[1..]);
    }
  }
}
