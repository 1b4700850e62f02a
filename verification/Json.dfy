// JSON text: the parser and printer as functions of the remaining text, and their round trip.
// A text is a sequence of bytes, each written as the character of that number.
module Json {

  // A double keeps its literal; it is not converted.
  datatype Value = Null | Bool(b: bool) | Int(n: int) | Double(text: string) | Str(s: string) | Arr(items: seq<Value>)
    | Obj(pairs: seq<Pair>)
  datatype Pair = Pair(key: string, val: Value)

  datatype Parsed<T> = Fail | Got(value: T, rest: string)

  const INT64_MAX := 9223372036854775807
  const INT64_MIN := -9223372036854775808

  predicate IsWs(c: char) { c == ' ' || c == '\t' || c == '\r' || c == '\n' }
  predicate IsDigit(c: char) { '0' <= c <= '9' }

  function SkipWs(s: string): (r: string)
    ensures |r| <= |s|
    ensures r != "" ==> !IsWs(r[0])
  { if s != "" && IsWs(s[0]) then SkipWs(s[1..]) else s }

  // ----- strings -----

  function Hex(c: char): (d: int)
    ensures -1 <= d < 16
  {
    if '0' <= c <= '9' then c as int - '0' as int
    else if 'a' <= c <= 'f' then c as int - 'a' as int + 10
    else if 'A' <= c <= 'F' then c as int - 'A' as int + 10
    else -1
  }

  // The value of four hexadecimal digits, or -1.
  function Hex4(s: string): (v: int)
    requires |s| >= 4
    ensures -1 <= v < 0x10000
  {
    if Hex(s[0]) < 0 || Hex(s[1]) < 0 || Hex(s[2]) < 0 || Hex(s[3]) < 0 then -1
    else ((Hex(s[0]) * 16 + Hex(s[1])) * 16 + Hex(s[2])) * 16 + Hex(s[3])
  }

  function Utf8(cp: int): (r: string)
    requires 0 <= cp < 0x110000
    ensures 1 <= |r| <= 4 && (cp < 0x10000 ==> |r| <= 3)
  {
    if cp < 0x80 then [cp as char]
    else if cp < 0x800 then [(0xC0 + cp / 64) as char, (0x80 + cp % 64) as char]
    else if cp < 0x10000 then [(0xE0 + cp / 4096) as char, (0x80 + cp / 64 % 64) as char, (0x80 + cp % 64) as char]
    else [(0xF0 + cp / 262144) as char, (0x80 + cp / 4096 % 64) as char, (0x80 + cp / 64 % 64) as char,
      (0x80 + cp % 64) as char]
  }

  // Lone surrogates and NUL become U+FFFD.
  function Scalar(cp: int): int { if cp == 0 || 0xD800 <= cp <= 0xDFFF then 0xFFFD else cp }

  function Simple(c: char): char {
    match c
    case 'b' => '\U{8}'
    case 'f' => '\U{C}'
    case 'n' => '\n'
    case 'r' => '\r'
    case 't' => '\t'
    case _ => c
  }

  predicate IsHigh(cp: int) { 0xD800 <= cp <= 0xDBFF }
  predicate IsLow(cp: int) { 0xDC00 <= cp <= 0xDFFF }

  // One unit at the front of the raw text between the quotes: the bytes it stands for, and how many it takes up.
  function Unit(raw: string): (r: (string, int))
    requires raw != ""
    ensures 1 <= r.1 <= |raw| && 1 <= |r.0| <= r.1
  {
    if raw[0] != '\\' || |raw| == 1 then ([raw[0]], 1)
    else if raw[1] != 'u' then ([Simple(raw[1])], 2)
    else if |raw| < 6 || Hex4(raw[2..6]) < 0 then ("u", 2)
    else
      var hi := Hex4(raw[2..6]);
      if IsHigh(hi) && |raw| >= 12 && raw[6] == '\\' && raw[7] == 'u' && IsLow(Hex4(raw[8..12])) then
        (Utf8(0x10000 + (hi - 0xD800) * 1024 + (Hex4(raw[8..12]) - 0xDC00)), 12)
      else (Utf8(Scalar(hi)), 6)
  }

  // Decoding never makes the text longer.
  function Unescape(raw: string): (r: string)
    ensures |r| <= |raw|
  {
    if raw == "" then "" else var u := Unit(raw); u.0 + Unescape(raw[u.1..])
  }

  // Where the closing quote stands, or a position at or past the end.
  function Closing(s: string): (n: int)
    ensures n >= 0 && (n < |s| ==> s[n] == '"')
  {
    if s == "" || s[0] == '"' then 0
    else if s[0] == '\\' then 2 + (if |s| >= 2 then Closing(s[2..]) else 0)
    else 1 + Closing(s[1..])
  }

  function ParseString(s: string): (r: Parsed<string>)
    ensures r.Got? ==> |r.rest| < |s|
  {
    var t := SkipWs(s);
    if t == "" || t[0] != '"' then Fail
    else
      var n := Closing(t[1..]);
      if n >= |t| - 1 then Fail else Got(Unescape(t[1..][..n]), t[n + 2..])
  }

  // ----- numbers -----

  function DigitCount(s: string): (n: int)
    ensures 0 <= n <= |s| && forall i :: 0 <= i < n ==> IsDigit(s[i])
    ensures n < |s| ==> !IsDigit(s[n])
  { if s != "" && IsDigit(s[0]) then 1 + DigitCount(s[1..]) else 0 }

  // Where the sign and integer digits, then a fraction, then an exponent end.
  function IntEnd(s: string): (b: int)
    ensures 0 <= b <= |s|
  { var a := if s != "" && s[0] == '-' then 1 else 0; a + DigitCount(s[a..]) }

  function FracEnd(s: string, b: int): (c: int)
    requires 0 <= b <= |s|
    ensures b <= c <= |s|
  { if b < |s| && s[b] == '.' then b + 1 + DigitCount(s[b + 1..]) else b }

  function ExpEnd(s: string, c: int): (e: int)
    requires 0 <= c <= |s|
    ensures c <= e <= |s|
  {
    if c < |s| && (s[c] == 'e' || s[c] == 'E') then
      var d := if c + 1 < |s| && (s[c + 1] == '+' || s[c + 1] == '-') then c + 2 else c + 1;
      d + DigitCount(s[d..])
    else c
  }

  // Length of a number literal, and whether it has a fraction or exponent.
  function NumberEnd(s: string): (r: (int, bool))
    ensures 0 <= r.0 <= |s|
    ensures s != "" && (s[0] == '-' || IsDigit(s[0])) ==> r.0 > 0
  {
    var b := IntEnd(s);
    var c := FracEnd(s, b);
    var e := ExpEnd(s, c);
    (e, e > b)
  }

  function Decimal(ds: string): (n: int)
    requires forall i :: 0 <= i < |ds| ==> IsDigit(ds[i])
    ensures n >= 0
  {
    if ds == "" then 0 else
      assert IsDigit(ds[|ds| - 1]);
      Decimal(ds[..|ds| - 1]) * 10 + (ds[|ds| - 1] as int - '0' as int)
  }

  // strtoll on a literal: a sign, then digits, saturating.
  function Strtoll(t: string): (n: int)
    ensures INT64_MIN <= n <= INT64_MAX
  {
    var a := if t != "" && t[0] == '-' then 1 else 0;
    var v := Decimal(t[a..][..DigitCount(t[a..])]);
    if a == 1 then (if -v < INT64_MIN then INT64_MIN else -v) else if v > INT64_MAX then INT64_MAX else v
  }

  // Only the first 63 bytes of the literal reach the conversion.
  function ParseNumber(s: string): (r: Parsed<Value>)
    requires s != "" && (s[0] == '-' || IsDigit(s[0]))
    ensures r.Got? && |r.rest| < |s|
  {
    var e := NumberEnd(s);
    var buf := if e.0 >= 64 then s[..63] else s[..e.0];
    Got(if e.1 then Double(buf) else Int(Strtoll(buf)), s[e.0..])
  }

  // ----- values -----

  function ParseValue(s: string): (r: Parsed<Value>)
    ensures r.Got? ==> |r.rest| < |s|
    decreases |s|, 2
  {
    var t := SkipWs(s);
    if t == "" then Fail
    else if t[0] == '"' then (var p := ParseString(t); if p.Fail? then Fail else Got(Str(p.value), p.rest))
    else if t[0] == '{' then ParseObject(t)
    else if t[0] == '[' then ParseArray(t)
    else if t[0] == 't' || t[0] == 'f' then
      if "true" <= t then Got(Bool(true), t[4..]) else if "false" <= t then Got(Bool(false), t[5..]) else Fail
    else if t[0] == 'n' then if "null" <= t then Got(Null, t[4..]) else Fail
    else if t[0] == '-' || IsDigit(t[0]) then ParseNumber(t)
    else Fail
  }

  function ParseArray(t: string): (r: Parsed<Value>)
    requires t != ""
    ensures r.Got? ==> |r.rest| < |t|
    decreases |t|, 1
  {
    var u := SkipWs(t[1..]);
    if u != "" && u[0] == ']' then Got(Arr([]), u[1..]) else ParseItems(t[1..], [])
  }

  function ParseItems(s: string, acc: seq<Value>): (r: Parsed<Value>)
    ensures r.Got? ==> |r.rest| < |s|
    decreases |s|, 3
  {
    var p := ParseValue(s);
    if p.Fail? then Fail else
      var u := SkipWs(p.rest);
      if u == "" then Fail
      else if u[0] == ',' then ParseItems(u[1..], acc + [p.value])
      else if u[0] == ']' then Got(Arr(acc + [p.value]), u[1..])
      else Fail
  }

  function ParseObject(t: string): (r: Parsed<Value>)
    requires t != ""
    ensures r.Got? ==> |r.rest| < |t|
    decreases |t|, 1
  {
    var u := SkipWs(t[1..]);
    if u != "" && u[0] == '}' then Got(Obj([]), u[1..]) else ParsePairs(t[1..], [])
  }

  function ParsePairs(s: string, acc: seq<Pair>): (r: Parsed<Value>)
    ensures r.Got? ==> |r.rest| < |s|
    decreases |s|, 3
  {
    var k := ParseString(s);
    if k.Fail? then Fail else
      var c := SkipWs(k.rest);
      if c == "" || c[0] != ':' then Fail else
        var p := ParseValue(c[1..]);
        if p.Fail? then Fail else
          var u := SkipWs(p.rest);
          if u == "" then Fail
          else if u[0] == ',' then ParsePairs(u[1..], acc + [Pair(k.value, p.value)])
          else if u[0] == '}' then Got(Obj(acc + [Pair(k.value, p.value)]), u[1..])
          else Fail
  }

  // ----- printing -----

  function HexDigit(d: int): char
    requires 0 <= d < 16
  { if d < 10 then (d + '0' as int) as char else (d - 10 + 'a' as int) as char }

  function EscapeChar(c: char): string {
    match c
    case '"' => "\\\""
    case '\\' => "\\\\"
    case '\n' => "\\n"
    case '\r' => "\\r"
    case '\t' => "\\t"
    case '\U{8}' => "\\b"
    case '\U{C}' => "\\f"
    case _ => if c as int < 0x20 then ['\\', 'u', '0', '0', HexDigit(c as int / 16), HexDigit(c as int % 16)] else [c]
  }

  function Escape(s: string): string { if s == "" then "" else EscapeChar(s[0]) + Escape(s[1..]) }

  function PrintString(s: string): string { "\"" + Escape(s) + "\"" }

  function Digits(n: int): (r: string)
    requires n >= 0
    ensures |r| > 0 && forall i :: 0 <= i < |r| ==> IsDigit(r[i])
  { (if n < 10 then "" else Digits(n / 10)) + [(n % 10 + '0' as int) as char] }

  function PrintInt(n: int): string { if n < 0 then "-" + Digits(-n) else Digits(n) }

  function Print(v: Value): string
    decreases v, 0
  {
    match v
    case Null => "null"
    case Bool(b) => if b then "true" else "false"
    case Int(n) => PrintInt(n)
    case Double(t) => t
    case Str(s) => PrintString(s)
    case Arr(items) => "[" + PrintItems(items) + "]"
    case Obj(pairs) => "{" + PrintPairs(pairs) + "}"
  }

  function PrintItems(items: seq<Value>): string
    decreases items, 1
  {
    if items == [] then "" else if |items| == 1 then Print(items[0]) else Print(items[0]) + "," + PrintItems(items[1..])
  }

  function PrintPair(p: Pair): string
    decreases p, 1
  { PrintString(p.key) + ":" + Print(p.val) }

  function PrintPairs(pairs: seq<Pair>): string
    decreases pairs, 2
  {
    if pairs == [] then ""
    else if |pairs| == 1 then PrintPair(pairs[0])
    else PrintPair(pairs[0]) + "," + PrintPairs(pairs[1..])
  }

  // ----- round trips -----

  // What can follow a value in a text.
  predicate Delim(rest: string) { rest == "" || IsWs(rest[0]) || rest[0] == ',' || rest[0] == ']' || rest[0] == '}' }

  ghost predicate CString(s: string) { forall i :: 0 <= i < |s| ==> 0 < s[i] as int < 256 }

  // A value without doubles whose strings are C strings and whose integers fit in 64 bits.
  ghost predicate Plain(v: Value)
    decreases v, 0
  {
    match v
    case Null => true
    case Bool(_) => true
    case Int(n) => INT64_MIN <= n <= INT64_MAX
    case Double(_) => false
    case Str(s) => CString(s)
    case Arr(items) => forall i :: 0 <= i < |items| ==> Plain(items[i])
    case Obj(pairs) => forall i :: 0 <= i < |pairs| ==> CString(pairs[i].key) && Plain(pairs[i].val)
  }

  // An escaped character decodes to itself, and no quote in it ends the literal.
  lemma UnitOfEscape(c: char, tail: string)
    requires 0 < c as int < 256
    ensures Unit(EscapeChar(c) + tail) == ([c], |EscapeChar(c)|)
    ensures Closing(EscapeChar(c) + tail) == |EscapeChar(c)| + Closing(tail)
  {
    var e := EscapeChar(c);
    var t := e + tail;
    assert t[|e|..] == tail;
    if |e| == 6 {
      assert t[2..6] == e[2..6];
      assert Hex4(t[2..6]) == c as int;
      assert t[2..][4..] == tail;
      ClosingSkips(t[2..], 4);
    } else if |e| == 2 { assert t[2..] == tail; }
  }

  lemma {:induction false} ClosingSkips(t: string, n: int)
    requires 0 <= n <= |t| && forall i :: 0 <= i < n ==> t[i] != '"' && t[i] != '\\'
    ensures Closing(t) == n + Closing(t[n..])
  {
    if n == 0 { assert t[0..] == t; } else { ClosingSkips(t[1..], n - 1); assert t[1..][n - 1..] == t[n..]; }
  }

  lemma {:induction false} UnescapeEscape(s: string)
    requires CString(s)
    ensures Unescape(Escape(s)) == s
  {
    if s != "" {
      UnescapeEscape(s[1..]);
      UnitOfEscape(s[0], Escape(s[1..]));
      var t := Escape(s);
      assert t[|EscapeChar(s[0])|..] == Escape(s[1..]);
    }
  }

  lemma {:induction false} ClosingEscape(s: string, tail: string)
    requires CString(s)
    ensures Closing(Escape(s) + tail) == |Escape(s)| + Closing(tail)
  {
    hide EscapeChar, Unit, Closing;
    if s == "" { assert Escape(s) + tail == tail; } else {
      ClosingEscape(s[1..], tail);
      UnitOfEscape(s[0], Escape(s[1..]) + tail);
      assert Escape(s) + tail == EscapeChar(s[0]) + (Escape(s[1..]) + tail);
    }
  }

  lemma StringRoundTrip(s: string, rest: string)
    requires CString(s)
    ensures ParseString(PrintString(s) + rest) == Got(s, rest)
  {
    hide Escape, Unescape;
    var t := PrintString(s) + rest;
    var e := Escape(s);
    assert t[1..] == e + ("\"" + rest);
    ClosingEscape(s, "\"" + rest);
    UnescapeEscape(s);
    assert t[1..][..|e|] == e;
    assert t[|e| + 2..] == rest;
  }

  function Pow10(k: nat): nat { if k == 0 then 1 else 10 * Pow10(k - 1) }

  lemma {:induction false} DigitsShort(n: int, k: nat)
    requires 0 <= n < Pow10(k) && k >= 1
    ensures |Digits(n)| <= k
  {
    if n >= 10 { DigitsShort(n / 10, k - 1); }
  }

  lemma Int64Short(m: int)
    requires 0 <= m <= -INT64_MIN
    ensures |Digits(m)| <= 19
  {
    hide Digits;
    assert Pow10(1) == 10;
    assert Pow10(3) == 1000;
    assert Pow10(5) == 100000;
    assert Pow10(7) == 10000000;
    assert Pow10(9) == 1000000000;
    assert Pow10(11) == 100000000000;
    assert Pow10(13) == 10000000000000;
    assert Pow10(15) == 1000000000000000;
    assert Pow10(17) == 100000000000000000;
    assert Pow10(19) == 10000000000000000000;
    DigitsShort(m, 19);
  }

  lemma {:induction false} DecimalDigits(n: int)
    requires n >= 0
    ensures Decimal(Digits(n)) == n
  {
    var q, r := n / 10, n % 10;
    var hi := if n < 10 then "" else Digits(q);
    DecimalLast(hi, r);
    if n >= 10 { DecimalDigits(q); }
  }

  lemma DecimalLast(hi: string, r: int)
    requires 0 <= r < 10 && forall i :: 0 <= i < |hi| ==> IsDigit(hi[i])
    ensures Decimal(hi + [(r + '0' as int) as char]) == Decimal(hi) * 10 + r
  {
    var d := hi + [(r + '0' as int) as char];
    assert d[..|d| - 1] == hi;
  }

  lemma {:induction false} DigitCountAll(ds: string, rest: string)
    requires (forall i :: 0 <= i < |ds| ==> IsDigit(ds[i])) && (rest == "" || !IsDigit(rest[0]))
    ensures DigitCount(ds + rest) == |ds|
  {
    if ds != "" {
      DigitCountAll(ds[1..], rest);
      assert (ds + rest)[1..] == ds[1..] + rest;
    } else {
      assert ds + rest == rest;
    }
  }

  // The literal ends where the digits end.
  lemma IntScan(d: string, neg: bool, rest: string)
    requires d != "" && (forall i :: 0 <= i < |d| ==> IsDigit(d[i])) && Delim(rest)
    ensures var p := if neg then "-" + d else d; NumberEnd(p + rest) == (|p|, false)
  {
    hide DigitCount;
    DigitCountAll(d, rest);
    var p := if neg then "-" + d else d;
    var t := p + rest;
    assert t[if neg then 1 else 0..] == d + rest;
    assert t[0] == '-' <==> neg by { assert IsDigit(d[0]); }
    assert rest != "" ==> t[|p|] == rest[0];
  }

  // The value of a literal is exact inside the 64-bit range and the nearer end of it outside.
  lemma StrtollExact(m: int, neg: bool, tail: string)
    requires m >= 0 && (tail == "" || !IsDigit(tail[0]))
    ensures var n := if neg then -m else m;
      Strtoll((if neg then "-" + Digits(m) else Digits(m)) + tail) ==
        if n < INT64_MIN then INT64_MIN else if n > INT64_MAX then INT64_MAX else n
  {
    hide DigitCount, Digits, Decimal;
    var d := Digits(m);
    var p := (if neg then "-" + d else d) + tail;
    DigitCountAll(d, tail);
    assert p[if neg then 1 else 0..] == d + tail && (d + tail)[..|d|] == d;
    assert p[0] == '-' <==> neg by { assert IsDigit(d[0]); }
    DecimalDigits(m);
  }

  lemma IntRoundTrip(n: int, rest: string)
    requires INT64_MIN <= n <= INT64_MAX && Delim(rest)
    ensures var t := PrintInt(n) + rest; (t[0] == '-' || IsDigit(t[0])) && ParseNumber(t) == Got(Int(n), rest)
  {
    hide DigitCount, Digits, Decimal, NumberEnd, Strtoll;
    var t, p := PrintInt(n) + rest, PrintInt(n);
    var m := if n < 0 then -n else n;
    Int64Short(m);
    IntScan(Digits(m), n < 0, rest);
    StrtollExact(m, n < 0, "");
    assert p + "" == p && t[..|p|] == p && t[|p|..] == rest;
  }

  // ----- values -----

  lemma PrintStart(v: Value)
    requires Plain(v)
    ensures Print(v) != "" && !IsWs(Print(v)[0]) && Print(v)[0] != ']'
  {
    if v.Int? { var r := Print(v); assert r[0] == '-' || IsDigit(r[0]); }
  }

  lemma SkipNone(s: string)
    requires s == "" || !IsWs(s[0])
    ensures SkipWs(s) == s
  {}

  // Parsing the printed form gives back the value, with the order of pairs kept.
  lemma {:induction false} RoundTrip(v: Value, rest: string)
    requires Plain(v) && Delim(rest)
    ensures ParseValue(Print(v) + rest) == Got(v, rest)
    decreases v, 0
  {
    hide ParseItems, ParsePairs, ParseString, ParseNumber, PrintItems, PrintPairs, PrintInt;
    PrintStart(v);
    var t := Print(v) + rest;
    SkipNone(t);
    match v
    case Null => assert t[4..] == rest;
    case Bool(b) => assert t[if b then 4 else 5..] == rest;
    case Int(n) => IntRoundTrip(n, rest);
    case Str(s) => StringRoundTrip(s, rest);
    case Arr(items) => ArrayRoundTrip(items, rest);
    case Obj(pairs) => ObjectRoundTrip(pairs, rest);
  }

  lemma {:induction false} ArrayRoundTrip(items: seq<Value>, rest: string)
    requires forall i :: 0 <= i < |items| ==> Plain(items[i])
    ensures ParseArray("[" + PrintItems(items) + "]" + rest) == Got(Arr(items), rest)
    decreases items, 2
  {
    hide ParseItems, ParseValue, Print;
    var t := "[" + PrintItems(items) + "]" + rest;
    var u := PrintItems(items) + "]" + rest;
    assert t[1..] == u;
    if items == [] { assert u == "]" + rest; assert u[1..] == rest; } else {
      ItemsRoundTrip(items, [], rest);
      PrintStart(items[0]);
      assert u[0] == Print(items[0])[0];
      assert [] + items == items;
    }
    SkipNone(u);
  }

  lemma {:induction false} ItemsRoundTrip(items: seq<Value>, acc: seq<Value>, rest: string)
    requires items != [] && forall i :: 0 <= i < |items| ==> Plain(items[i])
    ensures ParseItems(PrintItems(items) + "]" + rest, acc) == Got(Arr(acc + items), rest)
    decreases items, 1
  {
    hide ParseValue, Print;
    var s := PrintItems(items) + "]" + rest;
    if |items| == 1 {
      assert s == Print(items[0]) + ("]" + rest);
      RoundTrip(items[0], "]" + rest);
      SkipNone("]" + rest);
      assert ("]" + rest)[1..] == rest;
      assert items == [items[0]];
    } else {
      var tail := "," + PrintItems(items[1..]) + "]" + rest;
      assert s == Print(items[0]) + tail;
      RoundTrip(items[0], tail);
      SkipNone(tail);
      assert tail[1..] == PrintItems(items[1..]) + "]" + rest;
      ItemsRoundTrip(items[1..], acc + [items[0]], rest);
      assert acc + [items[0]] + items[1..] == acc + items;
    }
  }

  lemma {:induction false} ObjectRoundTrip(pairs: seq<Pair>, rest: string)
    requires forall i :: 0 <= i < |pairs| ==> CString(pairs[i].key) && Plain(pairs[i].val)
    ensures ParseObject("{" + PrintPairs(pairs) + "}" + rest) == Got(Obj(pairs), rest)
    decreases pairs, 2
  {
    hide ParsePairs, ParseValue, Print, ParseString, Escape;
    var t := "{" + PrintPairs(pairs) + "}" + rest;
    var u := PrintPairs(pairs) + "}" + rest;
    assert t[1..] == u;
    if pairs == [] { assert u == "}" + rest; assert u[1..] == rest; } else {
      PairsRoundTrip(pairs, [], rest);
      assert u[0] == PrintPair(pairs[0])[0] == '"';
      assert [] + pairs == pairs;
    }
    SkipNone(u);
  }

  // What follows the first pair.
  function MorePairs(pairs: seq<Pair>, rest: string): string
    requires pairs != []
  { if |pairs| == 1 then "}" + rest else "," + PrintPairs(pairs[1..]) + "}" + rest }

  lemma PairsText(pairs: seq<Pair>, rest: string)
    requires pairs != []
    ensures PrintPairs(pairs) + "}" + rest ==
      PrintString(pairs[0].key) + (":" + (Print(pairs[0].val) + MorePairs(pairs, rest)))
  {
    hide Print, PrintString;
    var a, v := PrintString(pairs[0].key), Print(pairs[0].val);
    if |pairs| == 1 { Regroup(a, ":", v, "}", rest); } else {
      var q := "," + PrintPairs(pairs[1..]);
      Regroup(a, ":", v, q, "}" + rest);
      assert PrintPairs(pairs) == a + ":" + v + q;
      assert PrintPairs(pairs) + "}" + rest == a + ":" + v + q + ("}" + rest);
      assert q + ("}" + rest) == q + "}" + rest;
    }
  }

  lemma Regroup(a: string, b: string, c: string, d: string, e: string)
    ensures a + b + c + d + e == a + (b + (c + (d + e)))
  {}

  lemma {:induction false} PairsRoundTrip(pairs: seq<Pair>, acc: seq<Pair>, rest: string)
    requires pairs != [] && forall i :: 0 <= i < |pairs| ==> CString(pairs[i].key) && Plain(pairs[i].val)
    ensures ParsePairs(PrintPairs(pairs) + "}" + rest, acc) == Got(Obj(acc + pairs), rest)
    decreases pairs, 1
  {
    hide ParseValue, Print, ParseString, PrintString, PrintPairs;
    var p, more := pairs[0], MorePairs(pairs, rest);
    PairsText(pairs, rest);
    var colon := ":" + (Print(p.val) + more);
    StringRoundTrip(p.key, colon);
    SkipNone(colon);
    assert colon[1..] == Print(p.val) + more;
    RoundTrip(p.val, more);
    SkipNone(more);
    if |pairs| == 1 { assert more[1..] == rest; assert pairs == [p]; } else {
      assert more[1..] == PrintPairs(pairs[1..]) + "}" + rest;
      PairsRoundTrip(pairs[1..], acc + [p], rest);
      assert acc + [p] + pairs[1..] == acc + pairs;
    }
  }

  // Different values print differently.
  lemma PrintInjective(v: Value, w: Value)
    requires Plain(v) && Plain(w) && Print(v) == Print(w)
    ensures v == w
  {
    RoundTrip(v, "");
    RoundTrip(w, "");
  }
}
