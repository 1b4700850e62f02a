// The texts of JSON values in literal characters, what they mean, and their tokens.
module JsonGrammar {
  import opened Json

  ghost predicate Blank(b: string) { forall i :: 0 <= i < |b| ==> b[i] in {' ', '\t', '\r', '\n'} }

  // What can follow a value.
  ghost predicate Ended(rest: string) { rest == "" || rest[0] in {' ', '\t', '\r', '\n', ',', ']', '}'} }

  // A value with the blanks before and after it.
  datatype Laid = Laid(pre: string, body: Body, post: string)

  // A word, a number, a string literal, or items or fields with a gap in place of none.
  datatype Body = Word(v: Value) | Num(n: Numeral) | Lit(raw: string) | Items(items: seq<Laid>, gap: string)
    | Fields(fields: seq<Field>, gap: string)

  datatype Field = Field(pre: string, raw: string, mid: string, val: Laid)

  // Sign, integer digits, fraction with its point, exponent with its letter. The digits may be missing.
  datatype Numeral = Numeral(neg: bool, whole: string, frac: string, exp: string)

  ghost predicate Digital(s: string) { forall i :: 0 <= i < |s| ==> '0' <= s[i] <= '9' }

  ghost predicate FineNumeral(n: Numeral) {
    && Digital(n.whole) && (n.neg || n.whole != "")
    && (n.frac == "" || (n.frac[0] == '.' && Digital(n.frac[1..])))
    && (n.exp == "" || (n.exp[0] in {'e', 'E'} && (Digital(n.exp[1..]) || SignedDigits(n.exp[1..]))))
  }

  ghost predicate SignedDigits(s: string) { s != "" && s[0] in {'+', '-'} && Digital(s[1..]) }

  ghost function NumeralText(n: Numeral): string { (if n.neg then "-" else "") + n.whole + n.frac + n.exp }

  // Inside a literal a backslash takes the next character with it, and no other quote occurs.
  ghost predicate FineRaw(raw: string) {
    || raw == ""
    || (raw[0] == '\\' && |raw| >= 2 && FineRaw(raw[2..]))
    || (raw[0] != '\\' && raw[0] != '"' && FineRaw(raw[1..]))
  }

  ghost predicate Fine(l: Laid)
    decreases l, 0
  { Blank(l.pre) && Blank(l.post) && FineBody(l.body) }

  ghost predicate FineBody(b: Body)
    decreases b, 0
  {
    match b
    case Word(v) => v.Null? || v.Bool?
    case Num(n) => FineNumeral(n)
    case Lit(raw) => FineRaw(raw)
    case Items(items, gap) => Blank(gap) && forall i :: 0 <= i < |items| ==> Fine(items[i])
    case Fields(fields, gap) => Blank(gap) && forall i :: 0 <= i < |fields| ==> FineField(fields[i])
  }

  ghost predicate FineField(f: Field)
    decreases f, 0
  { Blank(f.pre) && FineRaw(f.raw) && Blank(f.mid) && Fine(f.val) }

  // ----- the text -----

  ghost function WordText(v: Value): string {
    if v == Bool(true) then "true" else if v == Bool(false) then "false" else "null"
  }

  ghost function Text(l: Laid): string
    decreases l, 0
  { l.pre + BodyText(l.body) + l.post }

  ghost function BodyText(b: Body): string
    decreases b, 0
  {
    match b
    case Word(v) => WordText(v)
    case Num(n) => NumeralText(n)
    case Lit(raw) => "\"" + raw + "\""
    case Items(items, gap) => "[" + (if items == [] then gap else ItemsText(items)) + "]"
    case Fields(fields, gap) => "{" + (if fields == [] then gap else FieldsText(fields)) + "}"
  }

  ghost function ItemsText(items: seq<Laid>): string
    requires items != []
    decreases items, 1
  { Text(items[0]) + if |items| == 1 then "" else "," + ItemsText(items[1..]) }

  ghost function FieldText(f: Field): string
    decreases f, 0
  { f.pre + ("\"" + f.raw + "\"" + (f.mid + (":" + Text(f.val)))) }

  ghost function FieldsText(fields: seq<Field>): string
    requires fields != []
    decreases fields, 1
  { FieldText(fields[0]) + if |fields| == 1 then "" else "," + FieldsText(fields[1..]) }

  // ----- the meaning -----

  // The first 63 characters count; an integer beyond 64 bits becomes the nearest that fits.
  ghost function NumeralValue(n: Numeral): Value
    requires FineNumeral(n)
  {
    var t := NumeralText(n);
    if n.frac != "" || n.exp != "" then Double(if |t| < 64 then t else t[..63]) else
      var room := if n.neg then 62 else 63;
      var digits := if |n.whole| <= room then n.whole else n.whole[..room];
      var v := if n.neg then -Decimal(digits) else Decimal(digits);
      Int(if v < -9223372036854775808 then -9223372036854775808
        else if v > 9223372036854775807 then 9223372036854775807 else v)
  }

  ghost function Meaning(l: Laid): Value
    requires Fine(l)
    decreases l, 0
  {
    assert FineBody(l.body);
    match l.body
    case Word(v) => v
    case Num(n) => NumeralValue(n)
    case Lit(raw) => Str(Unescape(raw))
    case Items(items, _) => Arr(seq(|items|, i requires 0 <= i < |items| => Meaning(items[i])))
    case Fields(fields, _) => Obj(seq(|fields|, i requires 0 <= i < |fields| => MeaningOf(fields[i])))
  }

  ghost function MeaningOf(f: Field): Pair
    requires FineField(f)
    decreases f, 0
  { Pair(Unescape(f.raw), Meaning(f.val)) }

  ghost function Meanings(items: seq<Laid>): (r: seq<Value>)
    requires forall i :: 0 <= i < |items| ==> Fine(items[i])
    ensures |r| == |items| && forall i :: 0 <= i < |items| ==> r[i] == Meaning(items[i])
  { seq(|items|, i requires 0 <= i < |items| => Meaning(items[i])) }

  ghost function MeaningsOf(fields: seq<Field>): (r: seq<Pair>)
    requires forall i :: 0 <= i < |fields| ==> FineField(fields[i])
    ensures |r| == |fields| && forall i :: 0 <= i < |fields| ==> r[i] == MeaningOf(fields[i])
  { seq(|fields|, i requires 0 <= i < |fields| => MeaningOf(fields[i])) }

  // ----- blanks -----

  lemma {:induction false} SkipBlank(b: string, t: string)
    requires Blank(b)
    ensures SkipWs(b + t) == SkipWs(t)
  {
    if b == "" { assert b + t == t; } else {
      assert b[0] in {' ', '\t', '\r', '\n'};
      SkipBlank(b[1..], t);
      assert (b + t)[1..] == b[1..] + t;
    }
  }

  // What is skipped is blanks, and what is left does not start with one.
  lemma {:induction false} SkipSplit(s: string) returns (b: string)
    ensures Blank(b) && s == b + SkipWs(s)
    ensures SkipWs(s) != "" ==> SkipWs(s)[0] !in {' ', '\t', '\r', '\n'}
  {
    if s != "" && IsWs(s[0]) {
      var b' := SkipSplit(s[1..]);
      b := [s[0]] + b';
    } else {
      b := "";
    }
  }

  lemma ValueSkips(b: string, t: string)
    requires Blank(b)
    ensures ParseValue(b + t) == ParseValue(t) && ParseString(b + t) == ParseString(t)
  {
    hide SkipWs;
    SkipBlank(b, t);
  }

  // A text that starts with none of the characters a value can start with is refused.
  lemma NoValue(t: string)
    requires t == "" || (t[0] !in {' ', '\t', '\r', '\n', '"', '{', '[', 't', 'f', 'n', '-'} && !('0' <= t[0] <= '9'))
    ensures ParseValue(t) == Fail
  {
    SkipNone(t);
  }

  // ----- tokens -----

  lemma {:induction false} RawCloses(raw: string, tail: string)
    requires FineRaw(raw)
    ensures Closing(raw + "\"" + tail) == |raw|
  {
    var s := raw + "\"" + tail;
    if raw != "" {
      var k := if raw[0] == '\\' then 2 else 1;
      RawCloses(raw[k..], tail);
      assert s[k..] == raw[k..] + "\"" + tail;
    }
  }

  lemma {:induction false} ClosesRaw(s: string)
    requires Closing(s) < |s|
    ensures FineRaw(s[..Closing(s)]) && s[Closing(s)] == '"'
  {
    var n := Closing(s);
    if s[0] != '"' {
      var k := if s[0] == '\\' then 2 else 1;
      ClosesRaw(s[k..]);
      assert s[..n][k..] == s[k..][..n - k];
    }
  }

  lemma LiteralParses(raw: string, rest: string)
    requires FineRaw(raw)
    ensures ParseString("\"" + raw + "\"" + rest) == Got(Unescape(raw), rest)
  {
    hide Unescape, Closing;
    var t := "\"" + raw + "\"" + rest;
    assert t[1..] == raw + "\"" + rest;
    RawCloses(raw, rest);
    assert t[1..][..|raw|] == raw;
    assert t[|raw| + 2..] == rest;
  }

  lemma LiteralSound(t: string) returns (raw: string)
    requires t != "" && t[0] == '"' && ParseString(t).Got?
    ensures FineRaw(raw) && t == "\"" + raw + "\"" + ParseString(t).rest && ParseString(t).value == Unescape(raw)
  {
    hide Unescape, Closing;
    SkipNone(t);
    var n := Closing(t[1..]);
    raw := t[1..][..n];
    ClosesRaw(t[1..]);
    assert t == "\"" + raw + "\"" + t[n + 2..];
  }

  lemma DigitalCount(ds: string, rest: string)
    requires Digital(ds) && (rest == "" || !('0' <= rest[0] <= '9'))
    ensures DigitCount(ds + rest) == |ds|
  {
    DigitCountAll(ds, rest);
  }

  // The parts of a numeral end where the scan stops.
  lemma NumeralScan(n: Numeral, rest: string)
    requires FineNumeral(n) && Ended(rest)
    ensures NumberEnd(NumeralText(n) + rest) == (|NumeralText(n)|, n.frac != "" || n.exp != "")
  {
    hide IntEnd, FracEnd, ExpEnd, Digital, SignedDigits;
    var sign := if n.neg then "-" else "";
    var t := NumeralText(n) + rest;
    Split(sign, n.whole, n.frac, n.exp, rest);
    ExpTail(n.exp, rest);
    FracTail(n.frac, n.exp + rest);
    WholeAfter(n.neg, n.whole, n.frac + (n.exp + rest));
    FracAfter(sign + n.whole, n.frac, n.exp + rest);
    ExpAfter(sign + n.whole + n.frac, n.exp, rest);
  }

  lemma Split(a: string, b: string, c: string, d: string, e: string)
    ensures a + b + c + d + e == a + (b + (c + (d + e)))
    ensures a + b + c + d + e == a + b + (c + (d + e))
    ensures a + b + c + d + e == a + b + c + (d + e)
  {}

  // What comes after the fraction, and after the integer digits, does not go on with digits.
  lemma ExpTail(x: string, rest: string)
    requires Ended(rest) && (x == "" || x[0] in {'e', 'E'})
    ensures var u := x + rest; u == "" || (!('0' <= u[0] <= '9') && u[0] != '.')
  {}

  lemma FracTail(f: string, tail: string)
    requires (f == "" || f[0] == '.') && (tail == "" || !('0' <= tail[0] <= '9'))
    ensures var u := f + tail; u == "" || !('0' <= u[0] <= '9')
  {}

  lemma WholeAfter(neg: bool, whole: string, tail: string)
    requires Digital(whole) && (neg || whole != "") && (tail == "" || !('0' <= tail[0] <= '9'))
    ensures IntEnd((if neg then "-" else "") + (whole + tail)) == (if neg then 1 else 0) + |whole|
  {
    hide DigitCount;
    var u := whole + tail;
    var t := (if neg then "-" else "") + u;
    DigitalCount(whole, tail);
    if neg { assert t[1..] == u; } else { assert t == u && t[0..] == t && t[0] == whole[0]; }
  }

  lemma FracAfter(head: string, f: string, tail: string)
    requires f == "" || (f[0] == '.' && Digital(f[1..]))
    requires tail == "" || (!('0' <= tail[0] <= '9') && tail[0] != '.')
    ensures FracEnd(head + (f + tail), |head|) == |head| + |f|
  {
    hide DigitCount;
    var t, b := head + (f + tail), |head|;
    assert t[b..] == f + tail;
    if f != "" {
      assert t[b + 1..] == f[1..] + tail;
      DigitalCount(f[1..], tail);
    }
  }

  lemma ExpAfter(head: string, x: string, rest: string)
    requires Ended(rest) && (x == "" || (x[0] in {'e', 'E'} && (Digital(x[1..]) || SignedDigits(x[1..]))))
    ensures ExpEnd(head + (x + rest), |head|) == |head| + |x|
  {
    hide DigitCount;
    var t, c := head + (x + rest), |head|;
    assert t[c..] == x + rest;
    if x == "" { assert c < |t| ==> t[c] == rest[0]; } else {
      var k := if |x| >= 2 && (x[1] == '+' || x[1] == '-') then 1 else 0;
      assert t[c] == x[0] && (c + 1 < |t| ==> t[c + 1] == (x + rest)[1]);
      assert t[c + 1 + k..] == x[1 + k..] + rest;
      if k == 1 { assert x[1..][1..] == x[2..]; }
      DigitalCount(x[1 + k..], rest);
    }
  }

  // The text that a scan covers is a numeral.
  lemma ScanNumeral(t: string) returns (n: Numeral)
    requires t != "" && (t[0] == '-' || '0' <= t[0] <= '9')
    ensures FineNumeral(n) && NumeralText(n) == t[..NumberEnd(t).0]
    ensures NumberEnd(t).1 <==> n.frac != "" || n.exp != ""
  {
    hide Digital, SignedDigits, IntEnd, FracEnd, ExpEnd;
    var a := if t[0] == '-' then 1 else 0;
    var b := IntEnd(t);
    var c := FracEnd(t, b);
    var e := ExpEnd(t, c);
    WholePart(t);
    FracPart(t, b);
    ExpPart(t, c);
    n := Numeral(a == 1, t[a..b], t[b..c], t[c..e]);
    assert (if a == 1 then "-" else "") == t[..a];
    Pieces(t, a, b, c, e);
  }

  lemma WholePart(t: string)
    requires t != "" && (t[0] == '-' || '0' <= t[0] <= '9')
    ensures var a, b := if t[0] == '-' then 1 else 0, IntEnd(t);
      a <= b && Digital(t[a..b]) && (a == 1 || t[a..b] != "")
  {
    hide DigitCount;
    DigitalPart(t, if t[0] == '-' then 1 else 0);
    if t[0] != '-' { CountFirst(t); assert t[0..] == t; }
  }

  lemma FracPart(t: string, b: int)
    requires 0 <= b <= |t|
    ensures var f := t[b..FracEnd(t, b)]; f == "" || (f[0] == '.' && Digital(f[1..]))
  {
    hide DigitCount;
    var c := FracEnd(t, b);
    if b < c { DigitalPart(t, b + 1); assert t[b..c][1..] == t[b + 1..c]; }
  }

  lemma ExpPart(t: string, c: int)
    requires 0 <= c <= |t|
    ensures var x := t[c..ExpEnd(t, c)];
      x == "" || (x[0] in {'e', 'E'} && (Digital(x[1..]) || SignedDigits(x[1..])))
  {
    hide DigitCount, Digital;
    var e := ExpEnd(t, c);
    if c < e {
      var x := t[c..e];
      assert x[0] == t[c];
      if c + 1 < |t| && (t[c + 1] == '+' || t[c + 1] == '-') {
        DigitalPart(t, c + 2);
        assert x[1..][1..] == t[c + 2..e] && x[1..][0] == t[c + 1];
      } else {
        DigitalPart(t, c + 1);
        assert x[1..] == t[c + 1..e];
      }
    }
  }

  lemma CountFirst(t: string)
    requires t != "" && IsDigit(t[0])
    ensures DigitCount(t) >= 1
  {}

  lemma Pieces(t: string, a: int, b: int, c: int, e: int)
    requires 0 <= a <= b <= c <= e <= |t|
    ensures t[..a] + t[a..b] + t[b..c] + t[c..e] == t[..e]
  {}

  // The digits that are counted are digits.
  lemma DigitalPart(t: string, a: int)
    requires 0 <= a <= |t|
    ensures a + DigitCount(t[a..]) <= |t| && Digital(t[a..a + DigitCount(t[a..])])
  {
    hide DigitCount;
    var k := DigitCount(t[a..]);
    assert forall i :: 0 <= i < k ==> t[a..a + k][i] == t[a..][i];
  }

  lemma NumeralParsed(n: Numeral, t: string)
    requires FineNumeral(n) && t != "" && (t[0] == '-' || IsDigit(t[0]))
    requires NumberEnd(t) == (|NumeralText(n)|, n.frac != "" || n.exp != "") && NumeralText(n) <= t
    ensures ParseNumber(t) == Got(NumeralValue(n), t[|NumeralText(n)|..])
  {
    hide NumberEnd, Strtoll;
    var x := NumeralText(n);
    assert t[..|x|] == x;
    if n.frac == "" && n.exp == "" {
      WholeBuffer(n, t);
    } else {
      assert |x| >= 64 ==> t[..63] == x[..63];
    }
  }

  // A numeral without fraction and exponent goes through a buffer of 64 characters.
  lemma WholeBuffer(n: Numeral, t: string)
    requires FineNumeral(n) && n.frac == "" && n.exp == "" && NumeralText(n) <= t
    ensures var x := NumeralText(n);
      Int(Strtoll(if |x| >= 64 then t[..63] else t[..|x|])) == NumeralValue(n)
  {
    hide Strtoll, Decimal;
    var x := NumeralText(n);
    assert x == (if n.neg then "-" else "") + n.whole;
    var buf := if |x| >= 64 then t[..63] else t[..|x|];
    var room := if n.neg then 62 else 63;
    var digits := if |n.whole| <= room then n.whole else n.whole[..room];
    assert buf == (if n.neg then "-" else "") + digits;
    StrtollDigits(digits, n.neg);
  }

  lemma StrtollDigits(d: string, neg: bool)
    requires Digital(d) && (neg || d != "")
    ensures var v := if neg then -Decimal(d) else Decimal(d);
      Strtoll((if neg then "-" else "") + d) ==
        if v < INT64_MIN then INT64_MIN else if v > INT64_MAX then INT64_MAX else v
  {
    hide DigitCount, Decimal;
    var t := (if neg then "-" else "") + d;
    DigitalCount(d, "");
    assert d + "" == d && t[if neg then 1 else 0..] == d && d[..|d|] == d;
    if !neg { assert t[0] == d[0]; }
  }
}
