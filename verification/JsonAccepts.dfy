// The parser accepts every text of the grammar, with its meaning, and nothing else.
module JsonAccepts {
  import opened Json
  import opened JsonGrammar

  // ----- every text of the grammar is accepted -----

  lemma BlankEnded(b: string, rest: string)
    requires Blank(b) && Ended(rest)
    ensures Ended(b + rest)
  {}

  lemma BodyStart(b: Body)
    requires FineBody(b)
    ensures BodyText(b) != "" && BodyText(b)[0] !in {' ', '\t', '\r', '\n', ']'}
  {}

  // A text of the grammar, followed by what can follow a value, parses to its meaning; blanks do not matter.
  lemma {:induction false} Accepted(l: Laid, rest: string)
    requires Fine(l) && Ended(rest)
    ensures ParseValue(Text(l) + rest) == Got(Meaning(l), l.post + rest)
    decreases l, 1
  {
    hide ParseValue, BodyText;
    BlankEnded(l.post, rest);
    BodyAccepted(l.body, l.post + rest, l);
    assert Text(l) + rest == l.pre + (BodyText(l.body) + (l.post + rest));
    ValueSkips(l.pre, BodyText(l.body) + (l.post + rest));
  }

  lemma {:induction false} BodyAccepted(b: Body, rest: string, l: Laid)
    requires FineBody(b) && Ended(rest) && Fine(l) && l.body == b
    ensures ParseValue(BodyText(b) + rest) == Got(Meaning(l), rest)
    decreases b, 1
  {
    hide ParseArray, ParseObject, ParseString, ParseNumber, ItemsText, FieldsText, NumeralValue;
    var t := BodyText(b) + rest;
    BodyStart(b);
    SkipNone(t);
    match b
    case Word(v) => WordAccepted(v, rest);
    case Num(n) => NumAccepted(n, rest);
    case Lit(raw) => LiteralParses(raw, rest);
    case Items(items, gap) => ArrayAccepted(items, gap, rest);
    case Fields(fields, gap) => ObjectAccepted(fields, gap, rest);
  }

  lemma WordAccepted(v: Value, rest: string)
    requires v.Null? || v.Bool?
    ensures ParseValue(WordText(v) + rest) == Got(v, rest)
  {
    var t := WordText(v) + rest;
    SkipNone(t);
    assert t[|WordText(v)|..] == rest;
  }

  lemma NumAccepted(n: Numeral, rest: string)
    requires FineNumeral(n) && Ended(rest)
    ensures ParseValue(NumeralText(n) + rest) == Got(NumeralValue(n), rest)
  {
    hide NumberEnd, NumeralValue, ParseNumber;
    var t := NumeralText(n) + rest;
    assert t[0] == if n.neg then '-' else n.whole[0];
    SkipNone(t);
    NumeralScan(n, rest);
    NumeralParsed(n, t);
    assert t[|NumeralText(n)|..] == rest;
  }

  lemma {:induction false} ArrayAccepted(items: seq<Laid>, gap: string, rest: string)
    requires Blank(gap) && forall i :: 0 <= i < |items| ==> Fine(items[i])
    ensures ParseArray("[" + (if items == [] then gap else ItemsText(items)) + "]" + rest) ==
      Got(Arr(Meanings(items)), rest)
    decreases items, 2
  {
    hide ParseItems, Meaning, SkipWs, Text;
    var inner := if items == [] then gap else ItemsText(items);
    var t, u := "[" + inner + "]" + rest, inner + "]" + rest;
    assert t[1..] == u;
    if items == [] {
      assert u == gap + ("]" + rest);
      SkipBlank(gap, "]" + rest);
      SkipNone("]" + rest);
      assert ("]" + rest)[1..] == rest && Meanings(items) == [];
    } else {
      ItemsAccepted(items, [], rest);
      NoClose(items, "]" + rest);
      assert u == ItemsText(items) + ("]" + rest);
      assert [] + Meanings(items) == Meanings(items);
    }
  }

  // The first item does not look like the end of the array.
  lemma NoClose(items: seq<Laid>, rest: string)
    requires items != [] && Fine(items[0])
    ensures var u := SkipWs(ItemsText(items) + rest); u == "" || u[0] != ']'
  {
    var l := items[0];
    var more := (if |items| == 1 then "" else "," + ItemsText(items[1..])) + rest;
    var core := BodyText(l.body) + (l.post + more);
    assert ItemsText(items) + rest == l.pre + core;
    SkipBlank(l.pre, core);
    BodyStart(l.body);
    SkipNone(core);
  }

  lemma {:induction false} ItemsAccepted(items: seq<Laid>, acc: seq<Value>, rest: string)
    requires items != [] && forall i :: 0 <= i < |items| ==> Fine(items[i])
    ensures ParseItems(ItemsText(items) + "]" + rest, acc) == Got(Arr(acc + Meanings(items)), rest)
    decreases items, 1
  {
    hide ParseValue, Meaning, SkipWs, Text;
    var l := items[0];
    var more := if |items| == 1 then "]" + rest else "," + (ItemsText(items[1..]) + "]" + rest);
    assert ItemsText(items) + "]" + rest == Text(l) + more;
    Accepted(l, more);
    SkipBlank(l.post, more);
    SkipNone(more);
    if |items| == 1 {
      assert more[1..] == rest;
      assert Meanings(items) == [Meaning(l)];
    } else {
      assert more[1..] == ItemsText(items[1..]) + "]" + rest;
      ItemsAccepted(items[1..], acc + [Meaning(l)], rest);
      Prepend(acc, Meanings(items), Meanings(items[1..]));
    }
  }

  lemma {:induction false} ObjectAccepted(fields: seq<Field>, gap: string, rest: string)
    requires Blank(gap) && forall i :: 0 <= i < |fields| ==> FineField(fields[i])
    ensures ParseObject("{" + (if fields == [] then gap else FieldsText(fields)) + "}" + rest) ==
      Got(Obj(MeaningsOf(fields)), rest)
    decreases fields, 2
  {
    hide ParsePairs, MeaningOf, SkipWs, Text;
    var inner := if fields == [] then gap else FieldsText(fields);
    var t, u := "{" + inner + "}" + rest, inner + "}" + rest;
    assert t[1..] == u;
    if fields == [] {
      assert u == gap + ("}" + rest);
      SkipBlank(gap, "}" + rest);
      SkipNone("}" + rest);
      assert ("}" + rest)[1..] == rest && MeaningsOf(fields) == [];
    } else {
      FieldsAccepted(fields, [], rest);
      NoCloseField(fields, "}" + rest);
      assert u == FieldsText(fields) + ("}" + rest);
      assert [] + MeaningsOf(fields) == MeaningsOf(fields);
    }
  }

  lemma Regroup6(a: string, b: string, c: string, d: string, e: string, f: string)
    ensures a + (b + (c + (d + e))) + f == a + (b + (c + (d + (e + f))))
  {
    Regroup2(a, b + (c + (d + e)), f);
    Regroup2(b, c + (d + e), f);
    Regroup2(c, d + e, f);
    Regroup2(d, e, f);
  }

  lemma Regroup2(a: string, b: string, c: string)
    ensures a + b + c == a + (b + c)
  {}

  lemma NoCloseField(fields: seq<Field>, rest: string)
    requires fields != [] && FineField(fields[0])
    ensures var u := SkipWs(FieldsText(fields) + rest); u == "" || u[0] != '}'
  {
    hide Text;
    var f := fields[0];
    var x := (if |fields| == 1 then "" else "," + FieldsText(fields[1..])) + rest;
    var core := "\"" + f.raw + "\"" + (f.mid + (":" + (Text(f.val) + x)));
    Regroup6(f.pre, "\"" + f.raw + "\"", f.mid, ":", Text(f.val), x);
    assert FieldsText(fields) + rest == FieldText(f) + x;
    SkipBlank(f.pre, core);
    SkipNone(core);
  }

  // A field, up to what follows its value.
  lemma FieldAccepted(f: Field, more: string)
    requires FineField(f) && Ended(more)
    ensures var c := ":" + (Text(f.val) + more);
      && ParseString(FieldText(f) + more) == Got(Unescape(f.raw), f.mid + c)
      && SkipWs(f.mid + c) == c && ParseValue(c[1..]) == Got(Meaning(f.val), f.val.post + more)
    decreases f, 1
  {
    hide ParseValue, ParseString, Meaning, SkipWs, Text, Unescape;
    var q, c := "\"" + f.raw + "\"", ":" + (Text(f.val) + more);
    Regroup6(f.pre, q, f.mid, ":", Text(f.val), more);
    ValueSkips(f.pre, q + (f.mid + c));
    LiteralParses(f.raw, f.mid + c);
    SkipBlank(f.mid, c);
    SkipNone(c);
    assert c[1..] == Text(f.val) + more;
    Accepted(f.val, more);
  }

  lemma PairsHead(f: Field, more: string, acc: seq<Pair>)
    requires FineField(f) && more != "" && (more[0] == ',' || more[0] == '}')
    ensures ParsePairs(FieldText(f) + more, acc) ==
      var acc' := acc + [MeaningOf(f)];
      if more[0] == ',' then ParsePairs(more[1..], acc') else Got(Obj(acc'), more[1..])
    decreases f, 2
  {
    hide ParseValue, ParseString, ParsePairs, Meaning, SkipWs, Text, FieldText, Unescape, Fine;
    FieldAccepted(f, more);
    FieldParts(f);
    SkipBlank(f.val.post, more);
    SkipNone(more);
    PairsNext(FieldText(f) + more, acc, f.mid + (":" + (Text(f.val) + more)), f.val.post + more);
  }

  lemma {:induction false} FieldsAccepted(fields: seq<Field>, acc: seq<Pair>, rest: string)
    requires fields != [] && forall i :: 0 <= i < |fields| ==> FineField(fields[i])
    ensures ParsePairs(FieldsText(fields) + "}" + rest, acc) == Got(Obj(acc + MeaningsOf(fields)), rest)
    decreases fields, 1
  {
    hide ParsePairs, MeaningOf, FieldsText, FieldText, FineField, MeaningsOf;
    var f := fields[0];
    FieldsHead(fields, rest);
    MeaningsHead(fields, acc);
    if |fields| == 1 {
      PairsHead(f, "}" + rest, acc);
      assert ("}" + rest)[1..] == rest;
    } else {
      var more := FieldsText(fields[1..]) + "}" + rest;
      PairsHead(f, "," + more, acc);
      assert ("," + more)[1..] == more;
      FieldsAccepted(fields[1..], acc + [MeaningOf(f)], rest);
    }
  }

  lemma FieldsHead(fields: seq<Field>, rest: string)
    requires fields != []
    ensures FieldsText(fields) + "}" + rest == FieldText(fields[0]) +
      if |fields| == 1 then "}" + rest else "," + (FieldsText(fields[1..]) + "}" + rest)
  {
    hide FieldsText, FieldText;
    var f := fields[0];
    if |fields| == 1 {
      assert fields == [f];
      LastField(f);
      Regroup2(FieldText(f), "}", rest);
    } else {
      assert fields == [f] + fields[1..];
      MoreFields(f, fields[1..]);
      FieldJoin(FieldText(f), FieldsText(fields[1..]), "}", rest);
    }
  }

  lemma MeaningsHead(fields: seq<Field>, acc: seq<Pair>)
    requires fields != [] && forall i :: 0 <= i < |fields| ==> FineField(fields[i])
    ensures acc + MeaningsOf(fields) == acc + [MeaningOf(fields[0])] + MeaningsOf(fields[1..])
    ensures |fields| == 1 ==> acc + MeaningsOf(fields) == acc + [MeaningOf(fields[0])]
  {
    hide MeaningOf, FineField, MeaningsOf;
    Prepend(acc, MeaningsOf(fields), MeaningsOf(fields[1..]));
  }

  lemma Prepend<T>(acc: seq<T>, r: seq<T>, tail: seq<T>)
    requires |r| == |tail| + 1 && forall i :: 0 <= i < |tail| ==> tail[i] == r[i + 1]
    ensures acc + r == acc + [r[0]] + tail && (tail == [] ==> acc + r == acc + [r[0]])
  {
    assert r == [r[0]] + tail;
  }

  lemma FieldParts(f: Field)
    requires FineField(f)
    ensures Fine(f.val) && Blank(f.val.post)
  {}

  // What one turn of the loop over the pairs does with a key and value that parse.
  lemma PairsNext(s: string, acc: seq<Pair>, r: string, r': string)
    requires ParseString(s).Got? && ParseString(s).rest == r
    requires var c := SkipWs(r); c != "" && c[0] == ':' && ParseValue(c[1..]).Got? && ParseValue(c[1..]).rest == r'
    requires var u := SkipWs(r'); u != "" && (u[0] == ',' || u[0] == '}')
    ensures var u := SkipWs(r'); var acc' := acc + [Pair(ParseString(s).value, ParseValue(SkipWs(r)[1..]).value)];
      ParsePairs(s, acc) == if u[0] == ',' then ParsePairs(u[1..], acc') else Got(Obj(acc'), u[1..])
  {
    hide ParseValue, ParseString, SkipWs;
  }

  // ----- and nothing else is -----

  // Whatever the parser accepts is a text of the grammar, and it parses to the meaning of that text.
  lemma {:induction false} AcceptsOnly(s: string) returns (l: Laid)
    requires ParseValue(s).Got?
    ensures Fine(l) && l.post == "" && s == Text(l) + ParseValue(s).rest && ParseValue(s).value == Meaning(l)
    decreases |s|, 2
  {
    hide ParseArray, ParseObject, ParseString, ParseNumber, BodyText, Text, Meaning;
    var b := SkipSplit(s);
    var t, p := SkipWs(s), ParseValue(s);
    var body := BodyOnly(t);
    SkipNone(t);
    l := Laid(b, body, "");
    LaidText(l);
    MeaningBody(Laid("", body, ""), l);
    assert b + BodyText(body) + "" + p.rest == b + (BodyText(body) + p.rest);
  }

  lemma LaidText(l: Laid)
    ensures Text(l) == l.pre + BodyText(l.body) + l.post
  {}

  // The blanks around do not matter to the meaning.
  lemma MeaningBody(l: Laid, l': Laid)
    requires Fine(l) && Fine(l') && l.body == l'.body
    ensures Meaning(l) == Meaning(l')
  {}

  lemma {:induction false} BodyOnly(t: string) returns (b: Body)
    requires t != "" && !IsWs(t[0]) && ParseValue(t).Got?
    ensures FineBody(b) && t == BodyText(b) + ParseValue(t).rest
    ensures ParseValue(t).value == Meaning(Laid("", b, ""))
    decreases |t|, 1
  {
    hide ParseArray, ParseObject, ParseString, ParseNumber;
    SkipNone(t);
    var p := ParseValue(t);
    if t[0] == '"' {
      var raw := LiteralSound(t);
      b := Lit(raw);
    } else if t[0] == '{' {
      b := ObjectOnly(t);
    } else if t[0] == '[' {
      b := ArrayOnly(t);
    } else if t[0] == 't' || t[0] == 'f' || t[0] == 'n' {
      b := Word(p.value);
      assert t == WordText(p.value) + t[|WordText(p.value)|..];
    } else {
      b := NumOnly(t);
    }
  }

  lemma NumOnly(t: string) returns (b: Body)
    requires t != "" && (t[0] == '-' || IsDigit(t[0]))
    ensures FineBody(b) && b.Num? && t == BodyText(b) + ParseNumber(t).rest && ParseNumber(t).value == NumeralValue(b.n)
  {
    hide NumberEnd, NumeralValue;
    var n := ScanNumeral(t);
    b := Num(n);
    NumeralParsed(n, t);
  }

  lemma {:induction false} ArrayOnly(t: string) returns (b: Body)
    requires t != "" && t[0] == '[' && ParseArray(t).Got?
    ensures FineBody(b) && t == BodyText(b) + ParseArray(t).rest && ParseArray(t).value == Meaning(Laid("", b, ""))
    decreases |t|, 0
  {
    hide ParseItems, Meaning, SkipWs, ItemsText;
    var gap := SkipSplit(t[1..]);
    var u := SkipWs(t[1..]);
    if u != "" && u[0] == ']' {
      b := Items([], gap);
      MeaningItems(b);
      assert t == "[" + gap + "]" + u[1..];
    } else {
      var items := ItemsOnly(t[1..], []);
      b := Items(items, "");
      MeaningItems(b);
      assert [] + Meanings(items) == Meanings(items);
      assert t == "[" + t[1..];
    }
  }

  lemma MeaningItems(b: Body)
    requires FineBody(b) && b.Items?
    ensures Meaning(Laid("", b, "")) == Arr(Meanings(b.items))
  {}

  lemma MeaningFields(b: Body)
    requires FineBody(b) && b.Fields?
    ensures Meaning(Laid("", b, "")) == Obj(MeaningsOf(b.fields))
  {}

  // What one turn of the loop over the items does.
  lemma ItemsStep(s: string, acc: seq<Value>)
    requires ParseItems(s, acc).Got?
    ensures ParseValue(s).Got?
    ensures var u := SkipWs(ParseValue(s).rest); u != "" && |u| < |s| && (u[0] == ',' || u[0] == ']')
    ensures var u, acc' := SkipWs(ParseValue(s).rest), acc + [ParseValue(s).value];
      ParseItems(s, acc) == if u[0] == ',' then ParseItems(u[1..], acc') else Got(Arr(acc'), u[1..])
  {
    hide ParseValue, SkipWs;
  }

  // A value with the blanks after it.
  lemma ItemOnly(s: string) returns (l: Laid)
    requires ParseValue(s).Got?
    ensures Fine(l) && s == Text(l) + SkipWs(ParseValue(s).rest) && Meaning(l) == ParseValue(s).value
    decreases |s|, 3
  {
    hide ParseValue, Meaning, SkipWs, Text, BodyText;
    var p := ParseValue(s);
    var l0 := AcceptsOnly(s);
    var post := SkipSplit(p.rest);
    l := Laid(l0.pre, l0.body, post);
    LaidText(l0);
    LaidText(l);
    MeaningBody(l0, l);
    assert l0.pre + BodyText(l0.body) + "" == l0.pre + BodyText(l0.body);
    Regroup2(l0.pre + BodyText(l0.body), post, SkipWs(p.rest));
  }

  lemma {:induction false} ItemsOnly(s: string, acc: seq<Value>) returns (items: seq<Laid>)
    requires ParseItems(s, acc).Got?
    ensures items != [] && forall i :: 0 <= i < |items| ==> Fine(items[i])
    ensures s == ItemsText(items) + "]" + ParseItems(s, acc).rest
    ensures ParseItems(s, acc).value == Arr(acc + Meanings(items))
    decreases |s|, 4
  {
    hide ParseValue, ParseItems, Meaning, SkipWs, Text, ItemsText, Fine, Meanings;
    ItemsStep(s, acc);
    var p := ParseValue(s);
    var u := SkipWs(p.rest);
    var l := ItemOnly(s);
    if u[0] == ']' {
      items := [l];
      LastItem(l);
      assert u == "]" + u[1..] && Meanings(items) == [p.value];
      Regroup2(Text(l), "]", u[1..]);
    } else {
      var rest := ItemsOnly(u[1..], acc + [p.value]);
      items := [l] + rest;
      MoreItems(l, rest);
      assert u == "," + u[1..];
      Prepend(acc, Meanings(items), Meanings(rest));
      FieldJoin(Text(l), ItemsText(rest), "]", ParseItems(s, acc).rest);
    }
  }

  lemma LastItem(l: Laid)
    ensures ItemsText([l]) == Text(l)
  {
    hide Text;
    assert Text(l) + "" == Text(l);
  }

  lemma MoreItems(l: Laid, rest: seq<Laid>)
    requires rest != []
    ensures ItemsText([l] + rest) == Text(l) + ("," + ItemsText(rest))
  {
    hide Text;
    assert ([l] + rest)[1..] == rest;
  }

  lemma {:induction false} ObjectOnly(t: string) returns (b: Body)
    requires t != "" && t[0] == '{' && ParseObject(t).Got?
    ensures FineBody(b) && t == BodyText(b) + ParseObject(t).rest && ParseObject(t).value == Meaning(Laid("", b, ""))
    decreases |t|, 0
  {
    hide ParsePairs, Meaning, SkipWs, FieldsText;
    var gap := SkipSplit(t[1..]);
    var u := SkipWs(t[1..]);
    if u != "" && u[0] == '}' {
      b := Fields([], gap);
      MeaningFields(b);
      assert t == "{" + gap + "}" + u[1..];
    } else {
      var fields := FieldsOnly(t[1..], []);
      b := Fields(fields, "");
      MeaningFields(b);
      assert [] + MeaningsOf(fields) == MeaningsOf(fields);
      assert t == "{" + t[1..];
    }
  }

  // One field, up to the comma or brace after it.
  lemma FieldOnly(s: string) returns (f: Field, u: string)
    requires ParseString(s).Got?
    requires var c := SkipWs(ParseString(s).rest); c != "" && c[0] == ':' && ParseValue(c[1..]).Got?
    ensures FineField(f) && s == FieldText(f) + u
    ensures var c := SkipWs(ParseString(s).rest);
      u == SkipWs(ParseValue(c[1..]).rest) && MeaningOf(f) == Pair(ParseString(s).value, ParseValue(c[1..]).value)
    decreases |s|, 2
  {
    hide ParseValue, Meaning, SkipWs, Text, ParseString, Unescape, Fine;
    var k := ParseString(s);
    var pre := SkipSplit(s);
    StringStart(s);
    var raw := LiteralSound(SkipWs(s));
    var mid := SkipSplit(k.rest);
    var c := SkipWs(k.rest);
    SkipShorter(k.rest);
    var val := ItemOnly(c[1..]);
    u := SkipWs(ParseValue(c[1..]).rest);
    f := Field(pre, raw, mid, val);
    assert c == ":" + (Text(val) + u);
    Regroup6(pre, "\"" + raw + "\"", mid, ":", Text(val), u);
  }

  lemma SkipShorter(s: string)
    ensures |SkipWs(s)| <= |s|
  {}

  // A string is looked for after the blanks.
  lemma StringStart(s: string)
    requires ParseString(s).Got?
    ensures var t := SkipWs(s); t != "" && t[0] == '"' && ParseString(t) == ParseString(s)
    ensures |ParseString(s).rest| < |s|
  {
    SkipNone(SkipWs(s));
  }

  // What one turn of the loop over the pairs does.
  lemma PairsStep(s: string, acc: seq<Pair>)
    requires ParsePairs(s, acc).Got?
    ensures ParseString(s).Got?
    ensures var c := SkipWs(ParseString(s).rest); c != "" && c[0] == ':' && ParseValue(c[1..]).Got?
    ensures var v := ParseValue(SkipWs(ParseString(s).rest)[1..]); var u := SkipWs(v.rest);
      && u != "" && |u| < |s| && (u[0] == ',' || u[0] == '}')
      && ParsePairs(s, acc) ==
        var acc' := acc + [Pair(ParseString(s).value, v.value)];
        if u[0] == ',' then ParsePairs(u[1..], acc') else Got(Obj(acc'), u[1..])
  {
    hide ParseValue, ParseString, SkipWs;
  }

  lemma {:induction false} FieldsOnly(s: string, acc: seq<Pair>) returns (fields: seq<Field>)
    requires ParsePairs(s, acc).Got?
    ensures fields != [] && forall i :: 0 <= i < |fields| ==> FineField(fields[i])
    ensures s == FieldsText(fields) + "}" + ParsePairs(s, acc).rest
    ensures ParsePairs(s, acc).value == Obj(acc + MeaningsOf(fields))
    decreases |s|, 3
  {
    hide ParseValue, ParseString, ParsePairs, MeaningOf, SkipWs, FieldText, FieldsText, FineField, MeaningsOf;
    PairsStep(s, acc);
    var f, u := FieldOnly(s);
    var pair := MeaningOf(f);
    if u[0] == '}' {
      fields := [f];
      LastField(f);
      assert u == "}" + u[1..] && MeaningsOf(fields) == [pair];
      Regroup2(FieldText(f), "}", u[1..]);
    } else {
      var rest := FieldsOnly(u[1..], acc + [pair]);
      fields := [f] + rest;
      MoreFields(f, rest);
      assert u == "," + u[1..];
      Prepend(acc, MeaningsOf(fields), MeaningsOf(rest));
      FieldJoin(FieldText(f), FieldsText(rest), "}", ParsePairs(s, acc).rest);
    }
  }

  lemma LastField(f: Field)
    ensures FieldsText([f]) == FieldText(f)
  {
    hide FieldText;
    assert FieldText(f) + "" == FieldText(f);
  }

  lemma MoreFields(f: Field, rest: seq<Field>)
    requires rest != []
    ensures FieldsText([f] + rest) == FieldText(f) + ("," + FieldsText(rest))
  {
    hide FieldText;
    assert ([f] + rest)[1..] == rest;
  }

  lemma FieldJoin(a: string, b: string, c: string, d: string)
    ensures a + ("," + b) + c + d == a + ("," + (b + c + d))
  {}
}
