// The loops of the JSON reader and writer over a cursor and a buffer, proved against the functions of Json.
module JsonBuffers {
  import opened Json

  lemma {:induction false} NoEscape(raw: string)
    requires '\\' !in raw
    ensures Unescape(raw) == raw
  {
    if raw != "" { NoEscape(raw[1..]); assert raw[1..][0..] == raw[1..]; }
  }

  // Writes u into the buffer from position j on.
  method Append(buf: array<char>, j: int, u: string) returns (j': int)
    requires 0 <= j && j + |u| <= buf.Length
    modifies buf
    ensures j' == j + |u| && buf[..j'] == old(buf[..j]) + u
  {
    for k := 0 to |u|
      invariant buf[..j + k] == old(buf[..j]) + u[..k]
    {
      buf[j + k] := u[k];
    }
    j' := j + |u|;
    assert u[..|u|] == u;
  }

  method SkipBlanks(src: string, pos: int) returns (p: int)
    requires 0 <= pos <= |src|
    ensures pos <= p <= |src| && src[p..] == SkipWs(src[pos..])
  {
    p := pos;
    while p < |src| && IsWs(src[p])
      invariant pos <= p <= |src| && SkipWs(src[p..]) == SkipWs(src[pos..])
    {
      assert src[p..][1..] == src[p + 1..];
      p := p + 1;
    }
  }

  lemma ClosingStep(src: string, pos: int)
    requires 0 <= pos < |src| && src[pos] != '"'
    ensures src[pos] != '\\' ==> Closing(src[pos..]) == 1 + Closing(src[pos + 1..])
    ensures src[pos] == '\\' ==> Closing(src[pos..]) == 2 + if pos + 2 <= |src| then Closing(src[pos + 2..]) else 0
  {
    var s := src[pos..];
    assert s[1..] == src[pos + 1..];
    if pos + 2 <= |src| { assert s[2..] == src[pos + 2..]; }
  }

  // First pass: the position of the closing quote, and how many escapes lie before it.
  method FindClosing(src: string, start: int) returns (pos: int, escapes: int)
    requires 0 <= start <= |src|
    ensures start <= pos && pos - start == Closing(src[start..])
    ensures pos < |src| && escapes == 0 ==> '\\' !in src[start..pos]
  {
    hide Closing;
    pos, escapes := start, 0;
    while pos < |src| && src[pos] != '"'
      invariant start <= pos <= |src| + 1 && escapes >= 0
      invariant Closing(src[start..]) == pos - start + if pos <= |src| then Closing(src[pos..]) else 0
      invariant escapes == 0 ==> forall k :: start <= k < pos && k < |src| ==> src[k] != '\\'
    {
      ClosingStep(src, pos);
      if src[pos] == '\\' { pos := pos + 1; escapes := escapes + 1; }
      pos := pos + 1;
    }
    if pos <= |src| { ClosingEnd(src, pos); }
  }

  lemma ClosingEnd(src: string, pos: int)
    requires 0 <= pos <= |src| && (pos < |src| ==> src[pos] == '"')
    ensures Closing(src[pos..]) == 0
  {}

  lemma SubSlice(src: string, i: int, end: int, a: int, b: int)
    requires 0 <= i && 0 <= a <= b && i + b <= end <= |src|
    ensures src[i..end][a..b] == src[i + a..i + b]
  {
    forall k | 0 <= k < b - a ensures src[i..end][a..b][k] == src[i + a..i + b][k] {}
  }

  // The bytes that the unit at src[i] stands for, and how much text it takes up.
  method DecodeUnit(src: string, i: int, end: int) returns (out: string, used: int)
    requires 0 <= i < end <= |src|
    ensures (out, used) == Unit(src[i..end])
  {
    hide Hex4, Utf8;
    ghost var raw := src[i..end];
    if src[i] != '\\' || i + 1 == end { return [src[i]], 1; }
    if src[i + 1] != 'u' { return [Simple(src[i + 1])], 2; }
    if i + 5 >= end { return "u", 2; }
    SubSlice(src, i, end, 2, 6);
    var cp := Hex4(src[i + 2..i + 6]);
    if cp < 0 { return "u", 2; }
    used := 6;
    if IsHigh(cp) && i + 11 < end && src[i + 6] == '\\' && src[i + 7] == 'u' {
      SubSlice(src, i, end, 8, 12);
      var lo := Hex4(src[i + 8..i + 12]);
      if IsLow(lo) {
        cp := 0x10000 + (cp - 0xD800) * 1024 + (lo - 0xDC00);
        used := 12;
      }
    }
    out := Utf8(Scalar(cp));
  }

  lemma UnescapeStep(src: string, i: int, end: int)
    requires 0 <= i < end <= |src|
    ensures var u := Unit(src[i..end]); Unescape(src[i..end]) == u.0 + Unescape(src[i + u.1..end])
  {
    hide Unit;
    var u := Unit(src[i..end]);
    assert src[i..end][u.1..] == src[i + u.1..end];
  }

  // Second pass: decodes src[start..end] into a buffer no longer than the raw text.
  method DecodeInto(src: string, start: int, end: int, buf: array<char>) returns (j: int)
    requires 0 <= start <= end <= |src| && buf.Length == end - start + 1
    modifies buf
    ensures 0 <= j <= end - start && buf[..j] == Unescape(src[start..end])
  {
    hide Unescape, Unit;
    j := 0;
    var i := start;
    while i < end
      invariant start <= i <= end && 0 <= j <= i - start
      invariant buf[..j] + Unescape(src[i..end]) == Unescape(src[start..end])
    {
      UnescapeStep(src, i, end);
      ghost var before := buf[..j];
      var out, used := DecodeUnit(src, i, end);
      j := Append(buf, j, out);
      i := i + used;
      assert before + (out + Unescape(src[i..end])) == before + out + Unescape(src[i..end]);
    }
    assert Unescape(src[end..end]) == "" by { NoEscape(src[end..end]); }
  }

  // Reads a string literal after optional blanks.
  method DecodeString(src: string, from: int) returns (r: Parsed<string>, pos: int)
    requires 0 <= from <= |src|
    ensures r == ParseString(src[from..])
    ensures r.Got? ==> from < pos <= |src| && r.rest == src[pos..]
  {
    hide Closing, Unescape, SkipWs;
    pos := SkipBlanks(src, from);
    if pos == |src| || src[pos] != '"' { return Fail, pos; }
    var start := pos + 1;
    var escapes;
    ghost var t := src[pos..];
    assert t[1..] == src[start..];
    pos, escapes := FindClosing(src, start);
    if pos >= |src| { return Fail, pos; }
    ghost var n := pos - start;
    assert t[1..][..n] == src[start..pos] && t[n + 2..] == src[pos + 1..];
    if escapes == 0 {
      NoEscape(src[start..pos]);
      r := Got(src[start..pos], src[pos + 1..]);
    } else {
      var buf := new char[pos - start + 1];
      var j := DecodeInto(src, start, pos, buf);
      r := Got(buf[..j], src[pos + 1..]);
    }
    pos := pos + 1;
  }

  method SkipDigits(src: string, pos: int) returns (p: int)
    requires 0 <= pos <= |src|
    ensures p == pos + DigitCount(src[pos..])
  {
    p := pos;
    while p < |src| && IsDigit(src[p])
      invariant pos <= p <= |src| && p + DigitCount(src[p..]) == pos + DigitCount(src[pos..])
    {
      assert src[p..][1..] == src[p + 1..];
      p := p + 1;
    }
  }

  // Finds the end of a number literal.
  method ScanNumber(src: string, start: int) returns (pos: int, isFloat: bool)
    requires 0 <= start <= |src|
    ensures (pos - start, isFloat) == NumberEnd(src[start..])
  {
    hide IntEnd, FracEnd, ExpEnd;
    ghost var s := src[start..];
    pos := ScanInt(src, start);
    var b := pos;
    pos := ScanFraction(src, start, pos);
    pos := ScanExponent(src, start, pos);
    isFloat := pos > b;
  }

  method ScanInt(src: string, start: int) returns (pos: int)
    requires 0 <= start <= |src|
    ensures pos - start == IntEnd(src[start..])
  {
    pos := start;
    if pos < |src| && src[pos] == '-' { pos := pos + 1; }
    assert src[start..][pos - start..] == src[pos..];
    pos := SkipDigits(src, pos);
  }

  method ScanFraction(src: string, start: int, from: int) returns (pos: int)
    requires 0 <= start <= from <= |src|
    ensures pos - start == FracEnd(src[start..], from - start)
  {
    pos := from;
    if pos < |src| && src[pos] == '.' {
      assert src[start..][pos - start + 1..] == src[pos + 1..];
      pos := SkipDigits(src, pos + 1);
    }
  }

  method ScanExponent(src: string, start: int, from: int) returns (pos: int)
    requires 0 <= start <= from <= |src|
    ensures pos - start == ExpEnd(src[start..], from - start)
  {
    hide DigitCount;
    pos := from;
    if pos < |src| && (src[pos] == 'e' || src[pos] == 'E') {
      pos := pos + 1;
      if pos < |src| && (src[pos] == '+' || src[pos] == '-') { pos := pos + 1; }
      assert src[start..][pos - start..] == src[pos..];
      pos := SkipDigits(src, pos);
    }
  }

  lemma {:induction false} EscapeAppend(a: string, c: char)
    ensures Escape(a + [c]) == Escape(a) + EscapeChar(c)
  {
    hide EscapeChar;
    if a == "" { assert a + [c] == [c] && [c][1..] == ""; } else {
      EscapeAppend(a[1..], c);
      assert (a + [c])[1..] == a[1..] + [c];
    }
  }

  // One more character, either joining the run or ending it.
  lemma RunStep(str: string, p: int, run: int, out: string)
    requires 0 <= run <= p < |str| && out + str[p - run..p] == "\"" + Escape(str[..p])
    ensures out + str[p - run..p] + EscapeChar(str[p]) == "\"" + Escape(str[..p + 1])
    ensures out + str[p - run..p + 1] == out + str[p - run..p] + [str[p]]
  {
    hide EscapeChar;
    EscapeAppend(str[..p], str[p]);
    assert str[..p + 1] == str[..p] + [str[p]];
  }

  // Writes a string literal, copying escape-free runs as one block.
  method StringifyStr(str: string) returns (out: string)
    requires CString(str)
    ensures out == PrintString(str)
  {
    hide EscapeChar, Escape, CString;
    out := "\"";
    var run := 0;
    assert Escape(str[..0]) == "" by { EscapeNone(str[..0]); }
    for p := 0 to |str|
      invariant 0 <= run <= p && out + str[p - run..p] == "\"" + Escape(str[..p])
    {
      RunStep(str, p, run, out);
      var e := EscapeChar(str[p]);
      if e == [str[p]] { run := run + 1; }
      else {
        out := out + str[p - run..p];
        run := 0;
        out := out + e;
        assert out + str[p + 1..p + 1] == out;
      }
    }
    out := out + str[|str| - run..];
    assert str[..|str|] == str;
    out := out + "\"";
  }

  lemma EscapeNone(s: string)
    requires s == ""
    ensures Escape(s) == ""
  {}
}
