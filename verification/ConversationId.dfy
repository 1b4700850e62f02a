// Conversation ids: how they are made from the participants, and how a participant finds its peer in one.
module ConversationId {
  import opened Basics
  import opened Json

  const USER_ID_LEN := 64

  // strcmp(a, b) <= 0 on strings without NUL.
  predicate LexLe(a: string, b: string) {
    a == "" || (b != "" && (a[0] < b[0] || (a[0] == b[0] && LexLe(a[1..], b[1..]))))
  }

  lemma {:induction false} LexTotal(a: string, b: string)
    ensures LexLe(a, b) || LexLe(b, a)
    ensures LexLe(a, b) && LexLe(b, a) ==> a == b
  {
    if a != "" && b != "" && a[0] == b[0] {
      LexTotal(a[1..], b[1..]);
      assert a == [a[0]] + a[1..] && b == [b[0]] + b[1..];
    }
  }

  function Si(a: string, b: string): string { "si_" + Digits(|a|) + "_" + a + "_" + b }

  // The id of a message's conversation; a missing argument is empty.
  function Resolve(conversation: string, group: string, send: string, recv: string): string {
    if conversation != "" then conversation
    else if group != "" then "sg_" + group
    else if send != "" && recv != "" then (if LexLe(send, recv) then Si(send, recv) else Si(recv, send))
    else if recv != "" then recv
    else if send != "" then send
    else "default"
  }

  // Copies s into a buffer of the given size, cutting it short if need be.
  function Fit(s: string, size: nat): string
    requires size > 0
  { if |s| < size then s else s[..size - 1] }

  // The peer of `self` in a single-chat id, as far as it fits a buffer.
  function SiPeer(conv: string, self: string, size: nat): Option<string> {
    if self == "" || size == 0 || !("si_" <= conv) then None else
      var p := conv[3..];
      if p != "" && '1' <= p[0] <= '9' then PrefixedPeer(p, self, size) else LegacyPeer(p, self, size)
  }

  // <len>_<a>_<b>
  function PrefixedPeer(p: string, self: string, size: nat): Option<string>
    requires size > 0
  {
    var n := DigitCount(p);
    var alen := Decimal(p[..n]);
    if n >= |p| || p[n] != '_' || alen == 0 || alen >= USER_ID_LEN then None else
      var r := p[n + 1..];
      if |r| <= alen || r[alen] != '_' then None else
        var a, b := r[..alen], r[alen + 1..];
        if b == "" then None
        else if self == a then Some(Fit(b, size))
        else if self == b then (if alen >= size then None else Some(a))
        else None
  }

  // <a>_<b>, the older form, ambiguous when ids contain underscores.
  function LegacyPeer(p: string, self: string, size: nat): Option<string>
    requires size > 0
  {
    var s, r := |self|, |p|;
    if r > s + 1 && self <= p && p[s] == '_' then
      (var q := Fit(p[s + 1..], size); if q == "" then None else Some(q))
    else if r > s + 1 && p[r - s - 1] == '_' && p[r - s..] == self then
      (if r - s - 1 >= size then None else Some(p[..r - s - 1]))
    else None
  }

  // The order is that of the first place where two names differ; a name comes before its continuations.
  lemma {:induction false} LexFirst(a: string, b: string)
    ensures LexLe(a, b) <==> a <= b || exists i :: 0 <= i < |a| && i < |b| && a[..i] == b[..i] && a[i] < b[i]
  {
    if a != "" && b != "" && a[0] == b[0] {
      LexFirst(a[1..], b[1..]);
      if i :| 0 <= i < |a| && i < |b| && a[..i] == b[..i] && a[i] < b[i] {
        assert i > 0 && a[1..][..i - 1] == a[..i][1..] && b[1..][..i - 1] == b[..i][1..];
      }
      if i :| 0 <= i < |a| - 1 && i < |b| - 1 && a[1..][..i] == b[1..][..i] && a[1..][i] < b[1..][i] {
        assert a[..i + 1] == [a[0]] + a[1..][..i] && b[..i + 1] == [b[0]] + b[1..][..i];
      }
      assert a <= b <==> a[1..] <= b[1..];
    } else if a != "" && b != "" {
      assert a[..0] == b[..0];
    }
  }

  // The smaller name comes first, after its length in decimal.
  lemma SmallerFirst(x: string, y: string)
    requires x != "" && y != "" && LexLe(x, y)
    ensures Resolve("", "", x, y) == Resolve("", "", y, x) == "si_" + Digits(|x|) + "_" + x + "_" + y
  {
    LexTotal(x, y);
  }

  // A given id wins over a group, a group over the participants; a lone participant names the conversation.
  lemma Precedence(conv: string, group: string, send: string, recv: string)
    ensures conv != "" ==> Resolve(conv, group, send, recv) == conv
    ensures group != "" ==> Resolve("", group, send, recv) == "sg_" + group
    ensures recv != "" ==> Resolve("", "", "", recv) == recv
    ensures send != "" ==> Resolve("", "", send, "") == send
    ensures Resolve("", "", "", "") == "default"
  {}

  // The conversations of two groups differ, and none of them is that of two users.
  lemma GroupsApart(g: string, g': string, x: string, y: string)
    requires g != "" && g' != "" && x != "" && y != ""
    ensures Resolve("", g, x, y) == Resolve("", g', x, y) ==> g == g'
    ensures Resolve("", g, x, y) != Resolve("", "", x, y)
  {
    var s, s' := "sg_" + g, "sg_" + g';
    assert s[3..] == g && s'[3..] == g' && s[1] == 'g';
    var a, b := if LexLe(x, y) then x else y, if LexLe(x, y) then y else x;
    assert Si(a, b)[1] == 'i';
  }

  // The two participants, in either order, name the same conversation.
  lemma Symmetric(x: string, y: string)
    requires x != "" && y != ""
    ensures Resolve("", "", x, y) == Resolve("", "", y, x)
  {
    LexTotal(x, y);
  }

  lemma {:induction false} DigitsLead(n: int)
    requires n > 0
    ensures '1' <= Digits(n)[0] <= '9'
  {
    if n >= 10 { DigitsLead(n / 10); assert Digits(n)[0] == Digits(n / 10)[0]; }
  }

  // What the length prefix of an id says.
  lemma SiParts(a: string, b: string)
    requires a != ""
    ensures var p := Si(a, b)[3..]; var n := DigitCount(p);
      "si_" <= Si(a, b) && p != "" && '1' <= p[0] <= '9' && n < |p| && p[n] == '_'
    ensures var p := Si(a, b)[3..]; var n := DigitCount(p); Decimal(p[..n]) == |a| && p[n + 1..] == a + "_" + b
  {
    hide Digits, DigitCount, Decimal;
    var d, rest := Digits(|a|), "_" + a + "_" + b;
    var p := Si(a, b)[3..];
    assert p == d + rest;
    DigitsLead(|a|);
    DigitCountAll(d, rest);
    DecimalDigits(|a|);
    assert p[..|d|] == d && p[|d|] == '_';
    assert p[|d| + 1..] == rest[1..] == a + "_" + b;
  }

  lemma SiInjective(a: string, b: string, a': string, b': string)
    requires a != "" && a' != "" && Si(a, b) == Si(a', b')
    ensures a == a' && b == b'
  {
    hide Si, DigitCount, Decimal;
    SiParts(a, b);
    SiParts(a', b');
    var t, t' := a + "_" + b, a' + "_" + b';
    assert t[..|a|] == a && t'[..|a'|] == a' && t[|a| + 1..] == b && t'[|a'| + 1..] == b';
  }

  // Different pairs of users never share an id, whatever characters their names contain.
  lemma Injective(x: string, y: string, x': string, y': string)
    requires x != "" && y != "" && x' != "" && y' != "" && Resolve("", "", x, y) == Resolve("", "", x', y')
    ensures (x == x' && y == y') || (x == y' && y == x')
  {
    hide Si;
    SiInjective(if LexLe(x, y) then x else y, if LexLe(x, y) then y else x, if LexLe(x', y') then x' else y',
      if LexLe(x', y') then y' else x');
  }

  // The peer of exactly the two participants is found, and it is the other one.
  lemma PeerExact(x: string, y: string, self: string, size: nat)
    requires x != "" && y != "" && |x| < USER_ID_LEN && |y| < USER_ID_LEN && |x| < size && |y| < size
    ensures SiPeer(Resolve("", "", x, y), self, size) ==
      if self == x then Some(y) else if self == y then Some(x) else None
  {
    hide Si, SiPeer;
    if LexLe(x, y) { PeerOfSi(x, y, self, size); } else { PeerOfSi(y, x, self, size); }
  }

  lemma PeerOfSi(a: string, b: string, self: string, size: nat)
    requires a != "" && b != "" && |a| < USER_ID_LEN && |b| < USER_ID_LEN && |a| < size && |b| < size
    ensures SiPeer(Si(a, b), self, size) == if self == a then Some(b) else if self == b then Some(a) else None
  {
    hide Si, SiPeer;
    PeerCut(a, b, self, size);
  }

  // At any sizes: a second name that does not fit the buffer is cut short, a first name that does not fit is refused,
  // and so is one of 64 characters or more.
  lemma PeerCut(a: string, b: string, self: string, size: nat)
    requires a != "" && b != ""
    ensures SiPeer(Si(a, b), self, size) ==
      if self == "" || size == 0 || |a| >= 64 then None
      else if self == a then Some(if |b| < size then b else b[..size - 1])
      else if self == b && |a| < size then Some(a)
      else None
  {
    hide Si, DigitCount, Decimal, LegacyPeer;
    SiParts(a, b);
    var t := a + "_" + b;
    assert t[..|a|] == a && t[|a| + 1..] == b;
  }

  // Only a text that has a length, a name of that length and another name gives an answer, and only to those two.
  lemma PeerSound(conv: string, self: string, size: nat) returns (ds: string, a: string, b: string)
    requires SiPeer(conv, self, size).Some? && |conv| > 3 && '1' <= conv[3] <= '9'
    ensures conv == "si_" + ds + "_" + a + "_" + b && 0 < |a| < 64 && b != ""
    ensures (forall i :: 0 <= i < |ds| ==> IsDigit(ds[i])) && Decimal(ds) == |a|
    ensures self == a || (self == b && |a| < size)
  {
    hide PrefixedPeer, LegacyPeer, Decimal;
    var p := conv[3..];
    assert p[0] == conv[3] && conv == "si_" + p;
    ds, a, b := PrefixedSound(p, self, size);
    Joined(ds, a, b);
  }

  lemma PrefixedSound(p: string, self: string, size: nat) returns (ds: string, a: string, b: string)
    requires size > 0 && PrefixedPeer(p, self, size).Some?
    ensures p == ds + "_" + (a + "_" + b) && 0 < |a| < 64 && b != ""
    ensures (forall i :: 0 <= i < |ds| ==> IsDigit(ds[i])) && Decimal(ds) == |a|
    ensures self == a || (self == b && |a| < size)
  {
    hide Decimal, DigitCount, Fit;
    var n := DigitCount(p);
    var r := p[n + 1..];
    ds := p[..n];
    var alen := Decimal(ds);
    a, b := r[..alen], r[alen + 1..];
    assert r == a + "_" + b;
  }

  lemma Joined(ds: string, a: string, b: string)
    ensures "si_" + (ds + "_" + (a + "_" + b)) == "si_" + ds + "_" + a + "_" + b
  {}

  // The older form without a length: the first participant always finds the second; the second finds the first unless
  // its name with an underscore also starts the text.
  lemma LegacyFound(a: string, b: string, size: nat)
    requires a != "" && b != "" && !('1' <= a[0] <= '9') && size > 0
    ensures SiPeer("si_" + a + "_" + b, a, size) ==
      if size == 1 then None else Some(if |b| < size then b else b[..size - 1])
    ensures !(b + "_" <= a + "_" + b) ==>
      SiPeer("si_" + a + "_" + b, b, size) == if |a| < size then Some(a) else None
  {
    hide LegacyPeer, PrefixedPeer;
    var conv, p := "si_" + a + "_" + b, a + "_" + b;
    assert "si_" <= conv && conv[3..] == p && p[0] == a[0];
    LegacySecond(a, b, size);
    if !(b + "_" <= p) { LegacyFirst(a, b, size); }
  }

  lemma LegacySecond(a: string, b: string, size: nat)
    requires b != "" && size > 0
    ensures LegacyPeer(a + "_" + b, a, size) ==
      if size == 1 then None else Some(if |b| < size then b else b[..size - 1])
  {
    var p := a + "_" + b;
    assert p[|a| + 1..] == b && p[|a|] == '_';
  }

  lemma LegacyFirst(a: string, b: string, size: nat)
    requires a != "" && size > 0 && !(b + "_" <= a + "_" + b)
    ensures LegacyPeer(a + "_" + b, b, size) == if |a| < size then Some(a) else None
  {
    var p := a + "_" + b;
    assert p[|p| - |b|..] == b && p[|a|] == '_' && p[..|a|] == a;
  }

  // Nobody else is told anything: whoever gets an answer starts or ends the text, next to an underscore.
  lemma LegacySound(p: string, self: string, size: nat)
    requires p != "" && !('1' <= p[0] <= '9') && SiPeer("si_" + p, self, size).Some?
    ensures self + "_" <= p || (|p| > |self| && p[|p| - |self| - 1..] == "_" + self)
    ensures SiPeer("si_" + p, self, size).value != ""
  {
    var conv := "si_" + p;
    assert conv[3..] == p;
    var s, r := |self|, |p|;
    if self <= p && r > s + 1 && p[s] == '_' { assert p[..s + 1] == self + "_"; } else {
      assert p[r - s - 1..] == [p[r - s - 1]] + p[r - s..];
    }
  }
}
