/** JSON strings as JSON.stringify writes them, over UTF-16 code units, and why they can be read
    back: used by canonicalJson in src/convites.ts. */
module JsonText {

  type Unit = u: int | 0 <= u < 0x10000
  type Text = seq<Unit>

  const QUOTE: Unit := 34
  const BACKSLASH: Unit := 92
  const COMMA: Unit := 44
  const COLON: Unit := 58

  predicate High(u: Unit) {
    0xD800 <= u < 0xDC00
  }

  predicate Low(u: Unit) {
    0xDC00 <= u < 0xE000
  }

  predicate Surrogate(u: Unit) {
    0xD800 <= u < 0xE000
  }

  function Hex(d: int): (u: Unit)
    requires 0 <= d < 16
  {
    if d < 10 then 48 + d else 87 + d
  }

  /** \uXXXX, in lower case. */
  function UnicodeEscape(u: Unit): (t: Text)
    ensures |t| == 6
  {
    [BACKSLASH, 117, Hex(u / 0x1000), Hex(u / 0x100 % 16), Hex(u / 16 % 16), Hex(u % 16)]
  }

  /** The letter of a two-unit escape, or none. */
  function ShortEscape(u: Unit): Unit {
    if u == 8 then 98 else if u == 9 then 116 else if u == 10 then 110
    else if u == 12 then 102 else if u == 13 then 114
    else if u == QUOTE || u == BACKSLASH then u else 0
  }

  /** Whether a unit standing alone is escaped; a surrogate stands alone when it is unpaired. */
  predicate Escaped(u: Unit) {
    u < 32 || u == QUOTE || u == BACKSLASH || Surrogate(u)
  }

  function EscapeUnit(u: Unit): (t: Text)
    requires Escaped(u)
    ensures |t| >= 2 && t[0] == BACKSLASH
  {
    if ShortEscape(u) != 0 then [BACKSLASH, ShortEscape(u)] else UnicodeEscape(u)
  }

  predicate Pair(s: Text) {
    |s| >= 2 && High(s[0]) && Low(s[1])
  }

  function Escape(s: Text): Text {
    if s == [] then []
    else if Pair(s) then [s[0], s[1]] + Escape(s[2..])
    else if Escaped(s[0]) then EscapeUnit(s[0]) + Escape(s[1..])
    else [s[0]] + Escape(s[1..])
  }

  /** Pairs of surrogates and ordinary units stand for themselves; a control, a quotation mark, a
      reverse solidus or a lone surrogate is escaped, by one letter where there is one and else by
      four digits in lower case. */
  lemma EscapedExactly(s: Text)
    requires s != []
    ensures var pair := |s| >= 2 && 0xD800 <= s[0] < 0xDC00 && 0xDC00 <= s[1] < 0xE000;
            var plain := 32 <= s[0] && s[0] != 34 && s[0] != 92 && !(0xD800 <= s[0] < 0xE000);
            && (pair ==> Escape(s) == s[..2] + Escape(s[2..]))
            && (plain ==> Escape(s) == s[..1] + Escape(s[1..]))
            && (!pair && !plain ==>
                  var n := if s[0] in {8, 9, 10, 12, 13, 34, 92} then 2 else 6;
                  && |Escape(s)| == n + |Escape(s[1..])| && Escape(s)[0] == 92
                  && forall i | 0 <= i < n :: !(65 <= Escape(s)[i] <= 70))
  {
  }

  function Quoted(s: Text): (t: Text)
    ensures |t| >= 2 && t[0] == QUOTE
  {
    [QUOTE] + Escape(s) + [QUOTE]
  }

  // ----- Reading back -----

  lemma HexInjective(a: int, b: int)
    requires 0 <= a < 16 && 0 <= b < 16 && Hex(a) == Hex(b)
    ensures a == b
  {
  }

  lemma Digits(u: Unit)
    ensures u == 0x1000 * (u / 0x1000) + 0x100 * (u / 0x100 % 16) + 16 * (u / 16 % 16) + u % 16
    ensures 0 <= u / 0x1000 < 16
  {
    assert u / 0x100 == u / 16 / 16 && u / 0x1000 == u / 0x100 / 16;
  }

  lemma UnicodeInjective(u: Unit, v: Unit)
    requires UnicodeEscape(u) == UnicodeEscape(v)
    ensures u == v
  {
    var a, b := UnicodeEscape(u), UnicodeEscape(v);
    Digits(u);
    Digits(v);
    assert a[2] == b[2] && a[3] == b[3] && a[4] == b[4] && a[5] == b[5];
    HexInjective(u / 0x1000, v / 0x1000);
    HexInjective(u / 0x100 % 16, v / 0x100 % 16);
    HexInjective(u / 16 % 16, v / 16 % 16);
    HexInjective(u % 16, v % 16);
  }

  /** An escape can be told from what follows it. */
  lemma EscapeUnitPrefix(u: Unit, v: Unit, x: Text, y: Text)
    requires Escaped(u) && Escaped(v) && EscapeUnit(u) + x == EscapeUnit(v) + y
    ensures u == v && x == y
  {
    var a, b := EscapeUnit(u) + x, EscapeUnit(v) + y;
    assert a[1] == EscapeUnit(u)[1] && b[1] == EscapeUnit(v)[1];
    if ShortEscape(u) == 0 {
      assert ShortEscape(v) == 0;
      assert a[..6] == UnicodeEscape(u) && b[..6] == UnicodeEscape(v);
      UnicodeInjective(u, v);
      assert x == a[6..] && y == b[6..];
    } else {
      assert ShortEscape(u) == ShortEscape(v);
      assert x == a[2..] && y == b[2..];
    }
  }

  /** The escaped string with its closing quote and what follows. */
  function Closed(s: Text, x: Text): Text {
    Escape(s) + [QUOTE] + x
  }

  lemma ClosedEmpty(x: Text)
    ensures |Closed([], x)| >= 1 && Closed([], x)[0] == QUOTE && Closed([], x)[1..] == x
  {
  }

  lemma ClosedPair(s: Text, x: Text)
    requires Pair(s)
    ensures |Closed(s, x)| >= 2 && Closed(s, x)[0] == s[0] && Closed(s, x)[1] == s[1]
    ensures Closed(s, x)[2..] == Closed(s[2..], x)
  {
    var rest := Closed(s[2..], x);
    assert Closed(s, x) == [s[0], s[1]] + rest;
  }

  lemma ClosedEscape(s: Text, x: Text)
    requires s != [] && !Pair(s) && Escaped(s[0])
    ensures Closed(s, x) == EscapeUnit(s[0]) + Closed(s[1..], x)
    ensures |Closed(s, x)| >= 1 && Closed(s, x)[0] == BACKSLASH
  {
  }

  lemma ClosedRaw(s: Text, x: Text)
    requires s != [] && !Pair(s) && !Escaped(s[0])
    ensures |Closed(s, x)| >= 1 && Closed(s, x)[0] == s[0] && Closed(s, x)[1..] == Closed(s[1..], x)
  {
    var rest := Closed(s[1..], x);
    assert Closed(s, x) == [s[0]] + rest;
  }

  datatype Head = Empty | Paired | Escape1 | Raw

  function HeadOf(s: Text): Head {
    if s == [] then Empty else if Pair(s) then Paired else if Escaped(s[0]) then Escape1 else Raw
  }

  lemma ClosedHead(s: Text, x: Text)
    ensures |Closed(s, x)| >= 1
    ensures HeadOf(s).Empty? <==> Closed(s, x)[0] == QUOTE
    ensures HeadOf(s).Escape1? <==> Closed(s, x)[0] == BACKSLASH
    ensures HeadOf(s).Paired? <==> Surrogate(Closed(s, x)[0])
  {
    if s == [] {
      ClosedEmpty(x);
    } else if Pair(s) {
      ClosedPair(s, x);
    } else if Escaped(s[0]) {
      ClosedEscape(s, x);
    } else {
      ClosedRaw(s, x);
    }
  }

  /** The closing quote ends the string, and the string is read back as it was. */
  lemma {:induction false} EscapePrefix(s: Text, t: Text, x: Text, y: Text)
    requires Closed(s, x) == Closed(t, y)
    ensures s == t && x == y
    decreases |s|
  {
    ClosedHead(s, x);
    ClosedHead(t, y);
    match HeadOf(s) {
      case Empty =>
        ClosedEmpty(x);
        ClosedEmpty(y);
      case Paired =>
        ClosedPair(s, x);
        ClosedPair(t, y);
        EscapePrefix(s[2..], t[2..], x, y);
        assert s == [s[0], s[1]] + s[2..] && t == [t[0], t[1]] + t[2..];
      case Escape1 =>
        ClosedEscape(s, x);
        ClosedEscape(t, y);
        EscapeUnitPrefix(s[0], t[0], Closed(s[1..], x), Closed(t[1..], y));
        EscapePrefix(s[1..], t[1..], x, y);
        assert s == [s[0]] + s[1..] && t == [t[0]] + t[1..];
      case Raw =>
        ClosedRaw(s, x);
        ClosedRaw(t, y);
        EscapePrefix(s[1..], t[1..], x, y);
        assert s == [s[0]] + s[1..] && t == [t[0]] + t[1..];
    }
  }

  lemma QuotedPrefix(s: Text, t: Text, x: Text, y: Text)
    requires Quoted(s) + x == Quoted(t) + y
    ensures s == t && x == y
  {
    var a, b := Quoted(s) + x, Quoted(t) + y;
    assert a[1..] == Closed(s, x) && b[1..] == Closed(t, y);
    EscapePrefix(s, t, x, y);
  }

  // ----- The order of keys -----

  /** By code units, a prefix first: how `<` compares strings. */
  predicate AtMost(s: Text, t: Text) {
    if s == [] then true
    else if t == [] then false
    else s[0] < t[0] || (s[0] == t[0] && AtMost(s[1..], t[1..]))
  }

  lemma {:induction false} AtMostTotal(s: Text, t: Text)
    ensures AtMost(s, t) || AtMost(t, s)
    decreases |s|
  {
    if s != [] && t != [] { AtMostTotal(s[1..], t[1..]); }
  }

  lemma {:induction false} AtMostTransitive(s: Text, t: Text, u: Text)
    requires AtMost(s, t) && AtMost(t, u)
    ensures AtMost(s, u)
    decreases |s|
  {
    if s != [] && s[0] == t[0] == u[0] { AtMostTransitive(s[1..], t[1..], u[1..]); }
  }

  lemma {:induction false} AtMostAntisymmetric(s: Text, t: Text)
    requires AtMost(s, t) && AtMost(t, s)
    ensures s == t
    decreases |s|
  {
    if s != [] && t != [] {
      AtMostAntisymmetric(s[1..], t[1..]);
      assert s == [s[0]] + s[1..] && t == [t[0]] + t[1..];
    }
  }
}
