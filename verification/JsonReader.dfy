/** A reader of JSON texts without white space (RFC 8259), and that it reads every text of
    canonicalJson (src/convites.ts, lines 227-243) back as the canonical value. */
module JsonReader {
  import opened Optional
  import opened JsonText
  import opened CanonicalJson

  datatype Read<T> = Read(value: T, rest: Text)

  // ----- Strings, section 7 -----

  function HexValue(u: Unit): (d: int)
    ensures -1 <= d < 16
  {
    if 48 <= u <= 57 then u - 48
    else if 97 <= u <= 102 then u - 87
    else if 65 <= u <= 70 then u - 55
    else -1
  }

  /** Four hexadecimal digits. */
  function FourDigits(t: Text): Option<Unit>
    requires |t| == 4
  {
    var a, b, c, d := HexValue(t[0]), HexValue(t[1]), HexValue(t[2]), HexValue(t[3]);
    if a < 0 || b < 0 || c < 0 || d < 0 then None else Some(4096 * a + 256 * b + 16 * c + d)
  }

  /** The unit that a reverse solidus and the letter stand for. */
  function Unescaped(letter: Unit): Option<Unit> {
    if letter == 34 || letter == 92 || letter == 47 then Some(letter)
    else if letter == 98 then Some(8)
    else if letter == 102 then Some(12)
    else if letter == 110 then Some(10)
    else if letter == 114 then Some(13)
    else if letter == 116 then Some(9)
    else None
  }

  /** One unit of a string's inside. */
  function ReadUnit(t: Text): (r: Option<Read<Unit>>)
    requires t != []
    ensures r.Some? ==> |r.value.rest| < |t|
  {
    if t[0] != 92 then
      if t[0] < 32 then None else Some(Read(t[0], t[1..]))
    else if |t| >= 6 && t[1] == 117 then
      match FourDigits(t[2..6])
      case None => None
      case Some(u) => Some(Read(u, t[6..]))
    else if |t| >= 2 then
      match Unescaped(t[1])
      case None => None
      case Some(u) => Some(Read(u, t[2..]))
    else None
  }

  /** The inside of a string up to its closing quote, and what follows that. */
  function ReadUnits(t: Text): (r: Option<Read<Text>>)
    ensures r.Some? ==> |r.value.rest| < |t|
    decreases |t|
  {
    if t == [] then None
    else if t[0] == 34 then Some(Read([], t[1..]))
    else
      match ReadUnit(t)
      case None => None
      case Some(first) =>
        match ReadUnits(first.rest)
        case None => None
        case Some(more) => Some(Read([first.value] + more.value, more.rest))
  }

  // ----- Values, sections 3 to 6 -----

  predicate StartsWith(t: Text, word: Text) {
    |word| <= |t| && t[..|word|] == word
  }

  function ReadNumber(t: Text): (r: Option<Read<Value>>)
    ensures r.Some? ==> |r.value.rest| < |t|
  {
    var n := RunLength(t);
    if n == 0 || !(48 <= t[0] <= 57 || t[0] == 45) then None
    else
      RunUnits(t);
      Some(Read(Number(t[..n]), t[n..]))
  }

  /** How far digits, signs, points and exponent letters reach. */
  function RunLength(t: Text): (n: nat)
    ensures n <= |t|
  {
    if t == [] || !(48 <= t[0] <= 57 || t[0] in {45, 43, 46, 101, 69}) then 0 else 1 + RunLength(t[1..])
  }

  lemma {:induction false} RunUnits(t: Text)
    ensures forall i | 0 <= i < RunLength(t) :: NumeralUnit(t[i])
  {
    if RunLength(t) > 0 {
      RunUnits(t[1..]);
      forall i | 0 <= i < RunLength(t) ensures NumeralUnit(t[i]) {
        if i > 0 { assert t[i] == t[1..][i - 1]; }
      }
    }
  }

  function ReadValue(t: Text): (r: Option<Read<Value>>)
    ensures r.Some? ==> |r.value.rest| < |t|
    decreases |t|, 1
  {
    if t == [] then None
    else if t[0] == 34 then
      match ReadUnits(t[1..])
      case None => None
      case Some(s) => Some(Read(String(s.value), s.rest))
    else if t[0] == 91 then
      if StartsWith(t[1..], [93]) then Some(Read(Array([]), t[2..]))
      else
        match ReadItems(t[1..])
        case None => None
        case Some(items) => Some(Read(Array(items.value), items.rest))
    else if t[0] == 123 then
      if StartsWith(t[1..], [125]) then Some(Read(Object([]), t[2..]))
      else
        match ReadMembers(t[1..])
        case None => None
        case Some(members) => Some(Read(Object(members.value), members.rest))
    else if StartsWith(t, [110, 117, 108, 108]) then Some(Read(Null, t[4..]))
    else if StartsWith(t, [116, 114, 117, 101]) then Some(Read(Boolean(true), t[4..]))
    else if StartsWith(t, [102, 97, 108, 115, 101]) then Some(Read(Boolean(false), t[5..]))
    else ReadNumber(t)
  }

  /** The elements of an array that is not empty, to its closing bracket. */
  function ReadItems(t: Text): (r: Option<Read<seq<Value>>>)
    ensures r.Some? ==> |r.value.rest| < |t|
    decreases |t|, 2
  {
    match ReadValue(t)
    case None => None
    case Some(first) =>
      if StartsWith(first.rest, [93]) then Some(Read([first.value], first.rest[1..]))
      else if StartsWith(first.rest, [44]) then
        match ReadItems(first.rest[1..])
        case None => None
        case Some(more) => Some(Read([first.value] + more.value, more.rest))
      else None
  }

  function ReadMember(t: Text): (r: Option<Read<Member>>)
    ensures r.Some? ==> |r.value.rest| < |t|
    decreases |t|, 2
  {
    if !StartsWith(t, [34]) then None
    else
      match ReadUnits(t[1..])
      case None => None
      case Some(key) =>
        if !StartsWith(key.rest, [58]) then None
        else
          match ReadValue(key.rest[1..])
          case None => None
          case Some(v) => Some(Read(Member(key.value, v.value), v.rest))
  }

  /** The members of an object that is not empty, to its closing brace. */
  function ReadMembers(t: Text): (r: Option<Read<seq<Member>>>)
    ensures r.Some? ==> |r.value.rest| < |t|
    decreases |t|, 3
  {
    match ReadMember(t)
    case None => None
    case Some(first) =>
      if StartsWith(first.rest, [125]) then Some(Read([first.value], first.rest[1..]))
      else if StartsWith(first.rest, [44]) then
        match ReadMembers(first.rest[1..])
        case None => None
        case Some(more) => Some(Read([first.value] + more.value, more.rest))
      else None
  }

  // ----- Strings are read back -----

  lemma HexReads(d: int)
    requires 0 <= d < 16
    ensures HexValue(Hex(d)) == d
  {
  }

  lemma UnicodeReads(u: Unit, x: Text)
    ensures ReadUnit(UnicodeEscape(u) + x) == Some(Read(u, x))
  {
    var e := UnicodeEscape(u);
    Digits(u);
    HexReads(u / 0x1000);
    HexReads(u / 0x100 % 16);
    HexReads(u / 16 % 16);
    HexReads(u % 16);
    assert (e + x)[2..6] == e[2..6] && (e + x)[6..] == x;
    assert FourDigits(e[2..6]) == Some(u);
  }

  lemma EscapeReads(u: Unit, x: Text)
    requires Escaped(u)
    ensures ReadUnit(EscapeUnit(u) + x) == Some(Read(u, x))
  {
    if ShortEscape(u) == 0 {
      UnicodeReads(u, x);
    } else {
      assert (EscapeUnit(u) + x)[2..] == x;
    }
  }

  lemma RawReads(u: Unit, x: Text, s: Text, y: Text)
    requires u >= 32 && u != 34 && u != 92 && ReadUnits(x) == Some(Read(s, y))
    ensures ReadUnits([u] + x) == Some(Read([u] + s, y))
  {
    assert ([u] + x)[1..] == x;
  }

  lemma PairReads(s: Text, x: Text)
    requires Pair(s) && ReadUnits(Closed(s[2..], x)) == Some(Read(s[2..], x))
    ensures ReadUnits(Closed(s, x)) == Some(Read(s, x))
  {
    var rest := Closed(s[2..], x);
    ClosedPair(s, x);
    RawReads(s[1], rest, s[2..], x);
    RawReads(s[0], [s[1]] + rest, [s[1]] + s[2..], x);
    assert Closed(s, x) == [s[0]] + ([s[1]] + rest) && s == [s[0]] + ([s[1]] + s[2..]);
  }

  lemma {:induction false} StringReads(s: Text, x: Text)
    ensures ReadUnits(Closed(s, x)) == Some(Read(s, x))
    decreases |s|
  {
    match HeadOf(s) {
      case Empty => ClosedEmpty(x);
      case Paired =>
        StringReads(s[2..], x);
        PairReads(s, x);
      case Escape1 =>
        ClosedEscape(s, x);
        StringReads(s[1..], x);
        EscapeReads(s[0], Closed(s[1..], x));
        assert s == [s[0]] + s[1..];
      case Raw =>
        ClosedRaw(s, x);
        StringReads(s[1..], x);
        RawReads(s[0], Closed(s[1..], x), s[1..], x);
        assert Closed(s, x) == [s[0]] + Closed(s[1..], x) && s == [s[0]] + s[1..];
    }
  }

  lemma QuotedReads(s: Text, x: Text)
    ensures |Quoted(s) + x| >= 1 && (Quoted(s) + x)[0] == 34
    ensures ReadUnits((Quoted(s) + x)[1..]) == Some(Read(s, x))
  {
    assert (Quoted(s) + x)[1..] == Closed(s, x);
    StringReads(s, x);
  }

  // ----- Values are read back -----

  lemma WordReads(word: Text, x: Text)
    ensures StartsWith(word + x, word) && (word + x)[|word|..] == x
  {
  }

  lemma {:induction false} RunReads(m: Text, x: Text)
    requires Delimited(x) && forall i | 0 <= i < |m| :: NumeralUnit(m[i])
    ensures RunLength(m + x) == |m|
  {
    if m == [] {
      assert m + x == x;
    } else {
      RunReads(m[1..], x);
      assert (m + x)[1..] == m[1..] + x;
    }
  }

  lemma NumberReads(m: Numeral, x: Text)
    requires Delimited(x)
    ensures ReadValue(m + x) == Some(Read(Number(m), x))
  {
    RunReads(m, x);
    assert (m + x)[..|m|] == m && (m + x)[|m|..] == x && (m + x)[0] == m[0];
  }

  lemma ConstantReads(v: Value, x: Text)
    requires v.Null? || v.Boolean?
    ensures ReadValue(CanonicalJson.Text(v).value + x) == Some(Read(v, x))
  {
    WordReads(CanonicalJson.Text(v).value, x);
    assert (CanonicalJson.Text(v).value + x)[0] == CanonicalJson.Text(v).value[0];
  }

  lemma StringValueReads(s: Text, x: Text)
    ensures ReadValue(Quoted(s) + x) == Some(Read(String(s), x))
  {
    QuotedReads(s, x);
  }

  /** Every printed value is read back, and nothing that follows it is touched. */
  lemma {:induction false} ValueReads(v: Value, x: Text)
    requires CanonicalJson.Text(v).Some? && Delimited(x)
    ensures ReadValue(CanonicalJson.Text(v).value + x) == Some(Read(v, x))
    decreases v, 0
  {
    match v {
      case Null => ConstantReads(v, x);
      case Boolean(_) => ConstantReads(v, x);
      case Number(m) => NumberReads(m, x);
      case String(s) => StringValueReads(s, x);
      case Array(items) =>
        if items != [] { ItemsRead(items, x); }
        ArrayReads(items, x);
      case Object(members) =>
        if members != [] { MembersRead(members, x); }
        ObjectReads(members, x);
    }
  }

  lemma ArrayReads(items: seq<Value>, x: Text)
    requires ItemsText(items).Some?
    requires items != [] ==> ReadItems(ItemsText(items).value + [CLOSE_ARRAY] + x) == Some(Read(items, x))
    ensures ReadValue(CanonicalJson.Text(Array(items)).value + x) == Some(Read(Array(items), x))
  {
    var t := CanonicalJson.Text(Array(items)).value + x;
    Inside(OPEN_ARRAY, ItemsText(items).value, CLOSE_ARRAY, x);
    ItemsLead(items, x);
    if items == [] { assert t == [91, 93] + x; }
  }

  lemma ObjectReads(members: seq<Member>, x: Text)
    requires MembersText(members).Some?
    requires members != [] ==> ReadMembers(MembersText(members).value + [CLOSE_OBJECT] + x) == Some(Read(members, x))
    ensures ReadValue(CanonicalJson.Text(Object(members)).value + x) == Some(Read(Object(members), x))
  {
    var t := CanonicalJson.Text(Object(members)).value + x;
    Inside(OPEN_OBJECT, MembersText(members).value, CLOSE_OBJECT, x);
    MembersLead(members, x);
    if members == [] { assert t == [123, 125] + x; }
  }

  lemma {:induction false} ItemsRead(items: seq<Value>, x: Text)
    requires items != [] && ItemsText(items).Some?
    ensures ReadItems(ItemsText(items).value + [CLOSE_ARRAY] + x) == Some(Read(items, x))
    decreases items, 1
  {
    ItemsSplit(items, x);
    var last, rest := |items| == 1, ItemsText(items[1..]).value;
    ValueReads(items[0], After(last, rest, CLOSE_ARRAY, x));
    if !last { ItemsRead(items[1..], x); }
    AfterReads(last, rest, CLOSE_ARRAY, x);
    ItemStep(CanonicalJson.Text(items[0]).value + After(last, rest, CLOSE_ARRAY, x), items[0],
             After(last, rest, CLOSE_ARRAY, x), last, items[1..], x);
    assert items == [items[0]] + items[1..];
  }

  lemma ItemStep(t: Text, first: Value, after: Text, last: bool, more: seq<Value>, x: Text)
    requires ReadValue(t) == Some(Read(first, after))
    requires last ==> more == [] && StartsWith(after, [93]) && after[1..] == x
    requires !last ==> !StartsWith(after, [93]) && StartsWith(after, [44]) && ReadItems(after[1..]) == Some(Read(more, x))
    ensures ReadItems(t) == Some(Read([first] + more, x))
  {
    assert [first] + [] == [first];
  }

  lemma AfterReads(last: bool, rest: Text, close: Unit, x: Text)
    requires close != COMMA
    ensures var t := After(last, rest, close, x);
            if last then StartsWith(t, [close]) && t[1..] == x
            else !StartsWith(t, [close]) && StartsWith(t, [44]) && t[1..] == rest + [close] + x
  {
  }

  lemma MemberReads(key: Text, v: Value, after: Text)
    requires CanonicalJson.Text(v).Some? && ReadValue(CanonicalJson.Text(v).value + after) == Some(Read(v, after))
    ensures ReadMember(Quoted(key) + ([COLON] + (CanonicalJson.Text(v).value + after))) == Some(Read(Member(key, v), after))
  {
    var t := [COLON] + (CanonicalJson.Text(v).value + after);
    QuotedReads(key, t);
    assert StartsWith(Quoted(key) + t, [34]);
    assert StartsWith(t, [58]) && t[1..] == CanonicalJson.Text(v).value + after;
  }

  lemma {:induction false} MembersRead(members: seq<Member>, x: Text)
    requires members != [] && MembersText(members).Some?
    ensures ReadMembers(MembersText(members).value + [CLOSE_OBJECT] + x) == Some(Read(members, x))
    decreases members, 1
  {
    MembersGlued(members);
    var last, rest := |members| == 1, MembersText(members[1..]).value;
    ValueReads(members[0].value, After(last, rest, CLOSE_OBJECT, x));
    if !last { MembersRead(members[1..], x); }
    MembersReadOn(members, x);
  }

  lemma MembersReadOn(members: seq<Member>, x: Text)
    requires members != [] && MembersText(members).Some?
    requires CanonicalJson.Text(members[0].value).Some? && MembersText(members[1..]).Some?
    requires var after := After(|members| == 1, MembersText(members[1..]).value, CLOSE_OBJECT, x);
             ReadValue(CanonicalJson.Text(members[0].value).value + after) == Some(Read(members[0].value, after))
    requires |members| > 1 ==>
               ReadMembers(MembersText(members[1..]).value + [CLOSE_OBJECT] + x) == Some(Read(members[1..], x))
    ensures ReadMembers(MembersText(members).value + [CLOSE_OBJECT] + x) == Some(Read(members, x))
  {
    var last, rest := |members| == 1, MembersText(members[1..]).value;
    var after := After(last, rest, CLOSE_OBJECT, x);
    MembersSplit(members, x);
    MemberReads(members[0].key, members[0].value, after);
    AfterReads(last, rest, CLOSE_OBJECT, x);
    MemberStep(Quoted(members[0].key) + ([COLON] + (CanonicalJson.Text(members[0].value).value + after)), members[0], after,
               last, members[1..], x);
    assert members == [members[0]] + members[1..];
  }

  lemma MemberStep(t: Text, first: Member, after: Text, last: bool, more: seq<Member>, x: Text)
    requires ReadMember(t) == Some(Read(first, after))
    requires last ==> more == [] && StartsWith(after, [125]) && after[1..] == x
    requires !last ==> !StartsWith(after, [125]) && StartsWith(after, [44]) && ReadMembers(after[1..]) == Some(Read(more, x))
    ensures ReadMembers(t) == Some(Read([first] + more, x))
  {
    assert [first] + [] == [first];
  }

  /** What canonicalJson prints is JSON, and reads back as the canonical value, whole. */
  lemma CanonicalReads(v: Value)
    requires CanonicalJson.CanonicalJson(v).Some?
    ensures ReadValue(CanonicalJson.CanonicalJson(v).value) == Some(Read(Canon(v), []))
  {
    PrintsCanon(v);
    ValueReads(Canon(v), []);
    assert CanonicalJson.Text(Canon(v)).value + [] == CanonicalJson.Text(Canon(v)).value;
  }
}
