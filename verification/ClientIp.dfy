/** Address prefixes for rate limiting (src/client-ip.ts, lines 5-50): the parser reads back every
    text form of an IPv6 address in section 2.2 of RFC 4291, and two addresses share a prefix
    exactly when they should. */
module ClientIp {
  import opened Optional
  import opened IpText

  // ----- The parser -----

  /** A group of one to four hexadecimal digits. */
  predicate GroupText(s: string) {
    HexText(s) && |s| <= 4
  }

  function StripZone(s: string): string {
    s[..IndexOf(s, '%')]
  }

  /** Where the last colon is, or -1. */
  function LastColon(s: string): (i: int)
    ensures -1 <= i < |s| && (i >= 0 ==> s[i] == ':')
    ensures forall j | i < j < |s| :: s[j] != ':'
  {
    if s == "" then -1 else if s[|s| - 1] == ':' then |s| - 1 else LastColon(s[..|s| - 1])
  }

  /** Four runs of digits between dots. */
  function DottedQuad(s: string): Option<seq<string>> {
    var parts := Split(s, '.');
    if |parts| == 4 && forall i | 0 <= i < 4 :: DigitText(parts[i]) then Some(parts) else None
  }

  predicate Octets(parts: seq<string>) {
    |parts| == 4 && forall i | 0 <= i < 4 :: DigitText(parts[i]) && DecValue(parts[i]) <= 255
  }

  datatype Expansion = Unmapped | BadOctet | Expanded(text: string)

  function Pair(high: string, low: string): (n: nat)
    requires DigitText(high) && DigitText(low)
  {
    256 * DecValue(high) + DecValue(low)
  }

  /** A dotted tail is rewritten as two groups. */
  function Expand(v: string): Expansion {
    var i := LastColon(v);
    if i < 0 then Unmapped
    else
      match DottedQuad(v[i + 1..])
      case None => Unmapped
      case Some(parts) =>
        if !Octets(parts) then BadOctet
        else Expanded(v[..i + 1] + ToHex(Pair(parts[0], parts[1])) + ":" + ToHex(Pair(parts[2], parts[3])))
  }

  /** Where the first "::" is, or the length. */
  function FindDouble(s: string): (i: nat)
    ensures i <= |s| && (i < |s| ==> i + 1 < |s| && s[i] == ':' && s[i + 1] == ':')
  {
    if |s| < 2 then |s|
    else if s[0] == ':' && s[1] == ':' then 0
    else 1 + FindDouble(s[1..])
  }

  /** split("::"). */
  function SplitDouble(s: string): (halves: seq<string>)
    ensures halves != []
    decreases |s|
  {
    var i := FindDouble(s);
    if i == |s| then [s] else [s[..i]] + SplitDouble(s[i + 2..])
  }

  function Parts(half: string): seq<string> {
    if half == "" then [] else Split(half, ':')
  }

  function Zeros(n: nat): seq<string> {
    seq(n, _ => "0")
  }

  function GroupValue(s: string): nat
    requires GroupText(s)
  {
    HexValue(s)
  }

  predicate AllGroups(groups: seq<string>) {
    forall i | 0 <= i < |groups| :: GroupText(groups[i])
  }

  function Values(groups: seq<string>): (v: seq<nat>)
    requires AllGroups(groups)
    ensures |v| == |groups|
    ensures forall i | 0 <= i < |groups| :: v[i] == GroupValue(groups[i])
  {
    seq(|groups|, i requires 0 <= i < |groups| => GroupValue(groups[i]))
  }

  /** The groups around the elided zeros, and the zeros. */
  function Fill(left: seq<string>, right: seq<string>, elided: bool): Option<seq<nat>> {
    var missing := 8 - |left| - |right|;
    if !elided && |left| != 8 then None
    else if missing < (if elided then 1 else 0) then None
    else
      var raw := left + Zeros(missing) + right;
      if AllGroups(raw) then Some(Values(raw)) else None
  }

  function ParseGroups(v: string): Option<seq<nat>> {
    var halves := SplitDouble(v);
    if |halves| > 2 then None
    else if |halves| == 2 then Fill(Parts(halves[0]), Parts(halves[1]), true)
    else Fill(Parts(halves[0]), [], false)
  }

  function Hextets(value: string): Option<seq<nat>> {
    var v := StripZone(value);
    match Expand(v)
    case BadOctet => None
    case Unmapped => ParseGroups(v)
    case Expanded(text) => ParseGroups(text)
  }

  // ----- The text forms -----

  /** One way to write an address: groups, possibly one "::" for the zero groups between `left`
      and `right`, possibly the last 32 bits as a dotted quad. */
  datatype Spelling = Spelling(left: seq<string>, elided: bool, right: seq<string>, quad: Option<seq<string>>)

  predicate WellFormed(sp: Spelling) {
    var tail := if sp.quad.Some? then 2 else 0;
    && AllGroups(sp.left) && AllGroups(sp.right)
    && (sp.quad.Some? ==> Octets(sp.quad.value))
    && (if sp.elided then |sp.left| + |sp.right| + tail <= 7 else sp.right == [] && |sp.left| + tail == 8)
  }

  function QuadGroups(octets: seq<string>): (g: seq<string>)
    requires Octets(octets)
    ensures |g| == 2
  {
    [ToHex(Pair(octets[0], octets[1])), ToHex(Pair(octets[2], octets[3]))]
  }

  /** The groups at the end, the quad's two included. */
  function EndGroups(groups: seq<string>, quad: Option<seq<string>>): seq<string>
    requires quad.Some? ==> Octets(quad.value)
  {
    match quad
    case None => groups
    case Some(octets) => groups + QuadGroups(octets)
  }

  /** The address that is written. */
  function Address(sp: Spelling): (v: seq<nat>)
    requires WellFormed(sp)
    ensures |v| == 8
  {
    GroupsOfQuad(sp);
    if sp.elided then
      var right := EndGroups(sp.right, sp.quad);
      Values(sp.left + Zeros(8 - |sp.left| - |right|) + right)
    else Values(EndGroups(sp.left, sp.quad))
  }

  lemma GroupsOfQuad(sp: Spelling)
    requires WellFormed(sp)
    ensures AllGroups(EndGroups(sp.right, sp.quad)) && AllGroups(EndGroups(sp.left, sp.quad))
    ensures forall n :: AllGroups(Zeros(n))
  {
    assert HexText("0");
  }

  /** Groups with a quad behind them, if there is one. */
  function Ending(groups: seq<string>, quad: Option<seq<string>>): string {
    match quad
    case None => Join(groups, ':')
    case Some(octets) =>
      if groups == [] then Join(octets, '.') else Join(groups, ':') + ":" + Join(octets, '.')
  }

  function Written(sp: Spelling): string {
    if sp.elided then Join(sp.left, ':') + "::" + Ending(sp.right, sp.quad) else Ending(sp.left, sp.quad)
  }

  // ----- Joined groups -----

  /** No colon at either end, and no two in a row. */
  ghost predicate Single(s: string) {
    && (s != "" ==> s[0] != ':' && s[|s| - 1] != ':')
    && (forall i, j | 0 <= i < j < |s| && j == i + 1 :: !(s[i] == ':' && s[j] == ':'))
  }

  predicate HexOrColon(s: string) {
    forall i | 0 <= i < |s| :: HexDigit(s[i]) || s[i] == ':'
  }

  lemma GroupBefore(g: string, rest: string)
    requires GroupText(g) && rest != "" && Single(rest) && HexOrColon(rest)
    ensures Single(g + ":" + rest) && HexOrColon(g + ":" + rest)
  {
    var s := g + ":" + rest;
    assert forall i | 0 <= i < |s| :: s[i] == if i < |g| then g[i] else if i == |g| then ':' else rest[i - |g| - 1];
  }

  lemma {:induction false} JoinedGroups(groups: seq<string>)
    requires AllGroups(groups)
    ensures Single(Join(groups, ':')) && HexOrColon(Join(groups, ':'))
    ensures Join(groups, ':') == "" <==> groups == []
  {
    if |groups| > 1 {
      JoinedGroups(groups[1..]);
      GroupBefore(groups[0], Join(groups[1..], ':'));
    } else if |groups| == 1 {
      assert GroupText(groups[0]);
    }
  }

  lemma {:induction false} JoinAppend(a: seq<string>, b: seq<string>, sep: char)
    requires a != [] && b != []
    ensures Join(a + b, sep) == Join(a, sep) + [sep] + Join(b, sep)
  {
    if |a| == 1 {
      assert (a + b)[1..] == b;
    } else {
      JoinAppend(a[1..], b, sep);
      assert (a + b)[1..] == a[1..] + b;
    }
  }

  lemma PartsOfJoin(groups: seq<string>)
    requires AllGroups(groups)
    ensures Parts(Join(groups, ':')) == groups
  {
    JoinedGroups(groups);
    if groups != [] {
      forall i | 0 <= i < |groups| ensures !Has(groups[i], ':') { assert GroupText(groups[i]); }
      SplitJoin(groups, ':');
    }
  }

  lemma {:induction false} NoDouble(s: string)
    requires Single(s)
    ensures FindDouble(s) == |s|
  {
    NoDoubleIn(s);
  }

  lemma {:induction false} NoDoubleIn(s: string)
    requires forall i, j | 0 <= i < j < |s| && j == i + 1 :: !(s[i] == ':' && s[j] == ':')
    ensures FindDouble(s) == |s|
  {
    if |s| >= 2 {
      forall i, j | 0 <= i < j < |s[1..]| && j == i + 1 ensures !(s[1..][i] == ':' && s[1..][j] == ':') {
        assert !(s[i + 1] == ':' && s[j + 1] == ':');
      }
      NoDoubleIn(s[1..]);
    }
  }

  lemma {:induction false} FirstDouble(a: string, b: string)
    requires forall i, j | 0 <= i < j < |a| && j == i + 1 :: !(a[i] == ':' && a[j] == ':')
    requires a != "" ==> a[|a| - 1] != ':'
    ensures FindDouble(a + "::" + b) == |a|
  {
    var s := a + "::" + b;
    if a != "" {
      assert s[1..] == a[1..] + "::" + b;
      forall i, j | 0 <= i < j < |a[1..]| && j == i + 1 ensures !(a[1..][i] == ':' && a[1..][j] == ':') {
        assert !(a[i + 1] == ':' && a[j + 1] == ':');
      }
      FirstDouble(a[1..], b);
      assert s[0] == a[0] && s[1] == if |a| > 1 then a[1] else ':';
    }
  }

  // ----- Parsing what was written -----

  lemma ParseFull(groups: seq<string>)
    requires AllGroups(groups) && |groups| == 8
    ensures ParseGroups(Join(groups, ':')) == Some(Values(groups))
  {
    var s := Join(groups, ':');
    JoinedGroups(groups);
    NoDouble(s);
    PartsOfJoin(groups);
    assert SplitDouble(s) == [s];
    assert groups + Zeros(0) + [] == groups;
  }

  lemma SplitOnce(a: string, b: string)
    requires Single(a) && Single(b)
    ensures SplitDouble(a + "::" + b) == [a, b]
  {
    var s := a + "::" + b;
    FirstDouble(a, b);
    NoDouble(b);
    assert s[..|a|] == a && s[|a| + 2..] == b;
    assert SplitDouble(b) == [b];
  }

  lemma FilledGroups(left: seq<string>, right: seq<string>)
    requires AllGroups(left) && AllGroups(right) && |left| + |right| <= 7
    ensures AllGroups(left + Zeros(8 - |left| - |right|) + right)
  {
    assert HexText("0");
    var raw := left + Zeros(8 - |left| - |right|) + right;
    forall i | 0 <= i < |raw| ensures GroupText(raw[i]) {
      if i < |left| { assert raw[i] == left[i]; }
      else if i < 8 - |right| { assert raw[i] == "0"; }
      else { assert raw[i] == right[i - (8 - |right|)]; }
    }
  }

  lemma ParseElided(left: seq<string>, right: seq<string>)
    requires AllGroups(left) && AllGroups(right) && |left| + |right| <= 7
    ensures AllGroups(left + Zeros(8 - |left| - |right|) + right)
    ensures ParseGroups(Join(left, ':') + "::" + Join(right, ':'))
            == Some(Values(left + Zeros(8 - |left| - |right|) + right))
  {
    var a, b := Join(left, ':'), Join(right, ':');
    JoinedGroups(left);
    JoinedGroups(right);
    SplitOnce(a, b);
    PartsOfJoin(left);
    PartsOfJoin(right);
    FilledGroups(left, right);
    assert Fill(left, right, true) == Some(Values(left + Zeros(8 - |left| - |right|) + right));
  }

  lemma {:induction false} LastColonAt(head: string, tail: string)
    requires !Has(tail, ':')
    ensures LastColon(head + ":" + tail) == |head|
  {
    var s := head + ":" + tail;
    if tail == "" {
      assert s[|s| - 1] == ':';
    } else {
      assert s[|s| - 1] == tail[|tail| - 1];
      assert s[..|s| - 1] == head + ":" + tail[..|tail| - 1];
      LastColonAt(head, tail[..|tail| - 1]);
    }
  }

  lemma QuadText(octets: seq<string>)
    requires Octets(octets)
    ensures var q := Join(octets, '.');
            !Has(q, ':') && !Has(q, '%') && DottedQuad(q) == Some(octets)
  {
    forall i | 0 <= i < 4 ensures !Has(octets[i], '.') { assert DigitText(octets[i]); }
    SplitJoin(octets, '.');
    QuadChars(octets);
  }

  lemma {:induction false} QuadChars(parts: seq<string>)
    requires forall i | 0 <= i < |parts| :: DigitText(parts[i])
    ensures forall i | 0 <= i < |Join(parts, '.')| :: Digit(Join(parts, '.')[i]) || Join(parts, '.')[i] == '.'
  {
    if |parts| == 1 {
      assert DigitText(parts[0]);
    } else if |parts| > 1 {
      assert DigitText(parts[0]);
      QuadChars(parts[1..]);
      var rest := Join(parts[1..], '.');
      var s := parts[0] + "." + rest;
      assert forall i | 0 <= i < |parts[0]| :: s[i] == parts[0][i];
      assert forall i | 0 <= i < |rest| :: s[|parts[0]| + 1 + i] == rest[i];
    }
  }

  /** A text of hexadecimal digits and colons has no quad to rewrite. */
  lemma HexUnmapped(s: string)
    requires HexOrColon(s)
    ensures Expand(s) == Unmapped && StripZone(s) == s
  {
    IndexNone(s, '%');
    var i := LastColon(s);
    if i >= 0 {
      var tail := s[i + 1..];
      assert forall j | 0 <= j < |tail| :: tail[j] == s[i + 1 + j];
      IndexNone(tail, '.');
      assert Split(tail, '.') == [tail];
    }
  }

  /** A head that ends in a colon, and a quad. */
  lemma QuadExpanded(head: string, octets: seq<string>)
    requires HexOrColon(head) && Octets(octets)
    ensures var s := head + ":" + Join(octets, '.');
            StripZone(s) == s
            && Expand(s) == Expanded(head + ":" + QuadGroups(octets)[0] + ":" + QuadGroups(octets)[1])
  {
    var q := Join(octets, '.');
    var s := head + ":" + q;
    QuadText(octets);
    LastColonAt(head, q);
    assert s[|head| + 1..] == q && s[..|head| + 1] == head + ":";
    QuadZone(head, octets);
  }

  lemma QuadZone(head: string, octets: seq<string>)
    requires HexOrColon(head) && Octets(octets)
    ensures StripZone(head + ":" + Join(octets, '.')) == head + ":" + Join(octets, '.')
  {
    var q := Join(octets, '.');
    var s := head + ":" + q;
    QuadText(octets);
    forall i | 0 <= i < |s| ensures s[i] != '%' {
      if i > |head| { assert s[i] == q[i - |head| - 1]; }
    }
    IndexNone(s, '%');
  }

  lemma EndingGroups(groups: seq<string>, octets: seq<string>)
    requires Octets(octets)
    ensures groups != [] ==>
              Join(groups + QuadGroups(octets), ':') == Join(groups, ':') + ":" + QuadGroups(octets)[0] + ":" + QuadGroups(octets)[1]
    ensures Join(QuadGroups(octets), ':') == QuadGroups(octets)[0] + ":" + QuadGroups(octets)[1]
  {
    if groups != [] { JoinAppend(groups, QuadGroups(octets), ':'); }
  }

  lemma InversePlain(sp: Spelling)
    requires WellFormed(sp) && sp.quad.None?
    ensures Hextets(Written(sp)) == Some(Address(sp))
  {
    WrittenPlain(sp);
    HexHextets(Written(sp));
    PlainAddress(sp);
    if sp.elided { ParseElided(sp.left, sp.right); } else { ParseFull(sp.left); }
  }

  lemma HexHextets(s: string)
    requires HexOrColon(s)
    ensures Hextets(s) == ParseGroups(s)
  {
    HexUnmapped(s);
  }

  lemma PlainAddress(sp: Spelling)
    requires WellFormed(sp) && sp.quad.None?
    ensures sp.elided ==> AllGroups(sp.left + Zeros(8 - |sp.left| - |sp.right|) + sp.right)
    ensures Address(sp) == if sp.elided then Values(sp.left + Zeros(8 - |sp.left| - |sp.right|) + sp.right) else Values(sp.left)
  {
    GroupsOfQuad(sp);
  }

  lemma WrittenPlain(sp: Spelling)
    requires WellFormed(sp) && sp.quad.None?
    ensures HexOrColon(Written(sp))
    ensures Written(sp) == if sp.elided then Join(sp.left, ':') + "::" + Join(sp.right, ':') else Join(sp.left, ':')
  {
    JoinedGroups(sp.left);
    JoinedGroups(sp.right);
  }

  lemma InverseFullQuad(sp: Spelling)
    requires WellFormed(sp) && sp.quad.Some? && !sp.elided
    ensures Hextets(Written(sp)) == Some(Address(sp))
  {
    var octets := sp.quad.value;
    GroupsOfQuad(sp);
    JoinedGroups(sp.left);
    QuadExpanded(Join(sp.left, ':'), octets);
    EndingGroups(sp.left, octets);
    ParseFull(sp.left + QuadGroups(octets));
  }

  lemma RegroupDouble(a: string, b: string)
    ensures a + ":" + ":" + b == a + "::" + b
  {
  }

  lemma RegroupTail(a: string, b: string, c: string)
    ensures a + "::" + b + ":" + c == a + "::" + (b + ":" + c)
  {
  }

  lemma RegroupTails(a: string, b: string, c: string, d: string)
    ensures a + "::" + b + ":" + c + ":" + d == a + "::" + (b + ":" + c + ":" + d)
  {
    RegroupTail(a, b, c);
    var tail := b + ":" + c;
    RegroupTail(a, tail, d);
  }

  /** The elided zeros come right before the quad. */
  lemma InverseElidedQuad(sp: Spelling)
    requires WellFormed(sp) && sp.quad.Some? && sp.elided && sp.right == []
    ensures Hextets(Written(sp)) == Some(Address(sp))
  {
    var octets := sp.quad.value;
    assert EndGroups([], sp.quad) == QuadGroups(octets);
    assert Written(sp) == Join(sp.left, ':') + "::" + Join(octets, '.');
    GroupsOfQuad(sp);
    JoinedGroups(sp.left);
    ElidedQuadGroups(Join(sp.left, ':'), octets);
    ParseElided(sp.left, QuadGroups(octets));
  }

  /** The quad is read as its two groups. */
  lemma ElidedQuadGroups(a: string, octets: seq<string>)
    requires HexOrColon(a) && Octets(octets)
    ensures Hextets(a + "::" + Join(octets, '.')) == ParseGroups(a + "::" + Join(QuadGroups(octets), ':'))
  {
    var h := QuadGroups(octets);
    QuadExpanded(a + ":", octets);
    EndingGroups([], octets);
    RegroupDouble(a, Join(octets, '.'));
    RegroupPair(a, h[0], h[1]);
  }

  lemma RegroupPair(a: string, b: string, c: string)
    ensures a + ":" + ":" + b + ":" + c == a + "::" + (b + ":" + c)
  {
  }

  /** Groups stand between the elided zeros and the quad. */
  lemma InverseGroupsQuad(sp: Spelling)
    requires WellFormed(sp) && sp.quad.Some? && sp.elided && sp.right != []
    ensures Hextets(Written(sp)) == Some(Address(sp))
  {
    var octets := sp.quad.value;
    var a, b, h, q := Join(sp.left, ':'), Join(sp.right, ':'), QuadGroups(octets), Join(octets, '.');
    GroupsOfQuad(sp);
    JoinedGroups(sp.left);
    JoinedGroups(sp.right);
    RegroupTail(a, b, q);
    QuadExpanded(a + "::" + b, octets);
    EndingGroups(sp.right, octets);
    RegroupTails(a, b, h[0], h[1]);
    ParseElided(sp.left, sp.right + h);
  }

  /** Whatever form of section 2.2 of RFC 4291 an address is written in, the parser finds it. */
  lemma ParserInvertsEverySpelling(sp: Spelling)
    requires WellFormed(sp)
    ensures Hextets(Written(sp)) == Some(Address(sp))
  {
    if sp.quad.None? { InversePlain(sp); }
    else if !sp.elided { InverseFullQuad(sp); }
    else if sp.right == [] { InverseElidedQuad(sp); }
    else { InverseGroupsQuad(sp); }
  }

  /** A "::" that stands for no group is refused, and so is any other number of groups than eight
      without one. */
  lemma WrongCountRefused(left: seq<string>, right: seq<string>)
    requires AllGroups(left) && AllGroups(right)
    ensures |left| + |right| >= 8 ==> Hextets(Join(left, ':') + "::" + Join(right, ':')) == None
    ensures |left| != 8 ==> Hextets(Join(left, ':')) == None
  {
    var a, b := Join(left, ':'), Join(right, ':');
    JoinedGroups(left);
    JoinedGroups(right);
    HexHextets(a);
    PartsOfJoin(left);
    PartsOfJoin(right);
    HexHextets(a + "::" + b);
    SplitOnce(a, b);
    NoDouble(a);
    assert SplitDouble(a) == [a];
  }
}
