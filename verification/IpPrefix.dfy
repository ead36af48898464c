/** normalizeIpPrefix (src/client-ip.ts, lines 5-50): which addresses share a rate-limit prefix. */
module IpPrefix {
  import opened ClientIp
  import opened IpText
  import opened Optional

  // ----- What node:net's isIP accepts -----

  /** A decimal octet without leading zeros. */
  predicate PlainOctet(s: string) {
    DigitText(s) && DecValue(s) <= 255 && s == ToDec(DecValue(s))
  }

  predicate PlainQuad(octets: seq<string>) {
    |octets| == 4 && forall i | 0 <= i < 4 :: PlainOctet(octets[i])
  }

  predicate WrittenV4(w: string, octets: seq<string>) {
    PlainQuad(octets) && w == Join(octets, '.')
  }

  predicate WrittenV6(w: string, sp: Spelling) {
    WellFormed(sp) && (sp.quad.Some? ==> PlainQuad(sp.quad.value)) && w == Written(sp)
  }

  /** isIP(w) === 4. */
  ghost predicate IsV4(w: string) {
    exists octets :: WrittenV4(w, octets)
  }

  /** isIP(w) === 6. */
  ghost predicate IsV6(w: string) {
    exists sp :: WrittenV6(w, sp)
  }

  // ----- normalizeIpPrefix -----

  function V4Text(a: nat, b: nat, c: nat): string {
    Join([ToDec(a), ToDec(b), ToDec(c)], '.') + ".0/24"
  }

  /** ipv4Prefix. */
  function V4Prefix(s: string): Option<string> {
    var octets := Split(s, '.');
    if Octets(octets) then Some(V4Text(DecValue(octets[0]), DecValue(octets[1]), DecValue(octets[2]))) else None
  }

  predicate IsF(c: char) {
    c == 'f' || c == 'F'
  }

  /** The text after "::ffff:" in any case, if four runs of digits follow it. */
  function MappedQuad(w: string): Option<seq<string>> {
    if |w| >= 7 && w[0] == ':' && w[1] == ':' && IsF(w[2]) && IsF(w[3]) && IsF(w[4]) && IsF(w[5]) && w[6] == ':'
    then DottedQuad(w[7..])
    else None
  }

  predicate Mapped(groups: seq<nat>)
    requires |groups| == 8
  {
    groups[0] == groups[1] == groups[2] == groups[3] == groups[4] == 0 && groups[5] == 0xffff
  }

  function LowOctets(groups: seq<nat>): seq<string>
    requires |groups| == 8
  {
    [ToDec(groups[6] / 256), ToDec(groups[6] % 256), ToDec(groups[7] / 256), ToDec(groups[7] % 256)]
  }

  function HexTexts(g: seq<nat>): (p: seq<string>)
    requires |g| == 4
    ensures |p| == 4 && forall i | 0 <= i < 4 :: p[i] == ToHex(g[i])
  {
    [ToHex(g[0]), ToHex(g[1]), ToHex(g[2]), ToHex(g[3])]
  }

  function V6Text(groups: seq<nat>): string
    requires |groups| == 4
  {
    Join(HexTexts(groups), ':') + "::/64"
  }

  ghost function Normalize(value: string): Option<string> {
    var w := StripZone(value);
    if value == "" then None
    else if IsV4(w) then V4Prefix(w)
    else if !IsV6(w) then None
    else if MappedQuad(w).Some? then V4Prefix(w[7..])
    else
      match Hextets(w)
      case None => None
      case Some(groups) =>
        if |groups| != 8 then None
        else if Mapped(groups) then V4Prefix(Join(LowOctets(groups), '.'))
        else Some(V6Text(groups[..4]))
  }

  // ----- Addresses and networks -----

  datatype Ip = V4(octets: seq<nat>) | V6(groups: seq<nat>)

  datatype Network = First24(a: nat, b: nat, c: nat) | First64(groups: seq<nat>)

  function OctetValues(octets: seq<string>): (v: seq<nat>)
    requires PlainQuad(octets)
    ensures |v| == 4
  {
    [DecValue(octets[0]), DecValue(octets[1]), DecValue(octets[2]), DecValue(octets[3])]
  }

  /** The text, without a zone, is that of the address. */
  ghost predicate Names(w: string, ip: Ip) {
    match ip
    case V4(octets) => exists o :: WrittenV4(w, o) && octets == OctetValues(o)
    case V6(groups) => exists sp :: WrittenV6(w, sp) && groups == Address(sp)
  }

  /** The network that is limited as one: 24 bits of an IPv4 address, mapped or not, and 64 bits of any other. */
  function NetworkOf(ip: Ip): Network
    requires if ip.V4? then |ip.octets| == 4 else |ip.groups| == 8
  {
    match ip
    case V4(octets) => First24(octets[0], octets[1], octets[2])
    case V6(groups) =>
      if Mapped(groups) then First24(groups[6] / 256, groups[6] % 256, groups[7] / 256) else First64(groups[..4])
  }

  predicate Sized(n: Network) {
    n.First64? ==> |n.groups| == 4
  }

  function Printed(n: Network): string
    requires Sized(n)
  {
    match n
    case First24(a, b, c) => V4Text(a, b, c)
    case First64(groups) => V6Text(groups)
  }

  // ----- Printing -----

  lemma DecimalsApart(s: string)
    requires DigitText(s)
    ensures !Has(s, '.') && !Has(s, ':')
  {
  }

  lemma HexApart(s: string)
    requires HexText(s)
    ensures !Has(s, ':')
  {
  }

  lemma V4TextInjective(a: nat, b: nat, c: nat, x: nat, y: nat, z: nat)
    requires V4Text(a, b, c) == V4Text(x, y, z)
    ensures a == x && b == y && c == z
  {
    var p, q := [ToDec(a), ToDec(b), ToDec(c)], [ToDec(x), ToDec(y), ToDec(z)];
    SameHead(Join(p, '.'), Join(q, '.'), ".0/24");
    forall n: nat ensures !Has(ToDec(n), '.') { DecimalsApart(ToDec(n)); }
    JoinInjective(p, q, '.');
    assert ToDec(a) == p[0] == q[0] == ToDec(x);
    assert ToDec(b) == p[1] == q[1] == ToDec(y);
    assert ToDec(c) == p[2] == q[2] == ToDec(z);
  }

  lemma SameHead(a: string, b: string, end: string)
    requires a + end == b + end
    ensures a == b
  {
    assert a == (a + end)[..|a + end| - |end|];
    assert b == (b + end)[..|b + end| - |end|];
  }

  lemma HexTextsApart(g: seq<nat>)
    requires |g| == 4
    ensures forall i | 0 <= i < 4 :: !Has(HexTexts(g)[i], ':')
  {
    forall i | 0 <= i < 4 ensures !Has(HexTexts(g)[i], ':') { HexApart(ToHex(g[i])); }
  }

  lemma V6TextInjective(g: seq<nat>, h: seq<nat>)
    requires |g| == 4 && |h| == 4 && V6Text(g) == V6Text(h)
    ensures g == h
  {
    HexTextsApart(g);
    HexTextsApart(h);
    SameHead(Join(HexTexts(g), ':'), Join(HexTexts(h), ':'), "::/64");
    JoinInjective(HexTexts(g), HexTexts(h), ':');
    forall i | 0 <= i < 4 ensures g[i] == h[i] { assert HexTexts(g)[i] == HexTexts(h)[i]; }
  }

  /** Different networks have different texts. */
  lemma PrintedInjective(m: Network, n: Network)
    requires Sized(m) && Sized(n) && Printed(m) == Printed(n)
    ensures m == n
  {
    var s, t := Printed(m), Printed(n);
    assert s[|s| - 2] == if m.First24? then '2' else '6';
    assert t[|t| - 2] == if n.First24? then '2' else '6';
    match (m, n)
    case (First24(a, b, c), First24(x, y, z)) => V4TextInjective(a, b, c, x, y, z);
    case (First64(g), First64(h)) => V6TextInjective(g, h);
    case _ =>
  }

  // ----- Reading -----

  lemma V4PrefixReads(octets: seq<string>)
    requires Octets(octets)
    ensures V4Prefix(Join(octets, '.')) == Some(V4Text(DecValue(octets[0]), DecValue(octets[1]), DecValue(octets[2])))
  {
    forall i | 0 <= i < 4 ensures !Has(octets[i], '.') { DecimalsApart(octets[i]); }
    SplitJoin(octets, '.');
  }

  /** A quad and a spelling are never the same text. */
  lemma FamiliesApart(octets: seq<string>, sp: Spelling)
    requires Octets(octets) && WellFormed(sp)
    ensures Join(octets, '.') != Written(sp)
  {
    var q := Join(octets, '.');
    var w := Written(sp);
    QuadText(octets);
    if sp.elided {
      assert w[|Join(sp.left, ':')|] == ':';
    } else {
      assert w[|sp.left[0]|] == ':';
    }
  }

  lemma Ffff(s: string)
    requires |s| == 4 && forall i | 0 <= i < 4 :: IsF(s[i])
    ensures GroupText(s) && GroupValue(s) == 0xffff
  {
    assert HexValue(s[..0]) == 0;
    assert s[..1][..0] == s[..0] && HexValue(s[..1]) == 0xf;
    assert s[..2][..1] == s[..1] && HexValue(s[..2]) == 0xff;
    assert s[..3][..2] == s[..2] && HexValue(s[..3]) == 0xfff;
  }

  /** The dotted form of an IPv4-mapped address is one of its spellings. */
  function MappedForm(w: string, parts: seq<string>): Spelling
    requires |w| >= 7
  {
    Spelling([], true, [w[2..6]], Some(parts))
  }

  lemma MappedFormReads(w: string)
    requires MappedQuad(w).Some? && Octets(MappedQuad(w).value)
    ensures var parts := MappedQuad(w).value;
            var sp := MappedForm(w, parts);
            WellFormed(sp) && Written(sp) == w && w[7..] == Join(parts, '.')
            && Address(sp) == [0, 0, 0, 0, 0, 0xffff, Pair(parts[0], parts[1]), Pair(parts[2], parts[3])]
  {
    var parts := MappedQuad(w).value;
    var sp := MappedForm(w, parts);
    JoinSplit(w[7..], '.');
    Ffff(w[2..6]);
    MappedText(w);
    assert Join(sp.left, ':') == "" && Join(sp.right, ':') == w[2..6];
    MappedAddress(sp);
  }

  lemma MappedText(w: string)
    requires MappedQuad(w).Some?
    ensures w == "" + "::" + (w[2..6] + ":" + w[7..])
  {
  }

  lemma MappedAddress(sp: Spelling)
    requires WellFormed(sp) && sp.left == [] && sp.elided && |sp.right| == 1 && GroupValue(sp.right[0]) == 0xffff && sp.quad.Some?
    ensures var parts := sp.quad.value;
            Address(sp) == [0, 0, 0, 0, 0, 0xffff, Pair(parts[0], parts[1]), Pair(parts[2], parts[3])]
  {
    var h := QuadGroups(sp.quad.value);
    GroupsOfQuad(sp);
    assert sp.right == [sp.right[0]];
    assert EndGroups(sp.right, sp.quad) == [sp.right[0], h[0], h[1]];
    MappedValues(sp.right[0], h[0], h[1]);
    assert [] + Zeros(5) == Zeros(5);
  }

  lemma MappedValues(a: string, b: string, c: string)
    requires GroupText(a) && GroupText(b) && GroupText(c)
    ensures AllGroups(Zeros(5) + [a, b, c])
    ensures Values(Zeros(5) + [a, b, c]) == [0, 0, 0, 0, 0, GroupValue(a), GroupValue(b), GroupValue(c)]
  {
    var raw := Zeros(5) + [a, b, c];
    assert GroupValue("0") == 0 && HexText("0");
    assert raw[0] == raw[1] == raw[2] == raw[3] == raw[4] == "0" && raw[5] == a && raw[6] == b && raw[7] == c;
  }

  lemma BadOctetsFail(w: string)
    requires MappedQuad(w).Some? && !Octets(MappedQuad(w).value) && StripZone(w) == w
    ensures Hextets(w).None?
  {
    var head, tail := w[..6], w[7..];
    QuadHasNoColon(tail);
    LastColonAt(head, tail);
    assert w == head + ":" + tail;
    assert w[|head| + 1..] == tail;
  }

  lemma QuadHasNoColon(s: string)
    requires DottedQuad(s).Some?
    ensures !Has(s, ':')
  {
    JoinSplit(s, '.');
    QuadChars(Split(s, '.'));
  }

  lemma WrittenPlain(sp: Spelling)
    requires WellFormed(sp)
    ensures StripZone(Written(sp)) == Written(sp)
  {
    JoinedGroups(sp.left);
    JoinedGroups(sp.right);
    if sp.quad.Some? { QuadText(sp.quad.value); }
    IndexNone(Written(sp), '%');
  }

  lemma MappedSpelling(w: string, sp: Spelling)
    requires WellFormed(sp) && w == Written(sp) && MappedQuad(w).Some?
    ensures var parts := MappedQuad(w).value;
            Octets(parts) && w[7..] == Join(parts, '.')
            && Address(sp) == [0, 0, 0, 0, 0, 0xffff, Pair(parts[0], parts[1]), Pair(parts[2], parts[3])]
  {
    ParserInvertsEverySpelling(sp);
    WrittenPlain(sp);
    var parts := MappedQuad(w).value;
    if !Octets(parts) { BadOctetsFail(w); }
    MappedFormReads(w);
    ParserInvertsEverySpelling(MappedForm(w, parts));
  }

  // ----- What a prefix stands for -----

  /** A text names at most one address. */
  lemma NamesOne(w: string, a: Ip, b: Ip)
    requires Names(w, a) && Names(w, b)
    ensures a == b
  {
    match (a, b)
    case (V4(x), V4(y)) =>
      var o :| WrittenV4(w, o) && x == OctetValues(o);
      var p :| WrittenV4(w, p) && y == OctetValues(p);
      forall i | 0 <= i < 4 ensures !Has(o[i], '.') && !Has(p[i], '.') {
        assert PlainOctet(o[i]) && PlainOctet(p[i]);
        DecimalsApart(o[i]);
        DecimalsApart(p[i]);
      }
      JoinInjective(o, p, '.');
    case (V6(x), V6(y)) =>
      var sp :| WrittenV6(w, sp) && x == Address(sp);
      var sq :| WrittenV6(w, sq) && y == Address(sq);
      ParserInvertsEverySpelling(sp);
      ParserInvertsEverySpelling(sq);
    case (V4(x), V6(y)) =>
      var o :| WrittenV4(w, o) && x == OctetValues(o);
      var sp :| WrittenV6(w, sp) && y == Address(sp);
      FamiliesApart(o, sp);
    case (V6(x), V4(y)) =>
      var sp :| WrittenV6(w, sp) && x == Address(sp);
      var o :| WrittenV4(w, o) && y == OctetValues(o);
      FamiliesApart(o, sp);
  }

  lemma NormalizeV4(value: string, octets: seq<string>)
    requires WrittenV4(StripZone(value), octets)
    ensures Normalize(value) == Some(Printed(NetworkOf(V4(OctetValues(octets)))))
  {
    assert PlainOctet(octets[0]) && PlainOctet(octets[1]) && PlainOctet(octets[2]) && PlainOctet(octets[3]);
    assert IsV4(StripZone(value));
    V4PrefixReads(octets);
    assert octets[0] != "";
  }

  lemma LowOctetsRead(groups: seq<nat>)
    requires |groups| == 8 && groups[6] < 0x10000 && groups[7] < 0x10000
    ensures V4Prefix(Join(LowOctets(groups), '.')) == Some(V4Text(groups[6] / 256, groups[6] % 256, groups[7] / 256))
  {
    V4PrefixReads(LowOctets(groups));
  }

  function Sixteens(n: nat): nat {
    if n == 0 then 1 else 16 * Sixteens(n - 1)
  }

  lemma {:induction false} HexBelow(s: string)
    requires AllHex(s)
    ensures HexValue(s) < Sixteens(|s|)
  {
    if s != "" { HexBelow(s[..|s| - 1]); }
  }

  lemma HexBound(s: string)
    requires GroupText(s)
    ensures GroupValue(s) < 0x10000
  {
    HexBelow(s);
    assert Sixteens(1) == 16 && Sixteens(2) == 0x100 && Sixteens(3) == 0x1000 && Sixteens(4) == 0x10000;
  }

  lemma AddressBound(sp: Spelling)
    requires WellFormed(sp)
    ensures forall i | 0 <= i < 8 :: Address(sp)[i] < 0x10000
  {
    GroupsOfQuad(sp);
    forall s | GroupText(s) ensures GroupValue(s) < 0x10000 { HexBound(s); }
  }

  lemma NormalizeHextets(value: string, groups: seq<nat>)
    requires value != "" && !IsV4(StripZone(value)) && IsV6(StripZone(value)) && MappedQuad(StripZone(value)).None?
    requires Hextets(StripZone(value)) == Some(groups) && |groups| == 8
    requires forall i | 0 <= i < 8 :: groups[i] < 0x10000
    ensures Normalize(value) == Some(Printed(NetworkOf(V6(groups))))
  {
    LowOctetsRead(groups);
  }

  lemma PairHalves(high: string, low: string)
    requires DigitText(high) && DigitText(low) && DecValue(low) <= 255
    ensures Pair(high, low) / 256 == DecValue(high) && Pair(high, low) % 256 == DecValue(low)
  {
  }

  lemma MappedNetwork(parts: seq<string>, groups: seq<nat>)
    requires Octets(parts)
    requires groups == [0, 0, 0, 0, 0, 0xffff, Pair(parts[0], parts[1]), Pair(parts[2], parts[3])]
    ensures NetworkOf(V6(groups)) == First24(DecValue(parts[0]), DecValue(parts[1]), DecValue(parts[2]))
  {
    PairHalves(parts[0], parts[1]);
    PairHalves(parts[2], parts[3]);
  }

  lemma NormalizeMapped(value: string, parts: seq<string>, groups: seq<nat>)
    requires value != "" && !IsV4(StripZone(value)) && IsV6(StripZone(value)) && MappedQuad(StripZone(value)).Some?
    requires Octets(parts) && StripZone(value)[7..] == Join(parts, '.')
    requires |groups| == 8 && NetworkOf(V6(groups)) == First24(DecValue(parts[0]), DecValue(parts[1]), DecValue(parts[2]))
    ensures Normalize(value) == Some(Printed(NetworkOf(V6(groups))))
  {
    V4PrefixReads(parts);
  }

  lemma V6Apart(w: string, sp: Spelling)
    requires WrittenV6(w, sp)
    ensures w != "" && !IsV4(w) && IsV6(w)
  {
    if IsV4(w) {
      var o :| WrittenV4(w, o);
      FamiliesApart(o, sp);
    }
    if sp.elided { assert w[|Join(sp.left, ':')|] == ':'; } else { assert w[|sp.left[0]|] == ':'; }
  }

  lemma NormalizeV6(value: string, sp: Spelling)
    requires WrittenV6(StripZone(value), sp)
    ensures Normalize(value) == Some(Printed(NetworkOf(V6(Address(sp)))))
  {
    var w := StripZone(value);
    var groups := Address(sp);
    V6Apart(w, sp);
    if MappedQuad(w).Some? {
      MappedSpelling(w, sp);
      MappedNetwork(MappedQuad(w).value, groups);
      NormalizeMapped(value, MappedQuad(w).value, groups);
    } else {
      ParserInvertsEverySpelling(sp);
      AddressBound(sp);
      NormalizeHextets(value, groups);
    }
  }

  /** The prefix of an accepted text, with or without a zone, is that of the network of its address. */
  lemma PrefixOfNetwork(value: string, ip: Ip)
    requires Names(StripZone(value), ip)
    ensures Normalize(value) == Some(Printed(NetworkOf(ip)))
  {
    var w := StripZone(value);
    match ip
    case V4(octets) =>
      var o :| WrittenV4(w, o) && octets == OctetValues(o);
      NormalizeV4(value, o);
    case V6(groups) =>
      var sp :| WrittenV6(w, sp) && groups == Address(sp);
      NormalizeV6(value, sp);
  }

  /** Two accepted addresses share a prefix exactly when they are of one network. */
  lemma SharePrefixExactly(value: string, ip: Ip, other: string, ip': Ip)
    requires Names(StripZone(value), ip) && Names(StripZone(other), ip')
    ensures Normalize(value) == Normalize(other) <==> NetworkOf(ip) == NetworkOf(ip')
  {
    PrefixOfNetwork(value, ip);
    PrefixOfNetwork(other, ip');
    if Normalize(value) == Normalize(other) { PrintedInjective(NetworkOf(ip), NetworkOf(ip')); }
  }

  /** Only text that names an address has a prefix. */
  lemma AcceptedExactly(value: string)
    ensures Normalize(value).Some? <==> exists ip :: Names(StripZone(value), ip)
  {
    var w := StripZone(value);
    if IsV4(w) {
      var o :| WrittenV4(w, o);
      assert Names(w, V4(OctetValues(o)));
      NormalizeV4(value, o);
    } else if IsV6(w) {
      var sp :| WrittenV6(w, sp);
      assert Names(w, V6(Address(sp)));
      NormalizeV6(value, sp);
    } else {
      assert Normalize(value).None?;
      forall ip ensures !Names(w, ip) {}
    }
  }
}
