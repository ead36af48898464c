/** What a rate-limit prefix looks like (src/client-ip.ts, lines 5-50): the numbers of its network in
    their shortest form, and itself the text of an address of that network. */
module PrefixText {
  import opened Optional
  import opened IpText
  import opened ClientIp
  import opened IpPrefix

  /** The decimal text of the number, without leading zeros. */
  predicate Decimal(s: string, n: nat) {
    DigitText(s) && DecValue(s) == n && (|s| > 1 ==> s[0] != '0')
  }

  /** The hexadecimal text of the number, in lower case and without leading zeros. */
  predicate Hexadecimal(s: string, n: nat) {
    && HexText(s) && HexValue(s) == n && (|s| > 1 ==> s[0] != '0')
    && forall i | 0 <= i < |s| :: !('A' <= s[i] <= 'F')
  }

  lemma {:induction false} DecPlain(n: nat)
    ensures Decimal(ToDec(n), n)
    ensures ToDec(n)[0] == '0' ==> n == 0
  {
    if n >= 10 {
      DecPlain(n / 10);
      assert ToDec(n) == ToDec(n / 10) + [DecChar(n % 10)];
    }
  }

  lemma {:induction false} HexPlain(n: nat)
    ensures Hexadecimal(ToHex(n), n) && ToHex(n) == ToHexDigits(n)
    ensures ToHex(n)[0] == '0' ==> n == 0
  {
    if n >= 16 {
      HexPlain(n / 16);
      assert ToHexDigits(n) == ToHexDigits(n / 16) + [HexChar(n % 16)];
    }
  }

  /** The prefix, character by character. */
  lemma PrefixReads(n: Network) returns (p: seq<string>)
    requires Sized(n)
    ensures match n
            case First24(a, b, c) =>
              |p| == 3 && Decimal(p[0], a) && Decimal(p[1], b) && Decimal(p[2], c)
              && Printed(n) == p[0] + "." + p[1] + "." + p[2] + ".0/24"
            case First64(g) =>
              |p| == 4 && (forall i | 0 <= i < 4 :: Hexadecimal(p[i], g[i]))
              && Printed(n) == p[0] + ":" + p[1] + ":" + p[2] + ":" + p[3] + "::/64"
  {
    match n
    case First24(a, b, c) =>
      p := [ToDec(a), ToDec(b), ToDec(c)];
      DecPlain(a);
      DecPlain(b);
      DecPlain(c);
      JoinThree(p, '.');
    case First64(g) =>
      p := HexTexts(g);
      forall i | 0 <= i < 4 ensures Hexadecimal(p[i], g[i]) { HexPlain(g[i]); }
      JoinFour(p, ':');
  }

  lemma JoinThree(p: seq<string>, sep: char)
    requires |p| == 3
    ensures Join(p, sep) == p[0] + [sep] + p[1] + [sep] + p[2]
  {
    var rest := p[1..];
    assert rest[1..] == [p[2]];
    assert Join(rest, sep) == rest[0] + [sep] + Join(rest[1..], sep);
  }

  lemma JoinFour(p: seq<string>, sep: char)
    requires |p| == 4
    ensures Join(p, sep) == p[0] + [sep] + p[1] + [sep] + p[2] + [sep] + p[3]
  {
    JoinThree(p[1..], sep);
  }

  /** The numbers are octets or groups. */
  predicate InRange(n: Network) {
    match n
    case First24(a, b, c) => a <= 255 && b <= 255 && c <= 255
    case First64(g) => |g| == 4 && forall i | 0 <= i < 4 :: g[i] < 0x10000
  }

  /** The first address of the network. */
  function FirstOf(n: Network): Ip {
    match n
    case First24(a, b, c) => V4([a, b, c, 0])
    case First64(g) => V6(g + [0, 0, 0, 0])
  }

  lemma OfItsNetwork(n: Network)
    requires InRange(n)
    ensures NetworkOf(FirstOf(n)) == n
  {
    if n.First64? {
      var groups := n.groups + [0, 0, 0, 0];
      assert groups[..4] == n.groups && groups[5] == 0;
    }
  }

  /** Without its length the prefix is the text of the network's first address, and so has itself as
      its prefix. */
  lemma PrefixOfItself(n: Network) returns (w: string)
    requires InRange(n)
    ensures Printed(n) == w + if n.First24? then "/24" else "/64"
    ensures Names(w, FirstOf(n)) && Normalize(w) == Some(Printed(n))
  {
    w := FirstText(n);
    OfItsNetwork(n);
    PrefixOfNetwork(w, FirstOf(n));
  }

  lemma FirstText(n: Network) returns (w: string)
    requires InRange(n)
    ensures Printed(n) == w + if n.First24? then "/24" else "/64"
    ensures StripZone(w) == w && Names(w, FirstOf(n))
  {
    match n
    case First24(a, b, c) => w := FirstV4(a, b, c);
    case First64(g) => w := FirstV6(g);
  }

  lemma FirstV4(a: nat, b: nat, c: nat) returns (w: string)
    requires a <= 255 && b <= 255 && c <= 255
    ensures V4Text(a, b, c) == w + "/24" && Names(w, V4([a, b, c, 0])) && StripZone(w) == w
  {
    var octets := [ToDec(a), ToDec(b), ToDec(c), "0"];
    w := Join(octets, '.');
    assert ToDec(0) == "0";
    forall i | 0 <= i < 4 ensures PlainOctet(octets[i]) {}
    assert WrittenV4(w, octets);
    assert OctetValues(octets) == [a, b, c, 0];
    JoinFour(octets, '.');
    JoinThree([ToDec(a), ToDec(b), ToDec(c)], '.');
    assert forall i | 0 <= i < |w| :: w[i] != '%';
  }

  lemma FirstV6(g: seq<nat>) returns (w: string)
    requires |g| == 4 && forall i | 0 <= i < 4 :: g[i] < 0x10000
    ensures V6Text(g) == w + "/64" && Names(w, V6(g + [0, 0, 0, 0])) && StripZone(w) == w
  {
    var sp := Spelling(HexTexts(g), true, [], None);
    w := Written(sp);
    assert WrittenV6(w, sp);
    assert Address(sp) == g + [0, 0, 0, 0];
    JoinFour(HexTexts(g), ':');
    assert forall i | 0 <= i < |w| :: w[i] != '%';
  }
}
