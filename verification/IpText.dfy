/** Splitting, joining and numerals, as src/client-ip.ts uses them. */
module IpText {

  predicate Has(s: string, c: char) {
    exists i | 0 <= i < |s| :: s[i] == c
  }

  function Join(parts: seq<string>, sep: char): string {
    if parts == [] then ""
    else if |parts| == 1 then parts[0]
    else parts[0] + [sep] + Join(parts[1..], sep)
  }

  /** Where the character first is, or the length. */
  function IndexOf(s: string, c: char): (i: nat)
    ensures i <= |s| && (i < |s| ==> s[i] == c)
    ensures forall j | 0 <= j < i :: s[j] != c
  {
    if s == "" || s[0] == c then 0 else 1 + IndexOf(s[1..], c)
  }

  /** String.prototype.split on one character: never empty. */
  function Split(s: string, sep: char): (parts: seq<string>)
    ensures parts != []
    decreases |s|
  {
    var i := IndexOf(s, sep);
    if i == |s| then [s] else [s[..i]] + Split(s[i + 1..], sep)
  }

  lemma IndexExactly(head: string, c: char, tail: string)
    requires !Has(head, c)
    ensures IndexOf(head + [c] + tail, c) == |head|
  {
    var s := head + [c] + tail;
    assert s[|head|] == c;
    assert forall j | 0 <= j < |head| :: s[j] == head[j] != c;
  }

  lemma IndexNone(s: string, c: char)
    requires !Has(s, c)
    ensures IndexOf(s, c) == |s|
  {
    assert forall j | 0 <= j < |s| :: s[j] != c;
  }

  /** Splitting undoes joining. */
  lemma {:induction false} SplitJoin(parts: seq<string>, sep: char)
    requires parts != [] && forall i | 0 <= i < |parts| :: !Has(parts[i], sep)
    ensures Split(Join(parts, sep), sep) == parts
    decreases |parts|
  {
    if |parts| == 1 {
      IndexNone(parts[0], sep);
    } else {
      SplitFirst(parts[0], sep, Join(parts[1..], sep));
      SplitJoin(parts[1..], sep);
      assert parts == [parts[0]] + parts[1..];
    }
  }

  lemma SplitFirst(first: string, sep: char, rest: string)
    requires !Has(first, sep)
    ensures Split(first + [sep] + rest, sep) == [first] + Split(rest, sep)
  {
    var s := first + [sep] + rest;
    IndexExactly(first, sep, rest);
    assert s[..|first|] == first && s[|first| + 1..] == rest;
  }

  lemma JoinFirst(first: string, rest: seq<string>, sep: char)
    requires rest != []
    ensures Join([first] + rest, sep) == first + [sep] + Join(rest, sep)
  {
    assert ([first] + rest)[1..] == rest;
  }

  /** Joining undoes splitting. */
  lemma {:induction false} JoinSplit(s: string, sep: char)
    ensures Join(Split(s, sep), sep) == s
    decreases |s|
  {
    var i := IndexOf(s, sep);
    if i < |s| {
      var rest := Split(s[i + 1..], sep);
      JoinSplit(s[i + 1..], sep);
      JoinFirst(s[..i], rest, sep);
      assert Split(s, sep) == [s[..i]] + rest;
      assert s == s[..i] + [sep] + s[i + 1..];
    }
  }

  // ----- Numerals -----

  predicate Digit(c: char) {
    '0' <= c <= '9'
  }

  predicate HexDigit(c: char) {
    Digit(c) || 'a' <= c <= 'f' || 'A' <= c <= 'F'
  }

  function HexDigitValue(c: char): (n: nat)
    requires HexDigit(c)
    ensures n < 16
  {
    if Digit(c) then (c - '0') as int
    else if 'a' <= c then 10 + (c - 'a') as int
    else 10 + (c - 'A') as int
  }

  predicate AllHex(s: string) {
    forall i | 0 <= i < |s| :: HexDigit(s[i])
  }

  predicate HexText(s: string) {
    s != "" && AllHex(s)
  }

  /** parseInt(s, 16). */
  function HexValue(s: string): nat
    requires AllHex(s)
  {
    if s == "" then 0 else 16 * HexValue(s[..|s| - 1]) + HexDigitValue(s[|s| - 1])
  }

  predicate DigitText(s: string) {
    s != "" && forall i | 0 <= i < |s| :: Digit(s[i])
  }

  function DigitValue(c: char): (n: nat)
    requires Digit(c)
    ensures n < 10
  {
    (c - '0') as int
  }

  /** Number(s), for digits. */
  function DecValue(s: string): nat
    requires forall i | 0 <= i < |s| :: Digit(s[i])
  {
    if s == "" then 0 else 10 * DecValue(s[..|s| - 1]) + DigitValue(s[|s| - 1])
  }

  function HexChar(d: nat): (c: char)
    requires d < 16
    ensures HexDigit(c) && HexDigitValue(c) == d
  {
    if d < 10 then '0' + d as char else 'a' + (d - 10) as char
  }

  /** toString(16): lower case, no leading zeros. */
  function ToHex(n: nat): (s: string)
    ensures HexText(s) && HexValue(s) == n
    ensures n < 0x10000 ==> |s| <= 4
  {
    ToHexBounds(n);
    ToHexDigits(n)
  }

  function ToHexDigits(n: nat): (s: string)
    ensures HexText(s) && HexValue(s) == n
  {
    if n < 16 then [HexChar(n)] else ToHexDigits(n / 16) + [HexChar(n % 16)]
  }

  lemma ToHexBounds(n: nat)
    ensures n < 0x10000 ==> |ToHexDigits(n)| <= 4
  {
    if n < 0x10000 {
      var a := n / 16;
      var b := a / 16;
      var c := b / 16;
      assert c < 16 && |ToHexDigits(c)| == 1;
      assert |ToHexDigits(b)| <= 2;
      assert |ToHexDigits(a)| <= 3;
    }
  }

  function DecChar(d: nat): (c: char)
    requires d < 10
    ensures Digit(c) && DigitValue(c) == d
  {
    '0' + d as char
  }

  /** A number in decimal. */
  function ToDec(n: nat): (s: string)
    ensures DigitText(s) && DecValue(s) == n
  {
    if n < 10 then [DecChar(n)] else ToDec(n / 10) + [DecChar(n % 10)]
  }

  lemma {:induction false} JoinInjective(a: seq<string>, b: seq<string>, sep: char)
    requires a != [] && b != []
    requires forall i | 0 <= i < |a| :: !Has(a[i], sep)
    requires forall i | 0 <= i < |b| :: !Has(b[i], sep)
    requires Join(a, sep) == Join(b, sep)
    ensures a == b
  {
    SplitJoin(a, sep);
    SplitJoin(b, sep);
  }
}
