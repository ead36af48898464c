/** canonicalJson (src/convites.ts, lines 227-243): the text that is hashed to recognize a
    repeated request. Two requests have the same text exactly when they are equal once keys are
    sorted and undefined members dropped. */
module CanonicalJson {
  import opened Optional
  import opened Sequences
  import opened Sorting
  import opened JsonText

  predicate NumeralUnit(u: Unit) {
    48 <= u < 58 || u == 45 || u == 43 || u == 46 || u == 101 || u == 69
  }

  predicate IsNumeral(t: Text) {
    && t != [] && (48 <= t[0] < 58 || t[0] == 45)
    && forall i | 0 <= i < |t| :: NumeralUnit(t[i])
  }

  // A number, by the text JSON.stringify gives it.
  type Numeral = t: Text | IsNumeral(t) witness [48]

  /** A value of the request body. A parsed body holds no function or symbol, for which the source
      throws where it drops an undefined member. */
  datatype Value =
    | Undefined
    | Null
    | Boolean(value: bool)
    | Number(numeral: Numeral)
    | String(text: Text)
    | Array(items: seq<Value>)
    | Object(members: seq<Member>)

  datatype Member = Member(key: Text, value: Value)

  const NULL: Text := [110, 117, 108, 108]
  const TRUE: Text := [116, 114, 117, 101]
  const FALSE: Text := [102, 97, 108, 115, 101]
  const OPEN_ARRAY: Unit := 91
  const CLOSE_ARRAY: Unit := 93
  const OPEN_OBJECT: Unit := 123
  const CLOSE_OBJECT: Unit := 125

  // ----- Sizes, for recursion through sorted members -----

  function Size(v: Value): nat
    decreases v, 0
  {
    match v
    case Array(items) => 1 + ItemsSize(items)
    case Object(members) => 1 + MembersSize(members)
    case _ => 1
  }

  function ItemsSize(items: seq<Value>): nat
    decreases items, 0
  {
    if items == [] then 0 else Size(items[0]) + ItemsSize(items[1..])
  }

  function MembersSize(members: seq<Member>): nat
    decreases members, 0
  {
    if members == [] then 0 else Size(members[0].value) + MembersSize(members[1..])
  }

  lemma {:induction false} SizesAppend(a: seq<Member>, m: Member)
    ensures MembersSize(a + [m]) == MembersSize(a) + Size(m.value)
  {
    if a == [] {
      assert a + [m] == [m];
    } else {
      SizesAppend(a[1..], m);
      assert (a + [m])[1..] == a[1..] + [m];
    }
  }

  lemma SizesLast(a: seq<Member>)
    requires a != []
    ensures MembersSize(a) == MembersSize(a[..|a| - 1]) + Size(a[|a| - 1].value)
  {
    SizesAppend(a[..|a| - 1], a[|a| - 1]);
    assert a == a[..|a| - 1] + [a[|a| - 1]];
  }

  // ----- Sorting the members -----

  predicate KeyOrder(a: Member, b: Member) {
    AtMost(a.key, b.key)
  }

  function Defined(): Member -> bool {
    (m: Member) => !m.value.Undefined?
  }

  lemma {:induction false} InsertSize(s: seq<Member>, x: Member)
    ensures MembersSize(Insert(s, x, KeyOrder)) == MembersSize(s) + Size(x.value)
  {
    SizesAppend(s, x);
    if s != [] && !KeyOrder(s[|s| - 1], x) {
      InsertSize(s[..|s| - 1], x);
      SizesLast(s);
      SizesAppend(Insert(s[..|s| - 1], x, KeyOrder), s[|s| - 1]);
    }
  }

  lemma {:induction false} SortSize(s: seq<Member>)
    ensures MembersSize(StableSort(s, KeyOrder)) == MembersSize(s)
  {
    if s != [] {
      SortSize(s[..|s| - 1]);
      InsertSize(StableSort(s[..|s| - 1], KeyOrder), s[|s| - 1]);
      SizesLast(s);
    }
  }

  lemma {:induction false} FilterSize(s: seq<Member>)
    ensures MembersSize(Filter(s, Defined())) <= MembersSize(s)
  {
    if s != [] {
      FilterSize(s[..|s| - 1]);
      SizesLast(s);
      SizesAppend(Filter(s[..|s| - 1], Defined()), s[|s| - 1]);
    }
  }

  /** Object.entries without undefined members, by key. */
  function SortedMembers(members: seq<Member>): (r: seq<Member>)
    ensures MembersSize(r) <= MembersSize(members)
  {
    FilterSize(members);
    SortSize(Filter(members, Defined()));
    StableSort(Filter(members, Defined()), KeyOrder)
  }

  // ----- The printer -----

  /** The text, or none when the source throws: something undefined outside an object. */
  function CanonicalJson(v: Value): Option<Text>
    decreases Size(v), 0
  {
    match v
    case Undefined => None
    case Null => Some(NULL)
    case Boolean(b) => Some(if b then TRUE else FALSE)
    case Number(numeral) => Some(numeral)
    case String(text) => Some(Quoted(text))
    case Array(items) => Bracketed(OPEN_ARRAY, ItemsJson(items), CLOSE_ARRAY)
    case Object(members) => Bracketed(OPEN_OBJECT, MembersJson(SortedMembers(members)), CLOSE_OBJECT)
  }

  function Bracketed(open: Unit, inner: Option<Text>, close: Unit): Option<Text> {
    match inner
    case None => None
    case Some(t) => Some([open] + t + [close])
  }

  /** Joined with commas. */
  function Joined(first: Option<Text>, last: bool, rest: Option<Text>): Option<Text> {
    if first.None? || rest.None? then None
    else if last then first
    else Some(first.value + [COMMA] + rest.value)
  }

  function ItemsJson(items: seq<Value>): Option<Text>
    decreases ItemsSize(items), 1 + |items|
  {
    if items == [] then Some([])
    else Joined(CanonicalJson(items[0]), |items| == 1, ItemsJson(items[1..]))
  }

  function Entry(key: Text, value: Option<Text>): Option<Text> {
    match value
    case None => None
    case Some(t) => Some(Quoted(key) + [COLON] + t)
  }

  function MembersJson(members: seq<Member>): Option<Text>
    decreases MembersSize(members), 1 + |members|
  {
    if members == [] then Some([])
    else Joined(Entry(members[0].key, CanonicalJson(members[0].value)), |members| == 1, MembersJson(members[1..]))
  }

  // ----- The canonical value -----

  /** Keys sorted and undefined members dropped, at every depth. */
  function Canon(v: Value): Value
    decreases Size(v), 0
  {
    match v
    case Array(items) => Array(CanonItems(items))
    case Object(members) => Object(CanonMembers(SortedMembers(members)))
    case _ => v
  }

  function CanonItems(items: seq<Value>): (r: seq<Value>)
    ensures |r| == |items|
    decreases ItemsSize(items), 1 + |items|
  {
    if items == [] then [] else [Canon(items[0])] + CanonItems(items[1..])
  }

  function CanonMembers(members: seq<Member>): (r: seq<Member>)
    ensures |r| == |members|
    decreases MembersSize(members), 1 + |members|
  {
    if members == [] then [] else [Member(members[0].key, Canon(members[0].value))] + CanonMembers(members[1..])
  }

  /** The value as it stands, members in the order they have. */
  function Text(v: Value): Option<Text>
    decreases v, 0
  {
    match v
    case Undefined => None
    case Null => Some(NULL)
    case Boolean(b) => Some(if b then TRUE else FALSE)
    case Number(numeral) => Some(numeral)
    case String(text) => Some(Quoted(text))
    case Array(items) => Bracketed(OPEN_ARRAY, ItemsText(items), CLOSE_ARRAY)
    case Object(members) => Bracketed(OPEN_OBJECT, MembersText(members), CLOSE_OBJECT)
  }

  function ItemsText(items: seq<Value>): Option<Text>
    decreases items, 0
  {
    if items == [] then Some([]) else Joined(Text(items[0]), |items| == 1, ItemsText(items[1..]))
  }

  function MembersText(members: seq<Member>): Option<Text>
    decreases members, 0
  {
    if members == [] then Some([])
    else Joined(Entry(members[0].key, Text(members[0].value)), |members| == 1, MembersText(members[1..]))
  }

  // ----- The printer prints the canonical value -----

  lemma {:induction false} PrintsCanon(v: Value)
    ensures CanonicalJson(v) == Text(Canon(v))
    decreases Size(v), 0
  {
    match v {
      case Array(items) => PrintsCanonItems(items);
      case Object(members) => PrintsCanonMembers(SortedMembers(members));
      case _ =>
    }
  }

  lemma {:induction false} PrintsCanonItems(items: seq<Value>)
    ensures ItemsJson(items) == ItemsText(CanonItems(items))
    decreases ItemsSize(items), 1 + |items|
  {
    if items != [] {
      PrintsCanon(items[0]);
      PrintsCanonItems(items[1..]);
      assert CanonItems(items)[1..] == CanonItems(items[1..]);
    }
  }

  lemma {:induction false} PrintsCanonMembers(members: seq<Member>)
    ensures MembersJson(members) == MembersText(CanonMembers(members))
    decreases MembersSize(members), 1 + |members|
  {
    if members != [] {
      PrintsCanon(members[0].value);
      PrintsCanonMembers(members[1..]);
      assert CanonMembers(members)[1..] == CanonMembers(members[1..]);
    }
  }

  // ----- Texts can be read back -----

  /** What may follow a value. */
  predicate Delimited(x: Text) {
    x == [] || x[0] == COMMA || x[0] == CLOSE_ARRAY || x[0] == CLOSE_OBJECT
  }

  /** The constructor shows in the first unit. */
  function Leads(v: Value, u: Unit): bool {
    match v
    case Undefined => false
    case Null => u == 110
    case Boolean(b) => u == if b then 116 else 102
    case Number(_) => 48 <= u < 58 || u == 45
    case String(_) => u == QUOTE
    case Array(_) => u == OPEN_ARRAY
    case Object(_) => u == OPEN_OBJECT
  }

  lemma TextLeads(v: Value)
    requires Text(v).Some?
    ensures Text(v).value != [] && Leads(v, Text(v).value[0])
  {
  }

  /** How many units at the front could belong to a number. */
  function NumeralRun(t: Text): nat {
    if t == [] || !NumeralUnit(t[0]) then 0 else 1 + NumeralRun(t[1..])
  }

  lemma {:induction false} RunStops(m: Text, x: Text)
    requires Delimited(x) && forall i | 0 <= i < |m| :: NumeralUnit(m[i])
    ensures NumeralRun(m + x) == |m|
  {
    if m == [] {
      assert m + x == x;
    } else {
      RunStops(m[1..], x);
      assert (m + x)[1..] == m[1..] + x;
    }
  }

  lemma NumeralPrefix(m: Numeral, n: Numeral, x: Text, y: Text)
    requires m + x == n + y && Delimited(x) && Delimited(y)
    ensures m == n && x == y
  {
    RunStops(m, x);
    RunStops(n, y);
    assert m == (m + x)[..|m|] && n == (n + y)[..|n|];
    assert x == (m + x)[|m|..] && y == (n + y)[|n|..];
  }

  lemma WordPrefix(word: Text, x: Text, y: Text)
    requires word + x == word + y
    ensures x == y
  {
    assert x == (word + x)[|word|..] && y == (word + y)[|word|..];
  }

  lemma Inside(open: Unit, inner: Text, close: Unit, x: Text)
    ensures ([open] + inner + [close] + x)[1..] == inner + [close] + x
  {
    assert [open] + inner + [close] + x == [open] + (inner + [close] + x);
  }

  /** What follows the first of several elements. */
  function After(last: bool, rest: Text, close: Unit, x: Text): Text {
    if last then [close] + x else [COMMA] + (rest + [close] + x)
  }

  lemma {:induction false} TextPrefix(a: Value, b: Value, x: Text, y: Text)
    requires Text(a).Some? && Text(b).Some? && Text(a).value + x == Text(b).value + y
    requires Delimited(x) && Delimited(y)
    ensures a == b && x == y
    decreases a, 0
  {
    TextLeads(a);
    TextLeads(b);
    var whole := Text(a).value + x;
    assert Leads(a, whole[0]) && Leads(b, whole[0]);
    match a {
      case Null => WordPrefix(NULL, x, y);
      case Boolean(v) => WordPrefix(if v then TRUE else FALSE, x, y);
      case Number(m) => NumeralPrefix(m, b.numeral, x, y);
      case String(s) => QuotedPrefix(s, b.text, x, y);
      case Array(items) =>
        Inside(OPEN_ARRAY, ItemsText(items).value, CLOSE_ARRAY, x);
        Inside(OPEN_ARRAY, ItemsText(b.items).value, CLOSE_ARRAY, y);
        ItemsPrefix(items, b.items, x, y);
      case Object(members) =>
        Inside(OPEN_OBJECT, MembersText(members).value, CLOSE_OBJECT, x);
        Inside(OPEN_OBJECT, MembersText(b.members).value, CLOSE_OBJECT, y);
        MembersPrefix(members, b.members, x, y);
    }
  }

  lemma ItemsSplit(items: seq<Value>, x: Text)
    requires items != [] && ItemsText(items).Some?
    ensures Text(items[0]).Some? && ItemsText(items[1..]).Some?
    ensures ItemsText(items).value + [CLOSE_ARRAY] + x ==
            Text(items[0]).value + After(|items| == 1, ItemsText(items[1..]).value, CLOSE_ARRAY, x)
  {
    Regroup(Text(items[0]).value, |items| == 1, ItemsText(items[1..]).value, CLOSE_ARRAY, x);
  }

  function Glued(first: Text, last: bool, rest: Text): Text {
    if last then first else first + [COMMA] + rest
  }

  lemma Regroup(first: Text, last: bool, rest: Text, close: Unit, x: Text)
    ensures Glued(first, last, rest) + [close] + x == first + After(last, rest, close, x)
  {
    if last {
      assert first + [close] + x == first + ([close] + x);
    } else {
      var tail := rest + [close] + x;
      assert first + [COMMA] + rest + [close] + x == first + [COMMA] + tail;
      assert first + [COMMA] + tail == first + ([COMMA] + tail);
    }
  }

  lemma AfterEqual(last: bool, rest: Text, also: bool, more: Text, close: Unit, x: Text, y: Text)
    requires close != COMMA && After(last, rest, close, x) == After(also, more, close, y)
    ensures last == also
    ensures last ==> x == y
    ensures !last ==> rest + [close] + x == more + [close] + y
  {
    var a, b := After(last, rest, close, x), After(also, more, close, y);
    assert a[0] == b[0];
    assert a[1..] == b[1..];
    assert last ==> a[1..] == x;
    assert also ==> b[1..] == y;
    assert !last ==> a[1..] == rest + [close] + x;
    assert !also ==> b[1..] == more + [close] + y;
  }

  lemma {:induction false} ItemsPrefix(a: seq<Value>, b: seq<Value>, x: Text, y: Text)
    requires ItemsText(a).Some? && ItemsText(b).Some?
    requires ItemsText(a).value + [CLOSE_ARRAY] + x == ItemsText(b).value + [CLOSE_ARRAY] + y
    ensures a == b && x == y
    decreases a, 1
  {
    if a == [] || b == [] {
      ItemsEmpty(a, b, x, y);
    } else {
      ItemsSplit(a, x);
      ItemsSplit(b, y);
      TextPrefix(a[0], b[0], After(|a| == 1, ItemsText(a[1..]).value, CLOSE_ARRAY, x),
                 After(|b| == 1, ItemsText(b[1..]).value, CLOSE_ARRAY, y));
      AfterEqual(|a| == 1, ItemsText(a[1..]).value, |b| == 1, ItemsText(b[1..]).value, CLOSE_ARRAY, x, y);
      if |a| > 1 { ItemsPrefix(a[1..], b[1..], x, y); }
      assert a == [a[0]] + a[1..] && b == [b[0]] + b[1..];
    }
  }

  lemma ItemsLead(a: seq<Value>, x: Text)
    requires ItemsText(a).Some?
    ensures a == [] <==> (ItemsText(a).value + [CLOSE_ARRAY] + x)[0] == CLOSE_ARRAY
  {
    if a != [] { TextLeads(a[0]); }
  }

  lemma ItemsEmpty(a: seq<Value>, b: seq<Value>, x: Text, y: Text)
    requires ItemsText(a).Some? && ItemsText(b).Some? && (a == [] || b == [])
    requires ItemsText(a).value + [CLOSE_ARRAY] + x == ItemsText(b).value + [CLOSE_ARRAY] + y
    ensures a == b && x == y
  {
    ItemsLead(a, x);
    ItemsLead(b, y);
    assert [] + [CLOSE_ARRAY] + x == [CLOSE_ARRAY] + x && [] + [CLOSE_ARRAY] + y == [CLOSE_ARRAY] + y;
    WordPrefix([CLOSE_ARRAY], x, y);
  }

  lemma MembersGlued(members: seq<Member>)
    requires members != [] && MembersText(members).Some?
    ensures Text(members[0].value).Some? && MembersText(members[1..]).Some?
    ensures MembersText(members).value ==
            Glued(Quoted(members[0].key) + [COLON] + Text(members[0].value).value, |members| == 1,
                  MembersText(members[1..]).value)
  {
  }

  lemma EntrySplit(key: Text, value: Text, after: Text)
    ensures key + [COLON] + value + after == key + ([COLON] + (value + after))
  {
    var tail := value + after;
    assert key + [COLON] + value + after == key + [COLON] + tail;
    assert key + [COLON] + tail == key + ([COLON] + tail);
  }

  lemma MembersSplit(members: seq<Member>, x: Text)
    requires members != [] && MembersText(members).Some?
    ensures Text(members[0].value).Some? && MembersText(members[1..]).Some?
    ensures MembersText(members).value + [CLOSE_OBJECT] + x ==
            Quoted(members[0].key) + ([COLON] + (Text(members[0].value).value
              + After(|members| == 1, MembersText(members[1..]).value, CLOSE_OBJECT, x)))
  {
    MembersGlued(members);
    var key, value := Quoted(members[0].key), Text(members[0].value).value;
    var rest, last := MembersText(members[1..]).value, |members| == 1;
    MembersSplitTexts(key, value, last, rest, x);
  }

  lemma MembersSplitTexts(key: Text, value: Text, last: bool, rest: Text, x: Text)
    ensures Glued(key + [COLON] + value, last, rest) + [CLOSE_OBJECT] + x
            == key + ([COLON] + (value + After(last, rest, CLOSE_OBJECT, x)))
  {
    Regroup(key + [COLON] + value, last, rest, CLOSE_OBJECT, x);
    EntrySplit(key, value, After(last, rest, CLOSE_OBJECT, x));
  }

  lemma {:induction false} MembersPrefix(a: seq<Member>, b: seq<Member>, x: Text, y: Text)
    requires MembersText(a).Some? && MembersText(b).Some?
    requires MembersText(a).value + [CLOSE_OBJECT] + x == MembersText(b).value + [CLOSE_OBJECT] + y
    ensures a == b && x == y
    decreases a, 1
  {
    if a == [] || b == [] {
      MembersEmpty(a, b, x, y);
    } else {
      MembersSplit(a, x);
      MembersSplit(b, y);
      var s := Text(a[0].value).value + After(|a| == 1, MembersText(a[1..]).value, CLOSE_OBJECT, x);
      var t := Text(b[0].value).value + After(|b| == 1, MembersText(b[1..]).value, CLOSE_OBJECT, y);
      QuotedPrefix(a[0].key, b[0].key, [COLON] + s, [COLON] + t);
      WordPrefix([COLON], s, t);
      TextPrefix(a[0].value, b[0].value, After(|a| == 1, MembersText(a[1..]).value, CLOSE_OBJECT, x),
                 After(|b| == 1, MembersText(b[1..]).value, CLOSE_OBJECT, y));
      AfterEqual(|a| == 1, MembersText(a[1..]).value, |b| == 1, MembersText(b[1..]).value, CLOSE_OBJECT, x, y);
      if |a| > 1 { MembersPrefix(a[1..], b[1..], x, y); }
      assert a == [a[0]] + a[1..] && b == [b[0]] + b[1..];
    }
  }

  lemma MembersLead(a: seq<Member>, x: Text)
    requires MembersText(a).Some?
    ensures a == [] <==> (MembersText(a).value + [CLOSE_OBJECT] + x)[0] == CLOSE_OBJECT
  {
  }

  lemma MembersEmpty(a: seq<Member>, b: seq<Member>, x: Text, y: Text)
    requires MembersText(a).Some? && MembersText(b).Some? && (a == [] || b == [])
    requires MembersText(a).value + [CLOSE_OBJECT] + x == MembersText(b).value + [CLOSE_OBJECT] + y
    ensures a == b && x == y
  {
    MembersLead(a, x);
    MembersLead(b, y);
    assert [] + [CLOSE_OBJECT] + x == [CLOSE_OBJECT] + x && [] + [CLOSE_OBJECT] + y == [CLOSE_OBJECT] + y;
    WordPrefix([CLOSE_OBJECT], x, y);
  }

  /** Two requests print to the same text exactly when their canonical values are equal. */
  lemma CanonicalJsonInjective(u: Value, v: Value)
    requires CanonicalJson(u).Some? && CanonicalJson(v).Some?
    ensures CanonicalJson(u) == CanonicalJson(v) <==> Canon(u) == Canon(v)
  {
    PrintsCanon(u);
    PrintsCanon(v);
    if CanonicalJson(u) == CanonicalJson(v) { TextPrefix(Canon(u), Canon(v), [], []); }
  }

  // ----- What the canonical value forgets -----

  ghost predicate KeysUnique(members: seq<Member>) {
    forall i, j | 0 <= i < j < |members| :: members[i].key != members[j].key
  }

  lemma KeyOrderTotal()
    ensures TotalPreorder(KeyOrder)
  {
    forall x, y ensures KeyOrder(x, y) || KeyOrder(y, x) { AtMostTotal(x.key, y.key); }
    forall x, y, z | KeyOrder(x, y) && KeyOrder(y, z) ensures KeyOrder(x, z) { AtMostTransitive(x.key, y.key, z.key); }
  }

  lemma SameKey(a: seq<Member>, x: Member, y: Member)
    requires KeysUnique(a) && x in a && y in a && x.key == y.key
    ensures x == y
  {
  }

  lemma UniqueWithoutLast(a: seq<Member>)
    requires a != [] && KeysUnique(a)
    ensures KeysUnique(a[..|a| - 1])
  {
  }

  /** With unique keys, one order of the members is sorted. */
  lemma {:induction false} SortedOnce(a: seq<Member>, b: seq<Member>)
    requires multiset(a) == multiset(b) && KeysUnique(a) && KeysUnique(b)
    requires SortedBy(a, KeyOrder) && SortedBy(b, KeyOrder)
    ensures a == b
    decreases |a|
  {
    PermutationLength(a, b);
    PermutationMembers(a, b);
    if a != [] {
      var x, y := a[|a| - 1], b[|b| - 1];
      assert x in b && y in a;
      AtMostSelf(x.key);
      AtMostSelf(y.key);
      assert KeyOrder(y, x) && KeyOrder(x, y);
      AtMostAntisymmetric(x.key, y.key);
      SameKey(a, x, y);
      DropLast(a, b);
      UniqueWithoutLast(a);
      UniqueWithoutLast(b);
      SortedOnce(a[..|a| - 1], b[..|b| - 1]);
    }
  }

  lemma AtMostSelf(s: Text)
    ensures AtMost(s, s)
  {
    AtMostTotal(s, s);
  }

  function KeyIs(key: Text): Member -> int {
    (m: Member) => if m.key == key then 1 else 0
  }

  lemma {:induction false} UniqueMeansOnce(a: seq<Member>, key: Text)
    requires KeysUnique(a)
    ensures 0 <= SumOver(a, KeyIs(key)) <= 1
    ensures (forall i | 0 <= i < |a| :: a[i].key != key) ==> SumOver(a, KeyIs(key)) == 0
  {
    if a != [] { UniqueMeansOnce(a[..|a| - 1], key); }
  }

  lemma Twice(b: seq<Member>, i: nat, j: nat)
    requires i < j < |b| && b[i].key == b[j].key
    ensures SumOver(b, KeyIs(b[i].key)) >= 2
  {
    var weight, rest := KeyIs(b[i].key), b[..j] + b[j + 1..];
    SumWithout(b, j, weight);
    assert rest[i] == b[i];
    SumWithout(rest, i, weight);
    SumPrefix(rest[..i] + rest[i + 1..], 0, weight);
  }

  lemma UniquePermutation(a: seq<Member>, b: seq<Member>)
    requires multiset(a) == multiset(b) && KeysUnique(a)
    ensures KeysUnique(b)
  {
    forall i, j | 0 <= i < j < |b| ensures b[i].key != b[j].key {
      UniqueMeansOnce(a, b[i].key);
      SumPermutation(a, b, KeyIs(b[i].key));
      if b[i].key == b[j].key { Twice(b, i, j); }
    }
  }

  lemma {:induction false} FilterUnique(a: seq<Member>)
    requires KeysUnique(a)
    ensures KeysUnique(Filter(a, Defined()))
    ensures forall m | m in Filter(a, Defined()) :: m in a
  {
    if a != [] {
      var init := a[..|a| - 1];
      FilterUnique(init);
      var f := Filter(init, Defined());
      forall i | 0 <= i < |f| ensures f[i].key != a[|a| - 1].key {
        assert f[i] in init;
      }
    }
  }

  /** Reordering an object's members changes nothing. */
  lemma ReorderingForgotten(a: seq<Member>, b: seq<Member>)
    requires multiset(a) == multiset(b) && KeysUnique(a)
    ensures CanonicalJson(Object(a)) == CanonicalJson(Object(b))
  {
    UniquePermutation(a, b);
    FilterUnique(a);
    FilterUnique(b);
    FilterPermutation(a, b, Defined());
    KeyOrderTotal();
    var fa, fb := Filter(a, Defined()), Filter(b, Defined());
    SortPermutes(fa, KeyOrder);
    SortPermutes(fb, KeyOrder);
    SortSorts(fa, KeyOrder);
    SortSorts(fb, KeyOrder);
    UniquePermutation(fa, StableSort(fa, KeyOrder));
    UniquePermutation(fb, StableSort(fb, KeyOrder));
    SortedOnce(StableSort(fa, KeyOrder), StableSort(fb, KeyOrder));
  }

  lemma {:induction false} FilterConcat(a: seq<Member>, b: seq<Member>)
    ensures Filter(a + b, Defined()) == Filter(a, Defined()) + Filter(b, Defined())
  {
    if b == [] {
      assert a + b == a;
    } else {
      FilterConcat(a, b[..|b| - 1]);
      assert (a + b)[..|a + b| - 1] == a + b[..|b| - 1];
    }
  }

  /** So does an undefined member, wherever it is added. */
  lemma UndefinedForgotten(a: seq<Member>, key: Text, b: seq<Member>)
    ensures CanonicalJson(Object(a + [Member(key, Undefined)] + b)) == CanonicalJson(Object(a + b))
  {
    var m := [Member(key, Undefined)];
    assert m[..0] == [];
    FilterConcat(a, m);
    FilterConcat(a + m, b);
    FilterConcat(a, b);
    assert Filter(m, Defined()) == [];
  }

  // ----- What it orders -----

  /** The first difference decides, and a prefix comes first. */
  ghost predicate Precedes(s: Text, t: Text) {
    exists k | 0 <= k <= |s| && k <= |t| :: s[..k] == t[..k] && (k == |s| || (k < |t| && s[k] < t[k]))
  }

  lemma {:induction false} AtMostPrecedes(s: Text, t: Text)
    requires AtMost(s, t)
    ensures Precedes(s, t)
    decreases |s|
  {
    if s == [] {
      assert s[..0] == t[..0];
    } else if s[0] < t[0] {
      assert s[..0] == t[..0];
    } else {
      AtMostPrecedes(s[1..], t[1..]);
      var k :| 0 <= k <= |s[1..]| && k <= |t[1..]| && s[1..][..k] == t[1..][..k]
               && (k == |s[1..]| || (k < |t[1..]| && s[1..][k] < t[1..][k]));
      assert s[..k + 1] == [s[0]] + s[1..][..k] && t[..k + 1] == [t[0]] + t[1..][..k];
    }
  }

  /** An object is printed with every defined member, and only those, in the order of their keys. */
  lemma MembersInOrder(members: seq<Member>)
    ensures forall m: Member :: multiset(SortedMembers(members))[m] == if m.value.Undefined? then 0 else multiset(members)[m]
    ensures forall i, j | 0 <= i < j < |SortedMembers(members)| ::
              Precedes(SortedMembers(members)[i].key, SortedMembers(members)[j].key)
  {
    var defined, r := Filter(members, Defined()), SortedMembers(members);
    SortPermutes(defined, KeyOrder);
    KeyOrderTotal();
    SortSorts(defined, KeyOrder);
    forall m: Member ensures multiset(r)[m] == if m.value.Undefined? then 0 else multiset(members)[m] {
      FilterCounts(members, Defined(), m);
    }
    forall i, j | 0 <= i < j < |r| ensures Precedes(r[i].key, r[j].key) {
      assert KeyOrder(r[i], r[j]);
      AtMostPrecedes(r[i].key, r[j].key);
    }
  }
}
