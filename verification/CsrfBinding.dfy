/** The associated data that binds a session's CSRF secret to its session and account:
    csrfAad in src/sessions.ts, lines 300-308. */
module CsrfBinding {

  type Byte = b: int | 0 <= b < 256

  const MAX_LENGTH: int := 0x1_0000_0000

  /** writeUInt32BE. */
  function BigEndian(n: nat): (bytes: seq<Byte>)
    requires n < MAX_LENGTH
    ensures |bytes| == 4
  {
    var high := n / 0x100;
    var higher := high / 0x100;
    [higher / 0x100, higher % 0x100, high % 0x100, n % 0x100]
  }

  ghost predicate Encodable(fields: seq<seq<Byte>>) {
    forall i | 0 <= i < |fields| :: |fields[i]| < MAX_LENGTH
  }

  /** Every field preceded by its length. */
  function Aad(fields: seq<seq<Byte>>): seq<Byte>
    requires Encodable(fields)
  {
    if fields == [] then [] else BigEndian(|fields[0]|) + fields[0] + Aad(fields[1..])
  }

  lemma BigEndianInjective(m: nat, n: nat)
    requires m < MAX_LENGTH && n < MAX_LENGTH && BigEndian(m) == BigEndian(n)
    ensures m == n
  {
    var a, b := BigEndian(m), BigEndian(n);
    assert a[0] == b[0] && a[1] == b[1] && a[2] == b[2] && a[3] == b[3];
  }

  /** No two lists of fields share an encoding, so a seal opens for one session and account only. */
  lemma {:induction false} AadInjective(a: seq<seq<Byte>>, b: seq<seq<Byte>>)
    requires Encodable(a) && Encodable(b) && Aad(a) == Aad(b)
    ensures a == b
    decreases |a|
  {
    if a == [] || b == [] {
      assert |Aad(a)| == 0;
      assert a == b;
    } else {
      var x, y := Aad(a), Aad(b);
      assert x[..4] == BigEndian(|a[0]|) && y[..4] == BigEndian(|b[0]|);
      BigEndianInjective(|a[0]|, |b[0]|);
      var n := 4 + |a[0]|;
      assert x[4..n] == a[0] && y[4..n] == b[0];
      assert x[n..] == Aad(a[1..]) && y[n..] == Aad(b[1..]);
      AadInjective(a[1..], b[1..]);
      assert a == [a[0]] + a[1..] && b == [b[0]] + b[1..];
    }
  }

  /** readUInt32BE. */
  function Number(bytes: seq<Byte>): nat
    requires |bytes| == 4
  {
    var a: int, b: int, c: int, d: int := bytes[0], bytes[1], bytes[2], bytes[3];
    0x100_0000 * a + 0x1_0000 * b + 0x100 * c + d
  }

  lemma NumberReads(n: nat)
    requires n < MAX_LENGTH
    ensures Number(BigEndian(n)) == n
  {
  }

  /** The fields, each by the length before it. */
  function Fields(bytes: seq<Byte>): seq<seq<Byte>>
    decreases |bytes|
  {
    if |bytes| < 4 then []
    else
      var n := Number(bytes[..4]);
      if |bytes| < 4 + n then [] else [bytes[4..4 + n]] + Fields(bytes[4 + n..])
  }

  /** The associated data reads back as the fields it was made of. */
  lemma {:induction false} FieldsRead(fields: seq<seq<Byte>>)
    requires Encodable(fields)
    ensures Fields(Aad(fields)) == fields
    decreases |fields|
  {
    if fields != [] {
      var bytes, n := Aad(fields), |fields[0]|;
      NumberReads(n);
      assert bytes[..4] == BigEndian(n) && bytes[4..4 + n] == fields[0] && bytes[4 + n..] == Aad(fields[1..]);
      FieldsRead(fields[1..]);
      assert fields == [fields[0]] + fields[1..];
    }
  }
}
