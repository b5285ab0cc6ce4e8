/** UTF-8, as defined in section 3 of RFC 3629. */
module Utf8 {
  import opened Common

  function EncodeChar(c: char): (r: seq<byte>)
    ensures 1 <= |r| <= 4
  {
    var n := c as int;
    if n < 0x80 then [n as byte]
    else if n < 0x800 then [(0xc0 + n / 0x40) as byte, (0x80 + n % 0x40) as byte]
    else if n < 0x10000 then
      [(0xe0 + n / 0x1000) as byte, (0x80 + n / 0x40 % 0x40) as byte, (0x80 + n % 0x40) as byte]
    else
      [(0xf0 + n / 0x40000) as byte, (0x80 + n / 0x1000 % 0x40) as byte,
       (0x80 + n / 0x40 % 0x40) as byte, (0x80 + n % 0x40) as byte]
  }

  function Encode(s: string): seq<byte> {
    if s == [] then [] else EncodeChar(s[0]) + Encode(s[1..])
  }

  lemma {:induction false} EncodeConcat(a: string, b: string)
    ensures Encode(a + b) == Encode(a) + Encode(b)
  {
    if a == [] {
      assert a + b == b;
    } else {
      assert (a + b)[1..] == a[1..] + b;
      EncodeConcat(a[1..], b);
    }
  }

  // ---------- reading ----------

  /** Number of bytes that the first byte announces; 0 for a byte that starts nothing. */
  function Length(lead: byte): nat {
    var b := lead as int;
    if b < 0x80 then 1 else if b < 0xc0 then 0 else if b < 0xe0 then 2 else if b < 0xf0 then 3
    else if b < 0xf8 then 4 else 0
  }

  /** The code point of one encoded character: the bits of the first byte after its
    * length mark, then six bits of each further byte. */
  function CodePoint(bs: seq<byte>): nat
    requires 1 <= |bs| <= 4
  {
    var lead := bs[0] as int;
    if |bs| == 1 then lead
    else if |bs| == 2 then lead % 32 * 64 + bs[1] as int % 64
    else if |bs| == 3 then lead % 16 * 4096 + bs[1] as int % 64 * 64 + bs[2] as int % 64
    else lead % 8 * 262144 + bs[1] as int % 64 * 4096 + bs[2] as int % 64 * 64 + bs[3] as int % 64
  }

  predicate Continuation(b: byte) {
    0x80 <= b as int < 0xc0
  }

  lemma SixBits(n: nat)
    ensures 0x80 <= 0x80 + n % 0x40 < 0xc0 && (0x80 + n % 0x40) % 64 == n % 0x40
  {
  }

  /** A number is its base-64 digits. */
  lemma Sextets(n: nat)
    ensures n == n / 0x40 * 64 + n % 0x40
    ensures n == n / 0x1000 * 4096 + n / 0x40 % 0x40 * 64 + n % 0x40
    ensures n == n / 0x40000 * 262144 + n / 0x1000 % 0x40 * 4096 + n / 0x40 % 0x40 * 64 + n % 0x40
  {
    assert n / 0x1000 == n / 0x40 / 0x40;
    assert n / 0x40000 == n / 0x1000 / 0x40;
  }

  lemma Continued(c: char)
    ensures forall i | 1 <= i < |EncodeChar(c)| :: Continuation(EncodeChar(c)[i])
  {
    var n := c as int;
    SixBits(n);
    SixBits(n / 0x40);
    SixBits(n / 0x1000);
  }

  lemma PointOfTwo(c: char)
    requires 0x80 <= c as int < 0x800
    ensures CodePoint(EncodeChar(c)) == c as int
  {
    var n := c as int;
    SixBits(n);
    Sextets(n);
    assert (0xc0 + n / 0x40) % 32 == n / 0x40;
  }

  lemma PointOfThree(c: char)
    requires 0x800 <= c as int < 0x10000
    ensures CodePoint(EncodeChar(c)) == c as int
  {
    var n := c as int;
    SixBits(n);
    SixBits(n / 0x40);
    Sextets(n);
    assert (0xe0 + n / 0x1000) % 16 == n / 0x1000;
  }

  lemma PointOfFour(c: char)
    requires 0x10000 <= c as int
    ensures CodePoint(EncodeChar(c)) == c as int
  {
    var n := c as int;
    SixBits(n);
    SixBits(n / 0x40);
    SixBits(n / 0x1000);
    Sextets(n);
    assert (0xf0 + n / 0x40000) % 8 == n / 0x40000;
  }

  lemma LengthAnnounced(c: char)
    ensures Length(EncodeChar(c)[0]) == |EncodeChar(c)|
  {
  }

  /** The bytes of a character announce their number, spell its code point and use
    * no more bytes than that needs. */
  lemma CharReadsBack(c: char)
    ensures var r := EncodeChar(c);
      && Length(r[0]) == |r| && CodePoint(r) == c as int && (forall i | 1 <= i < |r| :: Continuation(r[i]))
      && (|r| == 1) == (c as int < 0x80) && (|r| <= 2) == (c as int < 0x800) && (|r| <= 3) == (c as int < 0x10000)
  {
    LengthAnnounced(c);
    Continued(c);
    if c as int >= 0x10000 {
      PointOfFour(c);
    } else if c as int >= 0x800 {
      PointOfThree(c);
    } else if c as int >= 0x80 {
      PointOfTwo(c);
    }
  }

  lemma {:induction false} EncodedStart(s: string)
    requires s != []
    ensures var n, bs := |EncodeChar(s[0])|, Encode(s);
      n <= |bs| && bs[..n] == EncodeChar(s[0]) && bs[n..] == Encode(s[1..])
  {
  }

  lemma SameFirst(a: string, b: string)
    requires a != [] && b != [] && Encode(a) == Encode(b)
    ensures a[0] == b[0] && Encode(a[1..]) == Encode(b[1..])
  {
    EncodedStart(a);
    EncodedStart(b);
    CharReadsBack(a[0]);
    CharReadsBack(b[0]);
    assert EncodeChar(a[0])[0] == Encode(a)[0] == Encode(b)[0] == EncodeChar(b[0])[0];
  }

  /** Different texts have different bytes. */
  lemma {:induction false} EncodeIsInjective(a: string, b: string)
    requires Encode(a) == Encode(b)
    ensures a == b
  {
    if a == [] || b == [] {
      assert a != [] ==> |Encode(a)| > 0;
      assert b != [] ==> |Encode(b)| > 0;
    } else {
      SameFirst(a, b);
      EncodeIsInjective(a[1..], b[1..]);
      assert a == [a[0]] + a[1..] && b == [b[0]] + b[1..];
    }
  }
}
