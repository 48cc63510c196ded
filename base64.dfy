/**
 * Standard base64 with padding, as in section 4 of RFC 4648: the encoding
 * Node's `Buffer.toString("base64")` produces. The decoder is a reference
 * inverse used to show that the encoding is injective, so that comparing
 * encoded addresses is the same as comparing the addresses themselves.
 */
module Base64 {
  import opened Wrappers

  type Byte = b: int | 0 <= b < 256
  type Sextet = n: int | 0 <= n < 64

  /** The character of the RFC 4648 alphabet (Table 1) for a 6-bit value. */
  function SextetChar(n: Sextet): (c: char)
    ensures c != '='
  {
    if n < 26 then ('A' as int + n) as char
    else if n < 52 then ('a' as int + (n - 26)) as char
    else if n < 62 then ('0' as int + (n - 52)) as char
    else if n == 62 then '+'
    else '/'
  }

  /** The 6-bit value of an alphabet character, or None for any other character. */
  function SextetValue(c: char): (r: Option<Sextet>)
  {
    if 'A' <= c <= 'Z' then Some(c as int - 'A' as int)
    else if 'a' <= c <= 'z' then Some(c as int - 'a' as int + 26)
    else if '0' <= c <= '9' then Some(c as int - '0' as int + 52)
    else if c == '+' then Some(62)
    else if c == '/' then Some(63)
    else None
  }

  lemma SextetRoundTrip(n: Sextet)
    ensures SextetValue(SextetChar(n)) == Some(n)
  {
  }

  /** Four characters for a full group of three bytes. */
  function EncodeGroup(b0: Byte, b1: Byte, b2: Byte): (s: string)
  {
    [SextetChar(b0 / 4), SextetChar((b0 % 4) * 16 + b1 / 16),
     SextetChar((b1 % 16) * 4 + b2 / 64), SextetChar(b2 % 64)]
  }

  /** Four characters for a final group of one or two bytes, padded with `=`. */
  function EncodeFinal(bytes: seq<Byte>): (s: string)
    requires 1 <= |bytes| <= 2
    ensures |s| == 4
  {
    if |bytes| == 1 then
      [SextetChar(bytes[0] / 4), SextetChar((bytes[0] % 4) * 16), '=', '=']
    else
      [SextetChar(bytes[0] / 4), SextetChar((bytes[0] % 4) * 16 + bytes[1] / 16),
       SextetChar((bytes[1] % 16) * 4), '=']
  }

  /**
   * The padded base64 text of `bytes`: every group of three bytes gives four
   * characters, and a final group of one or two bytes is padded with `=`.
   */
  function Encode(bytes: seq<Byte>): (s: string)
    ensures |s| == (|bytes| + 2) / 3 * 4
    decreases |bytes|
  {
    if |bytes| == 0 then ""
    else if |bytes| < 3 then EncodeFinal(bytes)
    else EncodeGroup(bytes[0], bytes[1], bytes[2]) + Encode(bytes[3..])
  }

  /** Decodes four characters, the last `pad` of which are `=`. */
  function DecodeQuad(q: string, pad: nat): (r: Option<seq<Byte>>)
    requires |q| == 4 && pad <= 2
  {
    var v0 := SextetValue(q[0]);
    var v1 := SextetValue(q[1]);
    var v2 := if pad == 2 then Some(0) else SextetValue(q[2]);
    var v3 := if pad >= 1 then Some(0) else SextetValue(q[3]);
    if v0.None? || v1.None? || v2.None? || v3.None? then None
    else
      var c0: int, c1: int, c2: int, c3: int := v0.value, v1.value, v2.value, v3.value;
      var bytes: seq<Byte> := [c0 * 4 + c1 / 16, (c1 % 16) * 16 + c2 / 4, (c2 % 4) * 64 + c3];
      Some(bytes[..3 - pad])
  }

  /** The number of `=` characters that end a four-character group. */
  function Padding(q: string): nat
    requires |q| == 4
  {
    if q[2] == '=' && q[3] == '=' then 2 else if q[3] == '=' then 1 else 0
  }

  /** Prepends the bytes of a decoded group to the decoding of the rest. */
  function Prepend(head: Option<seq<Byte>>, tail: Option<seq<Byte>>): Option<seq<Byte>>
  {
    if head.Some? && tail.Some? then Some(head.value + tail.value) else None
  }

  /**
   * Reference decoder: the inverse of Encode on its image. Padding is only
   * accepted in the last group.
   */
  function Decode(s: string): (r: Option<seq<Byte>>)
    decreases |s|
  {
    if |s| == 0 then Some([])
    else if |s| < 4 then None
    else if |s| == 4 then DecodeQuad(s, Padding(s))
    else Prepend(DecodeQuad(s[..4], 0), Decode(s[4..]))
  }

  lemma GroupRoundTrip(b0: Byte, b1: Byte, b2: Byte)
    ensures DecodeQuad(EncodeGroup(b0, b1, b2), 0) == Some([b0, b1, b2])
  {
    var q := EncodeGroup(b0, b1, b2);
    SextetRoundTrip(b0 / 4);
    SextetRoundTrip((b0 % 4) * 16 + b1 / 16);
    SextetRoundTrip((b1 % 16) * 4 + b2 / 64);
    SextetRoundTrip(b2 % 64);
    var c0, c1, c2, c3 := b0 / 4, (b0 % 4) * 16 + b1 / 16, (b1 % 16) * 4 + b2 / 64, b2 % 64;
    assert c0 * 4 + c1 / 16 == b0 by { assert c1 / 16 == b0 % 4; }
    assert (c1 % 16) * 16 + c2 / 4 == b1 by { assert c1 % 16 == b1 / 16; assert c2 / 4 == b1 % 16; }
    assert (c2 % 4) * 64 + c3 == b2 by { assert c2 % 4 == b2 / 64; }
    assert SextetValue(q[0]) == Some(c0) && SextetValue(q[1]) == Some(c1);
    assert SextetValue(q[2]) == Some(c2) && SextetValue(q[3]) == Some(c3);
    var decoded: seq<Byte> := [c0 * 4 + c1 / 16, (c1 % 16) * 16 + c2 / 4, (c2 % 4) * 64 + c3];
    assert decoded == [b0, b1, b2];
    assert decoded[..3] == decoded;
  }

  lemma OneByteRoundTrip(b0: Byte)
    ensures Decode(EncodeFinal([b0])) == Some([b0])
  {
    var q := EncodeFinal([b0]);
    var c0: int, c1: int := b0 / 4, (b0 % 4) * 16;
    SextetRoundTrip(c0);
    SextetRoundTrip(c1);
    assert Padding(q) == 2;
    assert SextetValue(q[0]) == Some(c0) && SextetValue(q[1]) == Some(c1);
    assert c0 * 4 + c1 / 16 == b0;
    var decoded: seq<Byte> := [c0 * 4 + c1 / 16, (c1 % 16) * 16, 0];
    assert decoded[..1] == [b0];
  }

  lemma TwoByteRoundTrip(b0: Byte, b1: Byte)
    ensures Decode(EncodeFinal([b0, b1])) == Some([b0, b1])
  {
    var q := EncodeFinal([b0, b1]);
    var c0: int, c1: int, c2: int := b0 / 4, (b0 % 4) * 16 + b1 / 16, (b1 % 16) * 4;
    SextetRoundTrip(c0);
    SextetRoundTrip(c1);
    SextetRoundTrip(c2);
    assert Padding(q) == 1;
    assert SextetValue(q[0]) == Some(c0) && SextetValue(q[1]) == Some(c1) && SextetValue(q[2]) == Some(c2);
    assert c0 * 4 + c1 / 16 == b0 by { assert c1 / 16 == b0 % 4; }
    assert (c1 % 16) * 16 + c2 / 4 == b1 by { assert c1 % 16 == b1 / 16; }
    var decoded: seq<Byte> := [c0 * 4 + c1 / 16, (c1 % 16) * 16 + c2 / 4, (c2 % 4) * 64];
    assert decoded[..2] == [b0, b1];
  }

  /** Encoding starts with the group of the first three bytes. */
  lemma EncodeFirstGroup(bytes: seq<Byte>)
    requires |bytes| >= 3
    ensures Encode(bytes) == EncodeGroup(bytes[0], bytes[1], bytes[2]) + Encode(bytes[3..])
  {
  }

  /** Three bytes encode to their group alone. */
  lemma EncodeOneGroup(bytes: seq<Byte>)
    requires |bytes| == 3
    ensures Encode(bytes) == EncodeGroup(bytes[0], bytes[1], bytes[2])
  {
    EncodeFirstGroup(bytes);
  }

  /** A single full group decodes to its three bytes. */
  lemma LastGroupRoundTrip(bytes: seq<Byte>, s: string)
    requires |bytes| == 3 && s == EncodeGroup(bytes[0], bytes[1], bytes[2])
    ensures Decode(s) == Some(bytes)
  {
    GroupRoundTrip(bytes[0], bytes[1], bytes[2]);
    assert Padding(s) == 0;
    assert [bytes[0], bytes[1], bytes[2]] == bytes;
  }

  /** A full group followed by the encoding of the rest decodes to all the bytes. */
  lemma GroupThenRoundTrip(bytes: seq<Byte>, s: string)
    requires |bytes| > 3
    requires s == EncodeGroup(bytes[0], bytes[1], bytes[2]) + Encode(bytes[3..])
    requires Decode(Encode(bytes[3..])) == Some(bytes[3..])
    ensures Decode(s) == Some(bytes)
  {
    var rest := bytes[3..];
    var group := [bytes[0], bytes[1], bytes[2]];
    GroupRoundTrip(bytes[0], bytes[1], bytes[2]);
    DecodeGroupThen(EncodeGroup(bytes[0], bytes[1], bytes[2]), Encode(rest), group, rest);
    assert group + rest == bytes;
  }

  /** Decoding an encoding gives back the original bytes. */
  lemma {:induction false} DecodeEncode(bytes: seq<Byte>)
    ensures Decode(Encode(bytes)) == Some(bytes)
    decreases |bytes|
  {
    if |bytes| == 1 {
      assert bytes == [bytes[0]];
      OneByteRoundTrip(bytes[0]);
    } else if |bytes| == 2 {
      assert bytes == [bytes[0], bytes[1]];
      TwoByteRoundTrip(bytes[0], bytes[1]);
    } else if |bytes| == 3 {
      EncodeOneGroup(bytes);
      LastGroupRoundTrip(bytes, Encode(bytes));
    } else if |bytes| > 3 {
      DecodeEncode(bytes[3..]);
      EncodeFirstGroup(bytes);
      GroupThenRoundTrip(bytes, Encode(bytes));
    }
  }

  /** A full group followed by more text decodes group by group. */
  lemma DecodeGroupThen(head: string, tail: string, h: seq<Byte>, t: seq<Byte>)
    requires |head| == 4 && |tail| > 0
    requires DecodeQuad(head, 0) == Some(h) && Decode(tail) == Some(t)
    ensures Decode(head + tail) == Some(h + t)
  {
    assert (head + tail)[..4] == head;
    assert (head + tail)[4..] == tail;
  }

  /** The test vectors of section 10 of RFC 4648 ("f", "fo", "foo", "foobar"). */
  lemma RfcTestVectors()
    ensures Encode([102]) == "Zg=="
    ensures Encode([102, 111]) == "Zm8="
    ensures Encode([102, 111, 111]) == "Zm9v"
    ensures Encode([102, 111, 111, 98, 97, 114]) == "Zm9vYmFy"
  {
  }

  /** Distinct byte strings have distinct encodings. */
  lemma EncodeInjective(a: seq<Byte>, b: seq<Byte>)
    requires Encode(a) == Encode(b)
    ensures a == b
  {
    DecodeEncode(a);
    DecodeEncode(b);
  }
}
