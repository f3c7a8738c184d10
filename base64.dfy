/** The `btoa` encoding that secret values go through: the base 64 encoding
    of section 4 of RFC 4648 (alphabet of Table 1, `=` padding), applied to
    a string whose characters are all Latin-1, one byte per character.  The
    decoder is a reference definition used to state the round trip; the
    system itself only encodes. */
module Base64 {
  import opened Common

  type sextet = x: int | 0 <= x < 64

  /** Table 1 of RFC 4648: the character of a 6-bit value. */
  function Digit(i: sextet): char
  {
    if i < 26 then ('A' as int + i) as char
    else if i < 52 then ('a' as int + (i - 26)) as char
    else if i < 62 then ('0' as int + (i - 52)) as char
    else if i == 62 then '+'
    else '/'
  }

  /** The 6-bit value of a character of Table 1, if it is one. */
  function DigitValue(c: char): Option<sextet>
  {
    if 'A' <= c <= 'Z' then Some(c as int - 'A' as int)
    else if 'a' <= c <= 'z' then Some(c as int - 'a' as int + 26)
    else if '0' <= c <= '9' then Some(c as int - '0' as int + 52)
    else if c == '+' then Some(62)
    else if c == '/' then Some(63)
    else None
  }

  /** The table is one-to-one and never yields the pad character. */
  lemma DigitValueOfDigit(i: sextet)
    ensures DigitValue(Digit(i)) == Some(i)
    ensures Digit(i) != '='
  {
  }

  /** Section 4 of RFC 4648: each group of three bytes becomes four
      characters; a final group of one or two bytes is padded with `=`. */
  function Encode(b: seq<byte>): (r: string)
    ensures |r| == 4 * ((|b| + 2) / 3)
    decreases |b|
  {
    if |b| == 0 then ""
    else if |b| == 1 then
      [Digit(b[0] / 4), Digit((b[0] % 4) * 16), '=', '=']
    else if |b| == 2 then
      [Digit(b[0] / 4), Digit((b[0] % 4) * 16 + b[1] / 16), Digit((b[1] % 16) * 4), '=']
    else
      [Digit(b[0] / 4), Digit((b[0] % 4) * 16 + b[1] / 16),
       Digit((b[1] % 16) * 4 + b[2] / 64), Digit(b[2] % 64)] + Encode(b[3..])
  }

  /** Every character of an encoding is a digit of Table 1 or the pad. */
  lemma {:induction false} EncodeAlphabet(b: seq<byte>)
    ensures forall i :: 0 <= i < |Encode(b)| ==> Encode(b)[i] == '=' || DigitValue(Encode(b)[i]).Some?
    decreases |b|
  {
    if |b| >= 3 {
      EncodeAlphabet(b[3..]);
      var e := Encode(b);
      assert e[4..] == Encode(b[3..]);
      forall i | 0 <= i < 4 ensures DigitValue(e[i]).Some? {
        var v: sextet := if i == 0 then b[0] / 4 else if i == 1 then (b[0] % 4) * 16 + b[1] / 16
                          else if i == 2 then (b[1] % 16) * 4 + b[2] / 64 else b[2] % 64;
        assert e[i] == Digit(v);
        DigitValueOfDigit(v);
      }
    } else if |b| > 0 {
      DigitValueOfDigit(b[0] / 4);
      DigitValueOfDigit((b[0] % 4) * 16);
      if |b| == 2 {
        DigitValueOfDigit((b[0] % 4) * 16 + b[1] / 16);
        DigitValueOfDigit((b[1] % 16) * 4);
      }
    }
  }

  /** The three bytes that four 6-bit values carry. */
  function Bytes3(v0: sextet, v1: sextet, v2: sextet, v3: sextet): seq<byte>
  {
    var b0: byte := v0 as int * 4 + v1 / 16;
    var b1: byte := (v1 as int % 16) * 16 + v2 / 4;
    var b2: byte := (v2 as int % 4) * 64 + v3;
    [b0, b1, b2]
  }

  /** The two bytes that three 6-bit values carry (a group padded once). */
  function Bytes2(v0: sextet, v1: sextet, v2: sextet): seq<byte>
  {
    var b0: byte := v0 as int * 4 + v1 / 16;
    var b1: byte := (v1 as int % 16) * 16 + v2 / 4;
    [b0, b1]
  }

  /** The byte that two 6-bit values carry (a group padded twice). */
  function Bytes1(v0: sextet, v1: sextet): seq<byte>
  {
    var b0: byte := v0 as int * 4 + v1 / 16;
    [b0]
  }

  /** Four characters back to their bytes; `last` says whether padding may occur. */
  function DecodeQuad(q: string, last: bool): Option<seq<byte>>
    requires |q| == 4
  {
    var d0, d1, d2, d3 := DigitValue(q[0]), DigitValue(q[1]), DigitValue(q[2]), DigitValue(q[3]);
    if d0.None? || d1.None? then None
    else if d2.Some? && d3.Some? then Some(Bytes3(d0.value, d1.value, d2.value, d3.value))
    else if last && d2.Some? && q[3] == '=' then Some(Bytes2(d0.value, d1.value, d2.value))
    else if last && q[2] == '=' && q[3] == '=' then Some(Bytes1(d0.value, d1.value))
    else None
  }

  /** The inverse of `Encode` on its image; `None` on text that is no encoding. */
  function Decode(s: string): Option<seq<byte>>
    decreases |s|
  {
    if |s| == 0 then Some([])
    else if |s| < 4 then None
    else
      match DecodeQuad(s[..4], |s| == 4)
      case None => None
      case Some(bs) =>
        match Decode(s[4..])
        case None => None
        case Some(rest) => Some(bs + rest)
  }

  /** The bit regrouping of a full group undone. */
  lemma Bytes3Of(b0: byte, b1: byte, b2: byte)
    ensures Bytes3(b0 / 4, (b0 % 4) * 16 + b1 / 16, (b1 % 16) * 4 + b2 / 64, b2 % 64) == [b0, b1, b2]
  {
    var v1, v2 := (b0 % 4) * 16 + b1 / 16, (b1 % 16) * 4 + b2 / 64;
    assert v1 / 16 == b0 % 4;
    assert v1 % 16 == b1 / 16;
    assert v2 / 4 == b1 % 16;
    assert v2 % 4 == b2 / 64;
  }

  /** The bit regrouping of a group padded once undone. */
  lemma Bytes2Of(b0: byte, b1: byte)
    ensures Bytes2(b0 / 4, (b0 % 4) * 16 + b1 / 16, (b1 % 16) * 4) == [b0, b1]
  {
    var v1 := (b0 % 4) * 16 + b1 / 16;
    assert v1 / 16 == b0 % 4;
    assert v1 % 16 == b1 / 16;
    assert ((b1 % 16) * 4) / 4 == b1 % 16;
  }

  /** The bit regrouping of a group padded twice undone. */
  lemma Bytes1Of(b0: byte)
    ensures Bytes1(b0 / 4, (b0 % 4) * 16) == [b0]
  {
    assert ((b0 % 4) * 16) / 16 == b0 % 4;
  }

  /** A final group of one byte decodes back. */
  lemma DecodeOne(b: seq<byte>)
    requires |b| == 1
    ensures Decode(Encode(b)) == Some(b)
  {
    var e := Encode(b);
    DigitValueOfDigit(b[0] / 4);
    DigitValueOfDigit((b[0] % 4) * 16);
    Bytes1Of(b[0]);
    assert e[..4] == e == [Digit(b[0] / 4), Digit((b[0] % 4) * 16), '=', '='];
    assert DecodeQuad(e[..4], true) == Some([b[0]]);
    assert e[4..] == [];
    assert [b[0]] + [] == b;
  }

  /** Four characters ending in one pad, and nothing after them, decode
      as the two bytes their three digits carry. */
  lemma DecodePadOnce(c0: char, c1: char, c2: char, v0: sextet, v1: sextet, v2: sextet)
    requires DigitValue(c0) == Some(v0) && DigitValue(c1) == Some(v1) && DigitValue(c2) == Some(v2)
    ensures Decode([c0, c1, c2, '=']) == Some(Bytes2(v0, v1, v2))
  {
    var e := [c0, c1, c2, '='];
    assert e[..4] == e && e[4..] == [];
    assert DecodeQuad(e, true) == Some(Bytes2(v0, v1, v2));
    assert Bytes2(v0, v1, v2) + [] == Bytes2(v0, v1, v2);
  }

  /** A final group of two bytes decodes back. */
  lemma DecodeTwo(b: seq<byte>)
    requires |b| == 2
    ensures Decode(Encode(b)) == Some(b)
  {
    assert b == [b[0], b[1]];
    DecodeTwoBytes(b[0], b[1]);
  }

  lemma DecodeTwoBytes(b0: byte, b1: byte)
    ensures Decode(Encode([b0, b1])) == Some([b0, b1])
  {
    var v0: sextet, v1: sextet, v2: sextet := b0 / 4, (b0 % 4) * 16 + b1 / 16, (b1 % 16) * 4;
    assert Encode([b0, b1]) == [Digit(v0), Digit(v1), Digit(v2), '='];
    DigitValueOfDigit(v0);
    DigitValueOfDigit(v1);
    DigitValueOfDigit(v2);
    DecodePadOnce(Digit(v0), Digit(v1), Digit(v2), v0, v1, v2);
    Bytes2Of(b0, b1);
  }

  /** A full group of three bytes, followed by anything, decodes as its bytes. */
  lemma DecodeGroup(b: seq<byte>)
    requires |b| >= 3
    ensures Encode(b)[4..] == Encode(b[3..])
    ensures DecodeQuad(Encode(b)[..4], |Encode(b)| == 4) == Some(b[..3])
  {
    var e := Encode(b);
    var v0: sextet, v1: sextet := b[0] / 4, (b[0] % 4) * 16 + b[1] / 16;
    var v2: sextet, v3: sextet := (b[1] % 16) * 4 + b[2] / 64, b[2] % 64;
    DigitValueOfDigit(v0);
    DigitValueOfDigit(v1);
    DigitValueOfDigit(v2);
    DigitValueOfDigit(v3);
    Bytes3Of(b[0], b[1], b[2]);
    assert e[..4] == [Digit(v0), Digit(v1), Digit(v2), Digit(v3)];
    assert DecodeQuad(e[..4], |e| == 4) == Some([b[0], b[1], b[2]]);
    assert b[..3] == [b[0], b[1], b[2]];
  }

  /** Decoding an encoding gives back the bytes. */
  lemma {:induction false} DecodeEncode(b: seq<byte>)
    ensures Decode(Encode(b)) == Some(b)
    decreases |b|
  {
    if |b| == 1 {
      DecodeOne(b);
    } else if |b| == 2 {
      DecodeTwo(b);
    } else if |b| >= 3 {
      DecodeGroup(b);
      DecodeEncode(b[3..]);
      assert b == b[..3] + b[3..];
    }
  }

  // ---------------------------------------------------------------------
  // btoa on strings

  /** The bytes of a string each of whose characters is below U+0100;
      `None` when one is not (where `btoa` throws `InvalidCharacterError`). */
  function Latin1(s: string): (r: Option<seq<byte>>)
    ensures r.Some? <==> forall i :: 0 <= i < |s| ==> s[i] as int < 256
    ensures r.Some? ==> |r.value| == |s| && forall i :: 0 <= i < |s| ==> r.value[i] == s[i] as int
    decreases |s|
  {
    if |s| == 0 then Some([])
    else if s[0] as int >= 256 then None
    else
      match Latin1(s[1..])
      case None => None
      case Some(rest) => Some([s[0] as int as byte] + rest)
  }

  /** `btoa(s)`: `None` stands for the `InvalidCharacterError` it throws. */
  function Btoa(s: string): (r: Option<string>)
    ensures r.Some? <==> forall i :: 0 <= i < |s| ==> s[i] as int < 256
  {
    match Latin1(s)
    case None => None
    case Some(bytes) => Some(Encode(bytes))
  }

  /** `atob`, the reference inverse of `Btoa`. */
  function Atob(e: string): Option<string>
  {
    match Decode(e)
    case None => None
    case Some(bytes) => Some(seq(|bytes|, i requires 0 <= i < |bytes| => bytes[i] as char))
  }

  /** What `btoa` produces, `atob` turns back into the original string. */
  lemma BtoaRoundTrip(s: string)
    requires Btoa(s).Some?
    ensures Atob(Btoa(s).value) == Some(s)
  {
    var bytes := Latin1(s).value;
    DecodeEncode(bytes);
    var back := seq(|bytes|, i requires 0 <= i < |bytes| => bytes[i] as char);
    assert back == s;
  }

  /** `btoa` output is base 64 text: four characters per started group of
      three input characters, each a digit of Table 1 or the pad. */
  lemma BtoaShape(s: string)
    requires Btoa(s).Some?
    ensures |Btoa(s).value| == 4 * ((|s| + 2) / 3)
    ensures forall i :: 0 <= i < |Btoa(s).value| ==>
      Btoa(s).value[i] == '=' || DigitValue(Btoa(s).value[i]).Some?
  {
    EncodeAlphabet(Latin1(s).value);
  }
}
