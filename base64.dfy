/** Base64 as defined in section 4 of RFC 4648: every three bytes become four
    characters of the 64-letter alphabet, and a final group of one or two
    bytes is completed with `=` padding. */
module Base64 {
  import opened Results

  type Byte = x: int | 0 <= x < 256
  type Sextet = x: int | 0 <= x < 64

  /** The alphabet of Table 1 of RFC 4648. */
  function Letter(i: Sextet): (c: char)
    ensures c != '='
  {
    if i < 26 then ('A' as int + i) as char
    else if i < 52 then ('a' as int + (i - 26)) as char
    else if i < 62 then ('0' as int + (i - 52)) as char
    else if i == 62 then '+'
    else '/'
  }

  function LetterIndex(c: char): (r: Option<Sextet>)
    ensures r.Some? ==> Letter(r.value) == c
  {
    if 'A' <= c <= 'Z' then Some(c as int - 'A' as int)
    else if 'a' <= c <= 'z' then Some(c as int - 'a' as int + 26)
    else if '0' <= c <= '9' then Some(c as int - '0' as int + 52)
    else if c == '+' then Some(62)
    else if c == '/' then Some(63)
    else None
  }

  lemma LetterIndexOfLetter(i: Sextet)
    ensures LetterIndex(Letter(i)) == Some(i)
  {
  }

  predicate IsLetter(c: char)
  {
    LetterIndex(c).Some?
  }

  /** Three bytes as four letters (bits 24..19, 18..13, 12..7, 6..1 of the group). */
  function Quad(b0: Byte, b1: Byte, b2: Byte): (s: string)
    ensures |s| == 4
  {
    [Letter(b0 / 4), Letter((b0 % 4) * 16 + b1 / 16), Letter((b1 % 16) * 4 + b2 / 64), Letter(b2 % 64)]
  }

  /** `base64.b64encode`. */
  function Encode(b: seq<Byte>): (s: string)
    ensures |s| == 4 * ((|b| + 2) / 3)
    ensures forall i :: 0 <= i < |s| ==> IsLetter(s[i]) || s[i] == '='
    decreases |b|
  {
    if |b| == 0 then ""
    else if |b| == 1 then Quad(b[0], 0, 0)[..2] + "=="
    else if |b| == 2 then Quad(b[0], b[1], 0)[..3] + "="
    else Quad(b[0], b[1], b[2]) + Encode(b[3..])
  }

  function Unquad(c0: Sextet, c1: Sextet, c2: Sextet, c3: Sextet): (b: seq<Byte>)
    ensures |b| == 3
  {
    [c0 * 4 + c1 / 16, (c1 % 16) * 16 + c2 / 4, (c2 % 4) * 64 + c3]
  }

  /** `base64.b64decode` on canonical input: whole groups of four letters
      from the alphabet, with `=` padding only in the last group. Every
      other string is a ValueError here. Python raises `binascii.Error` (a
      ValueError) for most of them, but its non-validating mode first
      discards characters outside the alphabet and ignores what follows a
      completed padding, so it decodes some strings this function rejects. */
  function Decode(s: string): (r: Result<seq<Byte>>)
    decreases |s|
  {
    if |s| == 0 then Ok([])
    else if |s| < 4 then Err(ValueError)
    else
      var i0, i1, i2, i3 := LetterIndex(s[0]), LetterIndex(s[1]), LetterIndex(s[2]), LetterIndex(s[3]);
      if i0.None? || i1.None? then Err(ValueError)
      else if |s| == 4 && s[2] == '=' && s[3] == '=' then
        Ok(Unquad(i0.value, i1.value, 0, 0)[..1])
      else if i2.None? then Err(ValueError)
      else if |s| == 4 && s[3] == '=' then
        Ok(Unquad(i0.value, i1.value, i2.value, 0)[..2])
      else if i3.None? then Err(ValueError)
      else
        match Decode(s[4..])
        case Err(e) => Err(e)
        case Ok(rest) => Ok(Unquad(i0.value, i1.value, i2.value, i3.value) + rest)
  }

  lemma UnquadQuad(b0: Byte, b1: Byte, b2: Byte)
    ensures Unquad(b0 / 4, (b0 % 4) * 16 + b1 / 16, (b1 % 16) * 4 + b2 / 64, b2 % 64) == [b0, b1, b2]
  {
  }

  /** Decoding undoes encoding. */
  lemma {:induction false} DecodeEncode(b: seq<Byte>)
    ensures Decode(Encode(b)) == Ok(b)
    decreases |b|
  {
    if |b| == 1 {
      DecodeOne(b[0]);
      assert b == [b[0]];
    } else if |b| == 2 {
      DecodeTwo(b[0], b[1]);
      assert b == [b[0], b[1]];
    } else if |b| >= 3 {
      DecodeEncode(b[3..]);
      DecodeEncodeStep(b);
    }
  }

  /** A whole group of three bytes in front of a tail that round-trips. */
  lemma DecodeEncodeStep(b: seq<Byte>)
    requires |b| >= 3 && Decode(Encode(b[3..])) == Ok(b[3..])
    ensures Decode(Encode(b)) == Ok(b)
  {
    Regroup3(b);
    DecodeGroup(b[0], b[1], b[2], b[3..]);
  }

  lemma Regroup3(b: seq<Byte>)
    requires |b| >= 3
    ensures [b[0], b[1], b[2]] + b[3..] == b
  {
  }

  /** The last group padded with `==`. */
  lemma DecodeOne(b0: Byte)
    ensures Decode(Quad(b0, 0, 0)[..2] + "==") == Ok([b0])
  {
    var c0, c1 := b0 / 4, (b0 % 4) * 16;
    UnquadQuad(b0, 0, 0);
    LetterIndexOfLetter(c0);
    LetterIndexOfLetter(c1);
    var s := Quad(b0, 0, 0)[..2] + "==";
    assert s == [Letter(c0), Letter(c1), '=', '='];
    assert Decode(s) == Ok(Unquad(c0, c1, 0, 0)[..1]);
    assert Unquad(c0, c1, 0, 0) == [b0, 0, 0];
    assert Unquad(c0, c1, 0, 0)[..1] == [b0];
  }

  /** The last group padded with `=`. */
  lemma DecodeTwo(b0: Byte, b1: Byte)
    ensures Decode(Quad(b0, b1, 0)[..3] + "=") == Ok([b0, b1])
  {
    var c0, c1, c2 := b0 / 4, (b0 % 4) * 16 + b1 / 16, (b1 % 16) * 4;
    UnquadQuad(b0, b1, 0);
    LetterIndexOfLetter(c0);
    LetterIndexOfLetter(c1);
    LetterIndexOfLetter(c2);
    var s := Quad(b0, b1, 0)[..3] + "=";
    assert s == [Letter(c0), Letter(c1), Letter(c2), '='];
    assert Decode(s) == Ok(Unquad(c0, c1, c2, 0)[..2]);
    assert Unquad(c0, c1, c2, 0) == [b0, b1, 0];
    assert Unquad(c0, c1, c2, 0)[..2] == [b0, b1];
  }

  lemma DecodeGroup(b0: Byte, b1: Byte, b2: Byte, rest: seq<Byte>)
    requires Decode(Encode(rest)) == Ok(rest)
    ensures Decode(Encode([b0, b1, b2] + rest)) == Ok([b0, b1, b2] + rest)
  {
    var b := [b0, b1, b2] + rest;
    assert b[3..] == rest;
    var c0, c1, c2, c3 := b0 / 4, (b0 % 4) * 16 + b1 / 16, (b1 % 16) * 4 + b2 / 64, b2 % 64;
    UnquadQuad(b0, b1, b2);
    LetterIndexOfLetter(c0);
    LetterIndexOfLetter(c1);
    LetterIndexOfLetter(c2);
    LetterIndexOfLetter(c3);
    var s := Encode(b);
    assert s == [Letter(c0), Letter(c1), Letter(c2), Letter(c3)] + Encode(rest);
    assert s[4..] == Encode(rest);
  }
}
