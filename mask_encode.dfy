/** Base64 transport of binary masks (module `goripy.mask.encode`).

    The payload is the RLE written as fixed-width little-endian words,
    followed by the shape as eight ASCII digits `"{:04d}{:04d}"`; the whole
    is Base64-encoded. The decoder reads the payload back as 4-byte
    unsigned words. The encoder writes the words in the dtype `mask_to_rle`
    returns, which is numpy's 8-byte integer, so the word width is a
    parameter here: `AsWrittenWidth` is what the encoder does, and
    `IntendedWidth` is what the decoder reads. */
module MaskEncode {
  import opened Results
  import opened Seqs
  import opened PyNum
  import opened Decimal
  import opened Grids
  import opened MaskRle
  import opened Base64

  /** `numpy.int64`, the dtype of `mask_to_rle`'s result. */
  const AsWrittenWidth: nat := 8
  /** `numpy.uint32`, the dtype `decode_mask` reads. */
  const IntendedWidth: nat := 4

  function Pow256(k: nat): (p: nat)
    ensures p >= 1
  {
    if k == 0 then 1 else 256 * Pow256(k - 1)
  }

  /** One integer as `width` little-endian bytes, two's complement (the
      value modulo 256^width). */
  function Word(v: int, width: nat): (b: seq<Byte>)
    ensures |b| == width
    decreases width
  {
    if width == 0 then [] else [v % 256] + Word(v / 256, width - 1)
  }

  /** `arr.tobytes()` on a little-endian host. */
  function WordsBytes(rle: seq<int>, width: nat): (b: seq<Byte>)
    ensures |b| == width * |rle|
  {
    if rle == [] then [] else Word(rle[0], width) + WordsBytes(rle[1..], width)
  }

  /** A little-endian unsigned word. */
  function WordValue(b: seq<Byte>): nat
  {
    if b == [] then 0 else b[0] + 256 * WordValue(b[1..])
  }

  /** `numpy.frombuffer(b, dtype=uint32)`: every 4 bytes one word. The
      decoder rejects a length that is not a multiple of 4 before reading. */
  function ReadWords(b: seq<Byte>): (r: seq<int>)
    ensures NonNeg(r)
  {
    if |b| < 4 then [] else [WordValue(b[..4]) as int] + ReadWords(b[4..])
  }

  /** `s.encode()` for ASCII text. */
  function AsciiBytes(s: string): (b: seq<Byte>)
    requires forall i :: 0 <= i < |s| ==> s[i] as int < 128
    ensures |b| == |s|
  {
    seq(|s|, i requires 0 <= i < |s| => s[i] as int)
  }

  /** `"{:04d}{:04d}".format(h, w)`. */
  function ShapeText(h: nat, w: nat): (s: string)
    ensures IsDigits(s)
    ensures forall i :: 0 <= i < |s| ==> s[i] as int < 128
  {
    ZeroPad(h, 4) + ZeroPad(w, 4)
  }

  /** The bytes before Base64: the RLE words, then the shape digits. */
  function Payload(mask: Grid<bool>, width: nat): (r: Result<seq<Byte>>)
    requires mask.Valid()
    ensures r.Err? <==> mask.h * mask.w == 0
  {
    match MaskToRle(mask)
    case Err(e) => Err(e)
    case Ok(rle) =>
      var shape := ShapeText(mask.h, mask.w);
      Ok(WordsBytes(rle, width) + AsciiBytes(shape))
  }

  /** `encode_mask(mask)` with the RLE written in words of `width` bytes. */
  function EncodeMask(mask: Grid<bool>, width: nat): (r: Result<string>)
    requires mask.Valid()
    ensures r.Err? <==> mask.h * mask.w == 0
  {
    match Payload(mask, width)
    case Err(e) => Err(e)
    case Ok(b) => Ok(Base64.Encode(b))
  }

  /** `bytes.decode()` for bytes below 128; other bytes are refused. */
  function AsciiText(b: seq<Byte>): (r: Result<string>)
    ensures r.Ok? ==> |r.value| == |b| && forall i :: 0 <= i < |b| ==> r.value[i] as int == b[i]
  {
    if forall i :: 0 <= i < |b| ==> b[i] < 128 then Ok(seq(|b|, i requires 0 <= i < |b| => b[i] as char))
    else Err(ValueError)
  }

  /** Python's `t[lo:hi]` on a string. */
  function SliceText(t: string, lo: Option<int>, hi: Option<int>): string
  {
    var bounds := Slice(lo, hi, |t|);
    t[bounds.0..bounds.1]
  }

  /** `b[:-8]` and `b[-8:]`. */
  function SplitShape(b: seq<Byte>): (r: (seq<Byte>, seq<Byte>))
    ensures r.0 + r.1 == b && |r.1| == if |b| < 8 then |b| else 8
  {
    var cut := Slice(None, Some(-8), |b|).1;
    (b[..cut], b[cut..])
  }

  /** `shape_str = b[-8:].decode()` and `(int(shape_str[-8:-4]), int(shape_str[-4:]))`. */
  function ParseShape(suffix: seq<Byte>): (r: Result<(int, int)>)
  {
    match AsciiText(suffix)
    case Err(e) => Err(e)
    case Ok(shape) =>
      match ParseInt(SliceText(shape, Some(-8), Some(-4)))
      case Err(e) => Err(e)
      case Ok(h) =>
        match ParseInt(SliceText(shape, Some(-4), None))
        case Err(e) => Err(e)
        case Ok(w) => Ok((h, w))
  }

  /** `decode_mask(s)` on canonical Base64 text (see `Base64.Decode`): the
      last 8 decoded bytes are the shape, the bytes before them are read as
      4-byte words (a length that is not a multiple of 4 is the ValueError
      `frombuffer` raises). */
  function DecodeMask(s: string): (r: Result<Grid<bool>>)
    ensures r.Ok? ==> r.value.Valid()
  {
    match Base64.Decode(s)
    case Err(e) => Err(e)
    case Ok(b) =>
      var (prefix, suffix) := SplitShape(b);
      if |prefix| % 4 != 0 then Err(ValueError)
      else
        match ParseShape(suffix)
        case Err(e) => Err(e)
        case Ok(shape) => Decoded(ReadWords(prefix), shape.0, shape.1)
  }

  // ---- words ----

  lemma {:induction false} WordValueOfWord(v: nat, width: nat)
    requires v < Pow256(width)
    ensures WordValue(Word(v, width)) == v
  {
    if width > 0 {
      WordValueOfWord(v / 256, width - 1);
    }
  }

  /** Writing a word wider than another is writing the low part, then the high part. */
  lemma {:induction false} WordSplit(v: int, a: nat, b: nat)
    ensures Word(v, a + b) == Word(v, a) + Word(v / Pow256(a), b)
    decreases a
  {
    if a > 0 {
      WordSplit(v / 256, a - 1, b);
      assert (v / 256) / Pow256(a - 1) == v / Pow256(a) by {
        DivDiv(v, 256, Pow256(a - 1));
      }
    }
  }

  lemma DivDiv(v: int, p: nat, q: nat)
    requires p >= 1 && q >= 1
    ensures (v / p) / q == v / (p * q)
  {
    var r := v / p;
    var s := r / q;
    assert v == r * p + v % p;
    assert r == s * q + r % q;
    assert v == s * (p * q) + ((r % q) * p + v % p);
    assert 0 <= (r % q) * p + v % p < p * q by {
      MulStep(r % q, q, p);
    }
    DivUnique(v, p * q, s, (r % q) * p + v % p);
  }

  lemma MulStep(a: int, b: int, h: int)
    ensures a < b && h >= 0 ==> a * h + h <= b * h
  {
    Grids.MulStep(a, b, h);
  }

  lemma DivUnique(v: int, d: nat, q: int, m: int)
    requires d >= 1 && 0 <= m < d && v == q * d + m
    ensures v / d == q
  {
    var q', m' := v / d, v % d;
    Grids.MulStep(q, q', d);
    Grids.MulStep(q', q, d);
  }

  predicate Below(rle: seq<int>, bound: nat)
  {
    forall k :: 0 <= k < |rle| ==> 0 <= rle[k] < bound
  }

  const Word32: nat := 0x1_0000_0000

  lemma Pow256Four()
    ensures Pow256(4) == Word32
  {
  }

  /** 4-byte words read back as written. */
  lemma {:induction false} ReadWordsFour(rle: seq<int>)
    requires Below(rle, Word32)
    ensures ReadWords(WordsBytes(rle, 4)) == rle
  {
    if rle != [] {
      var b := WordsBytes(rle, 4);
      assert b[..4] == Word(rle[0], 4);
      assert b[4..] == WordsBytes(rle[1..], 4);
      Pow256Four();
      WordValueOfWord(rle[0], 4);
      ReadWordsFour(rle[1..]);
    }
  }

  /** Every value followed by a zero: `[r0, 0, r1, 0, ...]`. */
  function Interleave(rle: seq<int>): (r: seq<int>)
    ensures |r| == 2 * |rle|
  {
    if rle == [] then [] else [rle[0], 0] + Interleave(rle[1..])
  }

  /** 8-byte words read as 4-byte words: each value, then its (zero) high half. */
  lemma {:induction false} ReadWordsEight(rle: seq<int>)
    requires Below(rle, Word32)
    ensures ReadWords(WordsBytes(rle, 8)) == Interleave(rle)
  {
    if rle != [] {
      var rest := WordsBytes(rle[1..], 8);
      assert WordsBytes(rle, 8) == Word(rle[0], 8) + rest;
      ReadWordEight(rle[0], rest);
      ReadWordsEight(rle[1..]);
    }
  }

  /** One value below 2^32 written as an 8-byte word reads back as the
      value and a zero. */
  lemma ReadWordEight(v: int, rest: seq<Byte>)
    requires 0 <= v < Word32
    ensures ReadWords(Word(v, 8) + rest) == [v, 0] + ReadWords(rest)
  {
    var lo, hi := EightByteWord(v);
    var tail := hi + rest;
    assert Word(v, 8) + rest == lo + tail;
    ReadOneWord(lo, tail);
    ReadOneWord(hi, rest);
  }

  /** An 8-byte word of a value below 2^32: the value's 4-byte word, then zeros. */
  lemma EightByteWord(v: int) returns (lo: seq<Byte>, hi: seq<Byte>)
    requires 0 <= v < Word32
    ensures Word(v, 8) == lo + hi && |lo| == 4 && |hi| == 4
    ensures WordValue(lo) == v && WordValue(hi) == 0
  {
    lo, hi := Word(v, 4), Word(0, 4);
    assert Word(v, 8) == lo + hi by {
      Pow256Four();
      WordSplit(v, 4, 4);
      assert v / Pow256(4) == 0;
    }
    assert WordValue(lo) == v by {
      Pow256Four();
      WordValueOfWord(v, 4);
    }
    assert WordValue(hi) == 0 by {
      WordValueOfWord(0, 4);
    }
  }

  /** A length of `k` 4-byte words is a multiple of 4. */
  lemma WholeWords(k: int)
    ensures (4 * k) % 4 == 0
  {
  }

  lemma ReadOneWord(x: seq<Byte>, rest: seq<Byte>)
    requires |x| == 4
    ensures ReadWords(x + rest) == [WordValue(x) as int] + ReadWords(rest)
  {
    var b := x + rest;
    assert b[..4] == x && b[4..] == rest;
  }

  // ---- shape suffix ----

  lemma ShapeLength(h: nat, w: nat)
    requires h <= 9999 && w <= 9999
    ensures |ShapeText(h, w)| == 8
    ensures ShapeText(h, w)[..4] == ZeroPad(h, 4) && ShapeText(h, w)[4..] == ZeroPad(w, 4)
  {
    FourDigits(h);
    FourDigits(w);
  }

  lemma AsciiRoundTrip(s: string)
    requires forall i :: 0 <= i < |s| ==> s[i] as int < 128
    ensures AsciiText(AsciiBytes(s)) == Ok(s)
  {
    var b := AsciiBytes(s);
    var t := seq(|b|, i requires 0 <= i < |b| => b[i] as char);
    assert t == s;
  }

  /** Eight shape digits parse back to the shape. */
  lemma ParseShapeText(h: nat, w: nat)
    requires h <= 9999 && w <= 9999
    ensures ParseShape(AsciiBytes(ShapeText(h, w))) == Ok((h as int, w as int))
  {
    var shape := ShapeText(h, w);
    ShapeLength(h, w);
    AsciiRoundTrip(shape);
    assert SliceText(shape, Some(-8), Some(-4)) == ZeroPad(h, 4);
    assert SliceText(shape, Some(-4), None) == ZeroPad(w, 4);
    ParseZeroPad(h, 4);
    ParseZeroPad(w, 4);
  }

  /** The decoder's view of a payload: the RLE words and the shape. */
  lemma DecodePayload(words: seq<Byte>, h: nat, w: nat)
    requires h <= 9999 && w <= 9999 && |words| % 4 == 0
    ensures DecodeMask(Base64.Encode(words + AsciiBytes(ShapeText(h, w)))) == Decoded(ReadWords(words), h, w)
  {
    var sb := AsciiBytes(ShapeText(h, w));
    var b := words + sb;
    DecodeEncode(b);
    ShapeLength(h, w);
    assert SplitShape(b) == (words, sb);
    ParseShapeText(h, w);
  }

  /** With 4-byte words (what the decoder reads), decoding an encoded mask
      gives it back whenever both dimensions fit in four digits. */
  lemma RoundTripIntended(mask: Grid<bool>)
    requires mask.Valid() && mask.h * mask.w >= 1
    requires mask.h <= 9999 && mask.w <= 9999
    ensures EncodeMask(mask, IntendedWidth).Ok?
    ensures DecodeMask(EncodeMask(mask, IntendedWidth).value) == Ok(mask)
  {
    var rle := MaskToRle(mask).value;
    RunsBelow(mask);
    ReadWordsFour(rle);
    DecodePayload(WordsBytes(rle, 4), mask.h, mask.w);
    RoundTrip(mask);
  }

  /** The runs of a mask of at most 9999 by 9999 cells fit in 32 bits. */
  lemma RunsBelow(mask: Grid<bool>)
    requires mask.Valid() && mask.h * mask.w >= 1
    requires mask.h <= 9999 && mask.w <= 9999
    ensures Below(MaskToRle(mask).value, Word32)
  {
    var rle := MaskToRle(mask).value;
    EncodeFlatRuns(mask.cells);
    assert mask.h * mask.w <= 9999 * 9999 by {
      Grids.MulStep(mask.h, 10000, mask.w);
      Grids.MulStep(mask.w, 10000, 9999);
    }
    forall k | 0 <= k < |rle| ensures rle[k] <= Sum(rle) {
      PartLeSum(rle, k);
    }
  }

  lemma {:induction false} PartLeSum(s: seq<int>, k: nat)
    requires NonNeg(s) && k < |s|
    ensures s[k] <= Sum(s)
  {
    var pre := s[..|s| - 1];
    SumNonNeg(pre);
    if k < |s| - 1 {
      PartLeSum(pre, k);
    }
  }

  /** When every true run is empty, the expansion is all false. */
  lemma {:induction false} ExpandNoTrue(rle: seq<int>)
    requires NonNeg(rle) && forall k :: 0 <= k < |rle| / 2 ==> rle[2 * k + 1] == 0
    ensures forall p :: 0 <= p < |Expand(rle, false)| ==> !Expand(rle, false)[p]
  {
    if |rle| >= 2 {
      var rest := rle[2..];
      forall k | 0 <= k < |rest| / 2 ensures rest[2 * k + 1] == 0 {
        assert rest[2 * k + 1] == rle[2 * (k + 1) + 1];
      }
      ExpandNoTrue(rest);
      assert rle == [rle[0], rle[1]] + rest;
      ExpandAppend([rle[0], rle[1]], rest, false);
      assert [rle[0], rle[1]][1..] == [rle[1]];
      assert [rle[1]][1..] == [];
      assert rle[2 * 0 + 1] == 0;
      assert Expand([rle[1]], true) == Repeat(true, 0) + Expand([], false);
    } else if |rle| == 1 {
      assert rle[1..] == [];
      assert Expand(rle, false) == Repeat(false, rle[0]) + Expand([], true);
    }
  }

  lemma InterleaveNoTrue(rle: seq<int>)
    requires NonNeg(rle)
    ensures NonNeg(Interleave(rle))
    ensures forall k :: 0 <= k < |Interleave(rle)| / 2 ==> Interleave(rle)[2 * k + 1] == 0
  {
    if rle != [] {
      InterleaveNoTrue(rle[1..]);
      var r := Interleave(rle);
      forall k | 0 <= k < |r| / 2 ensures r[2 * k + 1] == 0 {
        if k > 0 {
          assert r[2 * k + 1] == Interleave(rle[1..])[2 * (k - 1) + 1];
        }
      }
    }
  }

  /** Runs whose true parts are all empty decode to an all-false grid. */
  lemma DecodedNoTrue(rle: seq<int>, h: nat, w: nat)
    requires NonNeg(rle) && forall k :: 0 <= k < |rle| / 2 ==> rle[2 * k + 1] == 0
    ensures Decoded(rle, h, w) == Ok(Full(h, w, false))
  {
    ExpandNoTrue(rle);
    PaintedRuns(rle, h * w);
    var g := Grid(h, w, Painted(rle, h * w, |rle| / 2));
    var f := Full(h, w, false);
    forall i: nat, j: nat | i < h && j < w ensures g.At(i, j) == f.At(i, j) {
      Index(i, j, h, w);
      assert g.At(i, j) == g.cells[j * h + i];
    }
    Extensional(g, f);
  }

  /** As written, with 8-byte words: every decoded pair has an empty true run,
      so any mask of at most 9999 by 9999 cells comes back all false. */
  lemma DecodeAsWritten(mask: Grid<bool>)
    requires mask.Valid() && mask.h * mask.w >= 1
    requires mask.h <= 9999 && mask.w <= 9999
    ensures EncodeMask(mask, AsWrittenWidth).Ok?
    ensures DecodeMask(EncodeMask(mask, AsWrittenWidth).value) == Ok(Full(mask.h, mask.w, false))
  {
    var h, w := mask.h, mask.w;
    var rle := MaskToRle(mask).value;
    var words := WordsBytes(rle, AsWrittenWidth);
    var text := Base64.Encode(words + AsciiBytes(ShapeText(h, w)));
    assert EncodeMask(mask, AsWrittenWidth) == Ok(text);
    assert ReadWords(words) == Interleave(rle) by {
      RunsBelow(mask);
      ReadWordsEight(rle);
    }
    assert DecodeMask(text) == Decoded(ReadWords(words), h, w) by {
      WholeWords(2 * |rle|);
      DecodePayload(words, h, w);
    }
    assert Decoded(Interleave(rle), h, w) == Ok(Full(h, w, false)) by {
      EncodeFlatRuns(mask.cells);
      InterleaveNoTrue(rle);
      DecodedNoTrue(Interleave(rle), h, w);
    }
  }

  /** The smallest mask that shows the word-width mismatch: one true cell
      decodes as one false cell. */
  lemma AsWrittenLosesSingleCell(m: Grid<bool>)
    requires m == Grid(1, 1, [true])
    ensures DecodeMask(EncodeMask(m, AsWrittenWidth).value) == Ok(Grid(1, 1, [false]))
  {
    assert m.Valid() && m.h * m.w >= 1;
    DecodeAsWritten(m);
    assert Full(1, 1, false) == Grid(1, 1, [false]) by {
      Extensional(Full(1, 1, false), Grid(1, 1, [false]));
    }
  }

  /** Eight ASCII digits parse to two numbers of at most 9999 each. */
  lemma ParseShapeDigits(suffix: seq<Byte>)
    requires |suffix| == 8 && forall i :: 0 <= i < 8 ==> '0' as int <= suffix[i] <= '9' as int
    ensures ParseShape(suffix).Ok?
    ensures 0 <= ParseShape(suffix).value.0 <= 9999 && 0 <= ParseShape(suffix).value.1 <= 9999
  {
    var text := AsciiText(suffix).value;
    assert IsDigits(text);
    var hs, ws := SliceText(text, Some(-8), Some(-4)), SliceText(text, Some(-4), None);
    assert hs == text[0..4] && ws == text[4..8];
    ValueBound(hs);
    ValueBound(ws);
    assert Pow10(4) == 10000;
  }

  /** A dimension above 9999 makes the shape text longer than 8 digits; the
      decoder then never returns a mask of the original shape. */
  lemma LargeShapeMisread(mask: Grid<bool>, width: nat)
    requires mask.Valid() && mask.h * mask.w >= 1
    requires mask.h > 9999 || mask.w > 9999
    ensures EncodeMask(mask, width).Ok?
    ensures var r := DecodeMask(EncodeMask(mask, width).value);
      r.Ok? ==> r.value.h != mask.h || r.value.w != mask.w
  {
    var b := Payload(mask, width).value;
    assert EncodeMask(mask, width) == Ok(Base64.Encode(b));
    assert Base64.Decode(Base64.Encode(b)) == Ok(b) by {
      DecodeEncode(b);
    }
    SuffixOfLargeShape(mask, width);
  }

  /** The last 8 bytes of the payload of a mask with a dimension above
      9999 are digits, and parse to two numbers of at most 9999. */
  lemma SuffixOfLargeShape(mask: Grid<bool>, width: nat)
    requires mask.Valid() && mask.h * mask.w >= 1
    requires mask.h > 9999 || mask.w > 9999
    ensures var suffix := SplitShape(Payload(mask, width).value).1;
      ParseShape(suffix).Ok? && ParseShape(suffix).value.0 <= 9999 && ParseShape(suffix).value.1 <= 9999
  {
    var b := Payload(mask, width).value;
    var shape := ShapeText(mask.h, mask.w);
    assert |shape| > 8 by {
      FourDigits(mask.h);
      FourDigits(mask.w);
    }
    var words := WordsBytes(MaskToRle(mask).value, width);
    var sb := AsciiBytes(shape);
    assert b == words + sb;
    var suffix := SplitShape(b).1;
    assert suffix == sb[|sb| - 8..] by {
      SuffixOfAppend(words, sb);
    }
    forall i | 0 <= i < 8 ensures '0' as int <= suffix[i] <= '9' as int {
      assert suffix[i] == sb[|sb| - 8 + i];
    }
    ParseShapeDigits(suffix);
  }

  lemma SuffixOfAppend(words: seq<Byte>, sb: seq<Byte>)
    requires |sb| >= 8
    ensures SplitShape(words + sb).1 == sb[|sb| - 8..]
  {
    var b := words + sb;
    assert b[|b| - 8..] == sb[|sb| - 8..];
  }
}
