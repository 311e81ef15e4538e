/** Decimal text: `str(n)`, `"{:0Nd}".format(n)`, and `int(s)` and
    `float(s)` on literals of ASCII digits (with `_` between digits), an
    optional sign, surrounding whitespace and (for `float`) an optional
    decimal point. */
module Decimal {
  import opened Results
  import Strings

  predicate IsDigit(c: char)
  {
    '0' <= c <= '9'
  }

  predicate IsDigits(s: string)
  {
    forall i :: 0 <= i < |s| ==> IsDigit(s[i])
  }

  function DigitChar(d: nat): (c: char)
    requires d < 10
    ensures IsDigit(c)
  {
    ('0' as int + d) as char
  }

  function DigitValue(c: char): (d: nat)
    requires IsDigit(c)
    ensures d < 10 && DigitChar(d) == c
  {
    c as int - '0' as int
  }

  /** `str(n)`: the shortest decimal spelling, no leading zeros. */
  function ToDecimal(n: nat): (s: string)
    ensures |s| >= 1 && IsDigits(s)
    ensures |s| == 1 || s[0] != '0'
  {
    if n < 10 then [DigitChar(n)] else ToDecimal(n / 10) + [DigitChar(n % 10)]
  }

  /** The value of a digit string, most significant digit first. */
  function Value(s: string): nat
    requires IsDigits(s)
  {
    if s == [] then 0 else 10 * Value(s[..|s| - 1]) + DigitValue(s[|s| - 1])
  }

  /** `int(s)` for the strings the model produces: a non-empty run of ASCII
      digits; anything else is the ValueError Python raises. */
  function ParseNat(s: string): (r: Result<nat>)
    ensures r.Ok? <==> |s| >= 1 && IsDigits(s)
  {
    if |s| >= 1 && IsDigits(s) then Ok(Value(s)) else Err(ValueError)
  }

  /** `"{:0Nd}".format(n)`: left-padded with zeros to at least `width` characters. */
  function ZeroPad(n: nat, width: nat): (s: string)
    ensures IsDigits(s)
    ensures |s| == if |ToDecimal(n)| >= width then |ToDecimal(n)| else width
  {
    var d := ToDecimal(n);
    if |d| >= width then d else seq(width - |d|, _ => '0') + d
  }

  lemma {:induction false} ValueOfToDecimal(n: nat)
    ensures Value(ToDecimal(n)) == n
  {
    if n >= 10 {
      var s := ToDecimal(n);
      assert s[..|s| - 1] == ToDecimal(n / 10);
      ValueOfToDecimal(n / 10);
    }
  }

  /** Parsing undoes printing. */
  lemma ParseToDecimal(n: nat)
    ensures ParseNat(ToDecimal(n)) == Ok(n)
  {
    ValueOfToDecimal(n);
  }

  /** A leading zero does not change the value. */
  lemma {:induction false} ValueLeadingZero(s: string)
    requires IsDigits(s)
    ensures Value(['0'] + s) == Value(s)
    decreases |s|
  {
    if s != [] {
      var t := ['0'] + s;
      assert t[..|t| - 1] == ['0'] + s[..|s| - 1];
      ValueLeadingZero(s[..|s| - 1]);
    }
  }

  lemma {:induction false} ValueLeadingZeros(k: nat, s: string)
    requires IsDigits(s)
    ensures Value(seq(k, _ => '0') + s) == Value(s)
  {
    if k > 0 {
      var z := seq(k, _ => '0');
      assert z + s == ['0'] + (seq(k - 1, _ => '0') + s);
      ValueLeadingZeros(k - 1, s);
      ValueLeadingZero(seq(k - 1, _ => '0') + s);
    } else {
      assert seq(k, _ => '0') + s == s;
    }
  }

  /** Parsing a zero-padded number gives the number back. */
  lemma ParseZeroPad(n: nat, width: nat)
    ensures ParseNat(ZeroPad(n, width)) == Ok(n)
  {
    var d := ToDecimal(n);
    ValueOfToDecimal(n);
    if |d| < width {
      ValueLeadingZeros(width - |d|, d);
    }
  }

  lemma {:induction false} ToDecimalLength(n: nat, k: nat)
    requires n < Pow10(k)
    ensures |ToDecimal(n)| <= if k == 0 then 1 else k
  {
    if n >= 10 {
      ToDecimalLength(n / 10, k - 1);
    }
  }

  lemma {:induction false} ToDecimalLengthAtLeast(n: nat, k: nat)
    requires Pow10(k) <= n
    ensures |ToDecimal(n)| >= k + 1
  {
    if k > 0 {
      ToDecimalLengthAtLeast(n / 10, k - 1);
    }
  }

  function Pow10(k: nat): (p: nat)
    ensures p >= 1
  {
    if k == 0 then 1 else 10 * Pow10(k - 1)
  }

  /** `n` has at most four digits exactly when it is at most 9999. */
  lemma FourDigits(n: nat)
    ensures |ToDecimal(n)| <= 4 <==> n <= 9999
  {
    assert Pow10(4) == 10000;
    if n <= 9999 {
      ToDecimalLength(n, 4);
    } else {
      ToDecimalLengthAtLeast(n, 4);
    }
  }

  /** `s.strip()`: the whitespace `int` and `float` ignore around a literal. */
  function Strip(s: string): (r: string)
    ensures |r| <= |s|
    ensures r == [] || (!Strings.IsSpace(r[0]) && !Strings.IsSpace(r[|r| - 1]))
    ensures s == [] || (!Strings.IsSpace(s[0]) && !Strings.IsSpace(s[|s| - 1])) ==> r == s
    decreases |s|
  {
    if s == [] then []
    else if Strings.IsSpace(s[0]) then Strip(s[1..])
    else if Strings.IsSpace(s[|s| - 1]) then Strip(s[..|s| - 1])
    else s
  }

  /** A literal that starts with a sign or digit and ends with a digit is
      left alone. */
  lemma StripLiteral(s: string)
    requires |s| >= 1 && (IsDigit(s[0]) || s[0] == '-' || s[0] == '+') && IsDigit(s[|s| - 1])
    ensures Strip(s) == s
  {
  }

  /** A whitespace character at either end does not change the stripped text. */
  lemma {:induction false} StripSpace(s: string, c: char)
    requires Strings.IsSpace(c)
    ensures Strip([c] + s) == Strip(s) && Strip(s + [c]) == Strip(s)
    decreases |s|
  {
    assert ([c] + s)[1..] == s;
    if s != [] {
      if Strings.IsSpace(s[0]) {
        assert (s + [c])[1..] == s[1..] + [c];
        StripSpace(s[1..], c);
      } else {
        assert (s + [c])[..|s + [c]| - 1] == s;
      }
    } else {
      assert s + [c] == [c];
    }
  }

  predicate DigitsOrUnderscores(s: string)
  {
    forall i :: 0 <= i < |s| ==> IsDigit(s[i]) || s[i] == '_'
  }

  /** The digits of a Python numeric literal: ASCII digits in groups joined
      by single underscores (`"1_000"`, but not `"_1"`, `"1_"` or `"1__0"`). */
  predicate IsGroupedDigits(s: string)
  {
    |s| >= 1 && IsDigit(s[0]) && IsDigit(s[|s| - 1]) && DigitsOrUnderscores(s) &&
    forall i :: 0 <= i < |s| - 1 && s[i] == '_' ==> s[i + 1] != '_'
  }

  /** The digits of a literal with its underscores dropped. */
  function Ungrouped(s: string): (d: string)
    requires DigitsOrUnderscores(s)
    ensures IsDigits(d) && |d| <= |s|
    ensures IsDigits(s) ==> d == s
    ensures |s| >= 1 && IsDigit(s[0]) ==> |d| >= 1
  {
    UngroupedDigits(s);
    Strings.Remove(s, '_')
  }

  lemma {:induction false} UngroupedDigits(s: string)
    requires DigitsOrUnderscores(s)
    ensures IsDigits(Strings.Remove(s, '_')) && |Strings.Remove(s, '_')| <= |s|
    ensures IsDigits(s) ==> Strings.Remove(s, '_') == s
    ensures |s| >= 1 && IsDigit(s[0]) ==> |Strings.Remove(s, '_')| >= 1
  {
    if s != [] {
      UngroupedDigits(s[1..]);
    }
    if IsDigits(s) {
      Strings.RemoveAvoiding(s, '_');
    }
  }

  /** `int(s)` for the body of a literal without sign or whitespace, read
      from the right: the last character is a digit, and a `_` may stand
      just before it when more digits precede. */
  function ParseGrouped(s: string): (r: Result<nat>)
    ensures IsDigits(s) ==> r == ParseNat(s)
    decreases |s|
  {
    if |s| == 0 || !IsDigit(s[|s| - 1]) then Err(ValueError)
    else
      var d := DigitValue(s[|s| - 1]);
      if |s| == 1 then ValueDigit(s); Ok(d)
      else
        var rest := if s[|s| - 2] == '_' then s[..|s| - 2] else s[..|s| - 1];
        assert IsDigits(s) ==> IsDigits(rest) && rest == s[..|s| - 1];
        match ParseGrouped(rest)
        case Ok(v) => Ok(10 * v + d)
        case Err(e) => Err(e)
  }

  lemma ValueDigit(s: string)
    requires |s| == 1 && IsDigit(s[0])
    ensures Value(s) == DigitValue(s[0])
  {
    assert s[..0] == [];
  }

  /** The right-to-left reader accepts exactly the grouped digit strings,
      and reads the value of their digits. */
  lemma {:induction false} ParseGroupedSpec(s: string)
    ensures ParseGrouped(s).Ok? <==> IsGroupedDigits(s)
    ensures ParseGrouped(s).Ok? ==> ParseGrouped(s).value == Value(Ungrouped(s))
    decreases |s|
  {
    var n := |s|;
    if n == 0 || !IsDigit(s[n - 1]) {
    } else if n == 1 {
      assert IsDigits(s);
    } else {
      var k := if s[n - 2] == '_' then n - 2 else n - 1;
      ParseGroupedSpec(s[..k]);
      GroupedStep(s, k);
      if IsGroupedDigits(s) {
        UngroupedStep(s, k);
      }
    }
  }

  /** The digits of a grouped string are those before its last digit, then that digit. */
  lemma UngroupedStep(s: string, k: nat)
    requires |s| >= 2 && IsGroupedDigits(s)
    requires k == if s[|s| - 2] == '_' then |s| - 2 else |s| - 1
    ensures DigitsOrUnderscores(s[..k])
    ensures Value(Ungrouped(s)) == 10 * Value(Ungrouped(s[..k])) + DigitValue(s[|s| - 1])
  {
    var n := |s|;
    var x := s[n - 1];
    var rest := s[..k];
    assert s == rest + s[k..n - 1] + [x];
    Strings.RemoveAppend(rest + s[k..n - 1], [x], '_');
    Strings.RemoveAppend(rest, s[k..n - 1], '_');
    assert Strings.Remove(s[k..n - 1], '_') == [];
    assert Strings.Remove([x], '_') == [x];
    var u := Ungrouped(rest);
    assert Ungrouped(s) == u + [x];
    assert (u + [x])[..|u + [x]| - 1] == u;
  }

  /** Dropping the last digit, and the `_` before it, keeps a string
      grouped exactly when it was. */
  lemma GroupedStep(s: string, k: nat)
    requires |s| >= 2 && IsDigit(s[|s| - 1])
    requires k == if s[|s| - 2] == '_' then |s| - 2 else |s| - 1
    ensures IsGroupedDigits(s) <==> IsGroupedDigits(s[..k])
  {
    var rest := s[..k];
    if IsGroupedDigits(s) {
      assert IsDigit(rest[0]);
      if k == |s| - 2 {
        assert s[k - 1] != '_';
      }
      assert IsDigit(rest[|rest| - 1]);
    }
    if IsGroupedDigits(rest) {
      assert forall i :: 0 <= i < k ==> s[i] == rest[i];
      assert s[0] == rest[0];
    }
  }

  /** `int(s)`: surrounding whitespace, then an optional sign, then ASCII
      digits with single `_` between them. Every other string is the
      ValueError Python raises, except non-ASCII digits, which Python also
      accepts. */
  function ParseInt(s: string): (r: Result<int>)
    ensures IsDigits(s) ==> r == (match ParseNat(s) case Ok(n) => Ok(n as int) case Err(e) => Err(e))
  {
    ParseSignedInt(Strip(s))
  }

  /** `int` on a stripped literal: an optional sign, then digit groups. */
  function ParseSignedInt(t: string): (r: Result<int>)
    ensures IsDigits(t) ==> r == (match ParseNat(t) case Ok(n) => Ok(n as int) case Err(e) => Err(e))
  {
    if |t| >= 1 && (t[0] == '-' || t[0] == '+') then
      match ParseGrouped(t[1..])
      case Ok(n) => Ok(if t[0] == '-' then -(n as int) else n as int)
      case Err(e) => Err(e)
    else
      match ParseGrouped(t)
      case Ok(n) => Ok(n as int)
      case Err(e) => Err(e)
  }

  /** Whitespace around the literal does not change what `int` reads. */
  lemma ParseIntSpace(s: string, c: char)
    requires Strings.IsSpace(c)
    ensures ParseInt([c] + s) == ParseInt(s) && ParseInt(s + [c]) == ParseInt(s)
  {
    StripSpace(s, c);
  }

  /** An underscore between two digit groups does not change what `int` reads. */
  lemma ParseIntUnderscore(a: string, b: string)
    requires |a| >= 1 && |b| >= 1 && IsDigits(a) && IsDigits(b)
    ensures ParseInt(a + "_" + b) == ParseInt(a + b)
  {
    var s := a + "_" + b;
    assert s[0] == a[0] && s[|s| - 1] == b[|b| - 1];
    assert (a + b)[0] == a[0] && (a + b)[|a + b| - 1] == b[|b| - 1];
    ReadDigitLed(s);
    ReadDigitLed(a + b);
    GroupedUnderscore(a, b);
  }

  /** A literal that starts and ends with a digit is read as digit groups alone. */
  lemma ReadDigitLed(s: string)
    requires |s| >= 1 && IsDigit(s[0]) && IsDigit(s[|s| - 1])
    ensures ParseInt(s) == (match ParseGrouped(s) case Ok(n) => Ok(n as int) case Err(e) => Err(e))
  {
    StripLiteral(s);
  }

  lemma GroupedUnderscore(a: string, b: string)
    requires |a| >= 1 && |b| >= 1 && IsDigits(a) && IsDigits(b)
    ensures ParseGrouped(a + "_" + b) == ParseGrouped(a + b)
  {
    GroupedJoin(a, b);
    assert IsDigits(a + b);
    ParseGroupedSpec(a + "_" + b);
    ParseGroupedSpec(a + b);
  }

  /** Two digit groups joined by `_` form a literal whose digits are both groups. */
  lemma GroupedJoin(a: string, b: string)
    requires |a| >= 1 && |b| >= 1 && IsDigits(a) && IsDigits(b)
    ensures IsGroupedDigits(a + "_" + b) && Ungrouped(a + "_" + b) == a + b
  {
    JoinShape(a, b);
    JoinRemove(a, b);
  }

  lemma JoinShape(a: string, b: string)
    requires |a| >= 1 && |b| >= 1 && IsDigits(a) && IsDigits(b)
    ensures IsGroupedDigits(a + "_" + b)
  {
    var s := a + "_" + b;
    forall i | 0 <= i < |s| ensures (IsDigit(s[i]) && s[i] != '_') || i == |a| {
      if i < |a| {
        assert s[i] == a[i];
      } else if i > |a| {
        assert s[i] == b[i - |a| - 1];
      }
    }
    assert s[|a|] == '_';
  }

  lemma JoinRemove(a: string, b: string)
    requires IsDigits(a) && IsDigits(b)
    ensures Strings.Remove(a + "_" + b, '_') == a + b
  {
    Strings.RemoveAppend(a + "_", b, '_');
    Strings.RemoveAppend(a, "_", '_');
    Strings.RemoveAvoiding(a, '_');
    Strings.RemoveAvoiding(b, '_');
    assert Strings.Remove("_", '_') == "";
  }

  /** A digit string is less than ten to the power of its length. */
  lemma {:induction false} ValueBound(s: string)
    requires IsDigits(s)
    ensures Value(s) < Pow10(|s|)
  {
    if s != [] {
      ValueBound(s[..|s| - 1]);
    }
  }

  /** `str(n)` for any integer. */
  function IntToDecimal(n: int): (s: string)
    ensures |s| >= 1 && forall i :: 0 <= i < |s| ==> IsDigit(s[i]) || s[i] == '-'
  {
    if n < 0 then "-" + ToDecimal(-n) else ToDecimal(n)
  }

  /** Parsing undoes printing, for every integer. */
  lemma ParseIntToDecimal(n: int)
    ensures ParseInt(IntToDecimal(n)) == Ok(n)
  {
    var s := IntToDecimal(n);
    var d := ToDecimal(if n < 0 then -n else n);
    assert s[|s| - 1] == d[|d| - 1];
    StripLiteral(s);
    NumeralToDecimal(n);
    NumeralIsInt(s);
  }

  /** The integers `str` prints: an optional `-` or `+`, then ASCII digits,
      nothing else. */
  function ParseNumeral(s: string): (r: Result<int>)
    ensures IsDigits(s) ==> r == (match ParseNat(s) case Ok(n) => Ok(n as int) case Err(e) => Err(e))
  {
    if |s| >= 1 && (s[0] == '-' || s[0] == '+') then
      match ParseNat(s[1..])
      case Ok(n) => Ok(if s[0] == '-' then -(n as int) else n as int)
      case Err(e) => Err(e)
    else
      match ParseNat(s)
      case Ok(n) => Ok(n as int)
      case Err(e) => Err(e)
  }

  /** A numeral reads the same under `int`. */
  lemma NumeralIsInt(s: string)
    requires ParseNumeral(s).Ok?
    ensures ParseSignedInt(s) == ParseNumeral(s)
  {
  }

  /** The printed form of an integer reads back as a numeral. */
  lemma NumeralToDecimal(n: int)
    ensures ParseNumeral(IntToDecimal(n)) == Ok(n)
  {
    if n < 0 {
      var d := ToDecimal(-n);
      assert ("-" + d)[1..] == d;
      ParseToDecimal(-n);
    } else {
      ParseToDecimal(n);
    }
  }

  /** The index of the first `.`, or `|s|` when there is none. */
  function DotIndex(s: string): (k: nat)
    ensures k <= |s| && (k < |s| ==> s[k] == '.')
    ensures forall i :: 0 <= i < k ==> s[i] != '.'
  {
    if s == [] then 0 else if s[0] == '.' then 0 else 1 + DotIndex(s[1..])
  }

  lemma DigitsHaveNoDot(s: string)
    ensures IsDigits(s) ==> DotIndex(s) == |s| && s[..DotIndex(s)] == s
  {
    if IsDigits(s) {
      assert forall i :: 0 <= i < |s| ==> s[i] != '.';
    }
  }

  /** `float(s)` without sign or whitespace: digit groups, optionally a
      point and more digit groups, with at least one digit in all (`"3"`,
      `"3."`, `".5"`, `"3.25"`, `"1_000.5"`). */
  function ParseUnsignedReal(s: string): (r: Result<real>)
    ensures IsDigits(s) && |s| >= 1 ==> r == Ok(Value(s) as real)
  {
    DigitsHaveNoDot(s);
    var k := DotIndex(s);
    var ip := s[..k];
    var fp := if k < |s| then s[k + 1..] else "";
    if (ip == [] || IsGroupedDigits(ip)) && (fp == [] || IsGroupedDigits(fp)) && |ip| + |fp| >= 1 then
      var i, f := Ungrouped(ip), Ungrouped(fp);
      Ok(Value(i) as real + Value(f) as real / Pow10(|f|) as real)
    else Err(ValueError)
  }

  /** `float(s)`: surrounding whitespace, an optional sign, then digits
      with at most one `.` and at least one digit, `_` allowed between
      digits. The value is exact. Exponents, `inf` and `nan` are left out
      (a ValueError here). */
  function ParseReal(s: string): (r: Result<real>)
    ensures IsDigits(s) && |s| >= 1 ==> r == Ok(Value(s) as real)
  {
    ParseSignedReal(Strip(s))
  }

  /** `float` on a stripped literal: an optional sign, then the unsigned literal. */
  function ParseSignedReal(t: string): (r: Result<real>)
    ensures IsDigits(t) && |t| >= 1 ==> r == Ok(Value(t) as real)
  {
    if |t| >= 1 && (t[0] == '-' || t[0] == '+') then
      match ParseUnsignedReal(t[1..])
      case Ok(x) => Ok(if t[0] == '-' then -x else x)
      case Err(e) => Err(e)
    else ParseUnsignedReal(t)
  }

  /** Whitespace around the literal does not change what `float` reads. */
  lemma ParseRealSpace(s: string, c: char)
    requires Strings.IsSpace(c)
    ensures ParseReal([c] + s) == ParseReal(s) && ParseReal(s + [c]) == ParseReal(s)
  {
    StripSpace(s, c);
  }

  /** `float(str(n)) == n`. */
  lemma ParseRealToDecimal(n: nat)
    ensures ParseReal(ToDecimal(n)) == Ok(n as real)
  {
    ValueOfToDecimal(n);
  }
}
