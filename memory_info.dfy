/** Byte-size formatting (module `goripy.memory.info`). The number of
    bytes is modelled as an exact real. */
module MemoryInfo {
  import opened Results
  import opened PyNum
  import opened Decimal

  /** The unit names, one per power of 1024. */
  const Units: seq<string> := ["B", "KiB", "MiB", "GiB"]

  function Pow1024(k: nat): (p: real)
    ensures p >= 1.0
  {
    if k == 0 then 1.0 else 1024.0 * Pow1024(k - 1)
  }

  /** Dividing a value above 1024 by 1024 lowers its whole part. */
  lemma Shrinks(num: real)
    requires num > 1024.0
    ensures num.Floor >= 0
    ensures num / 1024.0 > 1024.0 ==> (num / 1024.0).Floor < num.Floor
  {
    assert num / 1024.0 <= num - 1.0;
  }

  /** The `while` loop of `sprint_fancy_num_bytes` from value `num` at unit
      index `idx`: the value and unit index it stops at. The loop goes on
      while the value is above 1024 or, when a unit is requested, while the
      unit at `idx` is not the requested one. Reading `units[idx]` past the
      last unit, in the loop test or in the format call after it, is an
      IndexError. */
  function UnitScan(num: real, unit: Option<string>, idx: nat): (r: Result<(real, nat)>)
    ensures r.Err? ==> r.error == IndexError
    ensures r.Ok? ==> idx <= r.value.1 < |Units| && r.value.0 <= 1024.0
    ensures r.Ok? && unit.Some? ==> Units[r.value.1] == unit.value
    decreases if num > 1024.0 then num.Floor else 0, 4 - idx
  {
    if num > 1024.0 then
      Shrinks(num);
      UnitScan(num / 1024.0, unit, idx + 1)
    else if unit.None? then
      if idx < |Units| then Ok((num, idx)) else Err(IndexError)
    else if idx >= |Units| then Err(IndexError)
    else if unit.value == Units[idx] then Ok((num, idx))
    else UnitScan(num / 1024.0, unit, idx + 1)
  }

  /** `"{:.2f}".format(v)`: the value rounded to hundredths (ties to even on
      the exact value), the sign kept even when the rounded value is zero. */
  function Fixed2(v: real): (s: string)
  {
    var a := (if v < 0.0 then -v else v) * 100.0;
    RoundAbove(a, 0);
    var n: nat := RoundHalfEven(a);
    (if v < 0.0 then "-" else "") + ToDecimal(n / 100) + "." + ZeroPad(n % 100, 2)
  }

  /** `"{:3s}".format(s)`: left-justified in a field of width 3. */
  function LJust3(s: string): (r: string)
    ensures |r| == if |s| >= 3 then |s| else 3
    ensures r[..|s|] == s && forall i :: |s| <= i < |r| ==> r[i] == ' '
  {
    if |s| >= 3 then s else s + seq(3 - |s|, _ => ' ')
  }

  /** `sprint_fancy_num_bytes(num_bytes, unit)`. */
  function FancyNumBytes(x: real, unit: Option<string>): Result<string>
  {
    match UnitScan(x, unit, 0)
    case Err(e) => Err(e)
    case Ok(p) => Ok(Fixed2(p.0) + " " + LJust3(Units[p.1]))
  }

  /** The loop of `sprint_fancy_num_bytes` as written. */
  method SprintFancyNumBytes(numBytes: real, unit: Option<string>) returns (r: Result<string>)
    ensures r == FancyNumBytes(numBytes, unit)
  {
    var num := numBytes;
    var idx: nat := 0;
    while true
      invariant UnitScan(num, unit, idx) == UnitScan(numBytes, unit, 0)
      decreases if num > 1024.0 then num.Floor else 0, 4 - idx
    {
      if num <= 1024.0 {
        if unit.None? {
          break;
        }
        if idx >= |Units| {
          return Err(IndexError);
        }
        if unit.value == Units[idx] {
          break;
        }
      } else {
        Shrinks(num);
      }
      num := num / 1024.0;
      idx := idx + 1;
    }
    if idx >= |Units| {
      return Err(IndexError);
    }
    return Ok(Fixed2(num) + " " + LJust3(Units[idx]));
  }

  // ---- what the loop computes ----

  lemma DivStep(a: real, p: real)
    requires p >= 1.0
    ensures (a / 1024.0) / p == a / (1024.0 * p)
  {
    var q := (a / 1024.0) / p;
    assert q * p == a / 1024.0;
    assert q * (1024.0 * p) == a;
  }

  /** The value the loop stops at is the input divided by 1024 once per unit step. */
  lemma {:induction false} ScanValue(num: real, unit: Option<string>, idx: nat)
    requires UnitScan(num, unit, idx).Ok?
    ensures UnitScan(num, unit, idx).value.1 >= idx
    ensures UnitScan(num, unit, idx).value.0 == num / Pow1024(UnitScan(num, unit, idx).value.1 - idx)
    decreases if num > 1024.0 then num.Floor else 0, 4 - idx
  {
    var r := UnitScan(num, unit, idx).value;
    if num > 1024.0 || (unit.Some? && unit.value != Units[idx]) {
      if num > 1024.0 {
        Shrinks(num);
      }
      ScanValue(num / 1024.0, unit, idx + 1);
      DivStep(num, Pow1024(r.1 - idx - 1));
    }
  }

  /** At or beyond the last unit there is only the IndexError. */
  lemma {:induction false} PastLastUnit(num: real, unit: Option<string>, idx: nat)
    requires idx >= |Units|
    ensures UnitScan(num, unit, idx) == Err(IndexError)
    decreases if num > 1024.0 then num.Floor else 0
  {
    if num > 1024.0 {
      Shrinks(num);
      PastLastUnit(num / 1024.0, unit, idx + 1);
    }
  }

  /** With no unit requested, the loop fails exactly when the value at unit
      `idx` exceeds 1024 GiB. */
  lemma {:induction false} NoUnitFails(num: real, idx: nat)
    requires idx < |Units|
    ensures UnitScan(num, None, idx).Err? <==> num > 1024.0 * Pow1024(3 - idx)
    decreases 3 - idx
  {
    if num > 1024.0 {
      if idx == 3 {
        PastLastUnit(num / 1024.0, None, 4);
      } else {
        NoUnitFails(num / 1024.0, idx + 1);
        assert Pow1024(3 - idx) == 1024.0 * Pow1024(3 - (idx + 1));
      }
    }
  }

  /** With no unit requested, the unit is the smallest at which the value is
      at most 1024 (so exactly 1024 stays in the lower unit), and the value
      is the input in that unit; beyond 1024 GiB there is only the
      IndexError. */
  lemma NoUnit(x: real)
    ensures UnitScan(x, None, 0).Err? <==> x > 1024.0 * Pow1024(3)
    ensures UnitScan(x, None, 0).Ok? ==>
      var (v, k) := UnitScan(x, None, 0).value;
      v == x / Pow1024(k) && v <= 1024.0 && (k > 0 ==> x / Pow1024(k - 1) > 1024.0)
  {
    NoUnitFails(x, 0);
    if UnitScan(x, None, 0).Ok? {
      ScanValue(x, None, 0);
      NoUnitStep(x, 0);
    }
  }

  /** The unit the loop stops at was reached by values above 1024 only. */
  lemma {:induction false} NoUnitStep(num: real, idx: nat)
    requires UnitScan(num, None, idx).Ok?
    ensures var k := UnitScan(num, None, idx).value.1;
      k > idx ==> num / Pow1024(k - 1 - idx) > 1024.0
    decreases if num > 1024.0 then num.Floor else 0
  {
    if num > 1024.0 {
      Shrinks(num);
      var k := UnitScan(num, None, idx).value.1;
      if k > idx + 1 {
        NoUnitStep(num / 1024.0, idx + 1);
        DivStep(num, Pow1024(k - 1 - idx - 1));
      }
    }
  }

  /** A requested unit is the only unit the loop can stop at: the call
      succeeds exactly when the value in that unit is at most 1024, and
      then shows that value. A larger value runs the loop past the
      requested unit and on to the IndexError. */
  lemma {:induction false} GivenUnit(num: real, j: nat, idx: nat)
    requires idx <= j < |Units|
    ensures UnitScan(num, Some(Units[j]), idx) ==
      if num / Pow1024(j - idx) <= 1024.0 then Ok((num / Pow1024(j - idx), j)) else Err(IndexError)
    decreases j - idx
  {
    var unit := Some(Units[j]);
    if idx == j {
      if num > 1024.0 {
        Shrinks(num);
        PastUnit(num / 1024.0, j, idx + 1);
      }
    } else {
      assert Units[idx] != Units[j];
      if num > 1024.0 {
        Shrinks(num);
      }
      GivenUnit(num / 1024.0, j, idx + 1);
      DivStep(num, Pow1024(j - idx - 1));
    }
  }

  /** Once past the requested unit, the loop only ends in the IndexError. */
  lemma {:induction false} PastUnit(num: real, j: nat, idx: nat)
    requires j < idx && j < |Units|
    ensures UnitScan(num, Some(Units[j]), idx) == Err(IndexError)
    decreases if num > 1024.0 then num.Floor else 0, 4 - idx
  {
    if idx >= |Units| {
      PastLastUnit(num, Some(Units[j]), idx);
    } else {
      assert Units[idx] != Units[j];
      if num > 1024.0 {
        Shrinks(num);
      }
      PastUnit(num / 1024.0, j, idx + 1);
    }
  }

  /** A unit that is not one of the four is never matched. */
  lemma {:induction false} UnknownUnit(num: real, u: string, idx: nat)
    requires u !in Units
    ensures UnitScan(num, Some(u), idx) == Err(IndexError)
    decreases if num > 1024.0 then num.Floor else 0, 4 - idx
  {
    if idx >= |Units| {
      PastLastUnit(num, Some(u), idx);
    } else {
      if num > 1024.0 {
        Shrinks(num);
      }
      UnknownUnit(num / 1024.0, u, idx + 1);
    }
  }

  /** Two kilobytes requested in bytes fail instead of printing `2048.00 B`. */
  lemma BytesOfTwoKiB()
    ensures FancyNumBytes(2048.0, Some("B")) == Err(IndexError)
  {
    GivenUnit(2048.0, 0, 0);
  }

  /** The output is the value with two decimals, a space, and the unit in
      three columns. */
  lemma Layout(x: real, unit: Option<string>)
    requires FancyNumBytes(x, unit).Ok?
    ensures var s := FancyNumBytes(x, unit).value;
      var k := UnitScan(x, unit, 0).value.1;
      |s| >= 7 && s[|s| - 7] == '.' && IsDigit(s[|s| - 6]) && IsDigit(s[|s| - 5]) &&
      s[|s| - 4] == ' ' && s[|s| - 3..] == LJust3(Units[k])
  {
    var p := UnitScan(x, unit, 0).value;
    var a := (if p.0 < 0.0 then -p.0 else p.0) * 100.0;
    RoundAbove(a, 0);
    var n: nat := RoundHalfEven(a);
    assert Pow10(2) == 100;
    ToDecimalLength(n % 100, 2);
    var frac := ZeroPad(n % 100, 2);
    var head := (if p.0 < 0.0 then "-" else "") + ToDecimal(n / 100);
    assert |frac| == 2 && |LJust3(Units[p.1])| == 3;
    assert Fixed2(p.0) == head + "." + frac;
    var s := head + "." + frac + " " + LJust3(Units[p.1]);
    assert s[|s| - 7] == '.' && s[|s| - 6] == frac[0] && s[|s| - 5] == frac[1];
  }

  // ---- the requested unit as the display unit ----

  /** `sprint_fancy_num_bytes` with the requested unit used as the display
      unit: the value in that unit, whatever its size. */
  function FancyNumBytesInUnit(x: real, unit: Option<string>): (r: Result<string>)
  {
    match unit
    case None => FancyNumBytes(x, None)
    case Some(u) =>
      if u in Units then
        var j := IndexOf(u);
        Ok(Fixed2(x / Pow1024(j)) + " " + LJust3(Units[j]))
      else Err(IndexError)
  }

  function IndexOf(u: string): (j: nat)
    requires u in Units
    ensures j < |Units| && Units[j] == u
  {
    if u == "B" then 0 else if u == "KiB" then 1 else if u == "MiB" then 2 else 3
  }

  /** The unit names are distinct. */
  lemma IndexOfUnit(j: nat)
    requires j < |Units|
    ensures IndexOf(Units[j]) == j
  {
  }

  /** Every known unit can be requested, and it is the unit shown; where
      the loop as written succeeds, the two agree. */
  lemma InUnitSpec(x: real, j: nat)
    requires j < |Units|
    ensures FancyNumBytesInUnit(x, Some(Units[j])) == Ok(Fixed2(x / Pow1024(j)) + " " + LJust3(Units[j]))
    ensures FancyNumBytes(x, Some(Units[j])).Ok? ==> FancyNumBytes(x, Some(Units[j])) == FancyNumBytesInUnit(x, Some(Units[j]))
  {
    IndexOfUnit(j);
    GivenUnit(x, j, 0);
    assert x / Pow1024(j - 0) == x / Pow1024(j);
  }
}
