/** Time-difference formatting (module `goripy.time`). The time difference
    is a number of seconds, modelled as an exact real; Python's `//` and `%`
    on floats round toward negative infinity, as `Floor` does. */
module TimeUtils {
  import opened Results
  import opened Strings
  import opened Decimal

  /** The units `sprint_fancy_time_diff` accepts as `high_unit`. */
  const HighUnits: seq<string> := ["hours", "minutes", "seconds"]

  /** Python's `x % m` for a positive float modulus. */
  function FloorMod(x: real, m: real): real
    requires m > 0.0
  {
    x - m * ((x / m).Floor as real)
  }

  lemma FloorModBounds(x: real, m: real)
    requires m > 0.0
    ensures 0.0 <= FloorMod(x, m) < m
  {
    var y := x / m;
    var f := y - y.Floor as real;
    assert 0.0 <= f < 1.0;
    ScaleBounds(f, m);
    assert x == m * y;
    assert FloorMod(x, m) == m * f;
  }

  lemma ScaleBounds(f: real, m: real)
    requires m > 0.0 && 0.0 <= f < 1.0
    ensures 0.0 <= m * f < m
  {
  }

  /** The fields the source computes before printing. */
  datatype Clock = Clock(hours: int, minutes: int, seconds: int, millis: int)

  /** The whole number of milliseconds the fields stand for. */
  function TotalMillis(c: Clock): int
  {
    3600000 * c.hours + 60000 * c.minutes + 1000 * c.seconds + c.millis
  }

  /** The split of `time_diff` into hours, minutes, seconds and milliseconds,
      each by floor division of what the previous `%=` left. Every field but
      the hours is in range, and together they are the time difference
      truncated (not rounded) to a whole millisecond. */
  function SplitTime(t: real): (c: Clock)
    ensures 0 <= c.minutes < 60 && 0 <= c.seconds < 60 && 0 <= c.millis < 1000
    ensures TotalMillis(c) == (t * 1000.0).Floor
  {
    var hours := (t / 3600.0).Floor;
    var t1 := FloorMod(t, 3600.0);
    var minutes := (t1 / 60.0).Floor;
    var t2 := FloorMod(t1, 60.0);
    var seconds := (t2 / 1.0).Floor;
    var t3 := FloorMod(t2, 1.0);
    var millis := (t3 * 1000.0 / 1.0).Floor;
    FloorModBounds(t, 3600.0);
    FloorModBounds(t1, 60.0);
    FloorModBounds(t2, 1.0);
    var c := Clock(hours, minutes, seconds, millis);
    TruncateMillis(t, 3600 * hours + 60 * minutes + seconds, t3, millis);
    c
  }

  /** Splitting off a whole number of seconds `w` leaves the milliseconds of the rest. */
  lemma TruncateMillis(t: real, w: int, f: real, millis: int)
    requires t == w as real + f && millis == (f * 1000.0 / 1.0).Floor
    ensures 1000 * w + millis == (t * 1000.0).Floor
  {
    assert t * 1000.0 == (1000 * w) as real + f * 1000.0;
    assert millis as real <= f * 1000.0 < millis as real + 1.0;
  }

  /** The printed form of the fields in each mode: `H:MM:SS.mmm`,
      `M:SS.mmm` with the hours folded into the minutes, or `S.mmm` with
      everything folded into the seconds. */
  function Render(c: Clock, highUnit: string): string
    requires 0 <= c.minutes && 0 <= c.seconds && 0 <= c.millis
  {
    if highUnit == "hours" then
      IntToDecimal(c.hours) + ":" + ZeroPad(c.minutes, 2) + ":" + ZeroPad(c.seconds, 2) + "." + ZeroPad(c.millis, 3)
    else if highUnit == "minutes" then
      IntToDecimal(60 * c.hours + c.minutes) + ":" + ZeroPad(c.seconds, 2) + "." + ZeroPad(c.millis, 3)
    else
      IntToDecimal(3600 * c.hours + 60 * c.minutes + c.seconds) + "." + ZeroPad(c.millis, 3)
  }

  /** `sprint_fancy_time_diff(time_diff, high_unit)`: a ValueError exactly
      for a unit other than the three it knows. */
  function SprintFancyTimeDiff(t: real, highUnit: string): (r: Result<string>)
    ensures r.Err? <==> highUnit !in HighUnits
    ensures r.Err? ==> r.error == ValueError
  {
    if highUnit !in HighUnits then Err(ValueError)
    else Ok(Render(SplitTime(t), highUnit))
  }

  // ---- reading the printed form back ----

  /** The fields of a printed time difference, read back into milliseconds:
      hours, minutes and seconds separated by `:`, then `.` and the
      milliseconds, with as many leading fields as the mode prints. The
      leading field is a numeral as `str` prints it. */
  function ParseFancyTime(s: string, highUnit: string): Result<int>
  {
    var dot := Split(s, ".");
    if |dot| != 2 then Err(ValueError)
    else
      var colon := Split(dot[0], ":");
      var ms := ParseNat(dot[1]);
      if ms.Err? || |dot[1]| != 3 then Err(ValueError)
      else if highUnit == "hours" then
        if |colon| != 3 || |colon[1]| != 2 || |colon[2]| != 2 then Err(ValueError)
        else
          match (ParseNumeral(colon[0]), ParseNat(colon[1]), ParseNat(colon[2]))
          case (Ok(h), Ok(m), Ok(sec)) => Ok(3600000 * h + 60000 * m + 1000 * sec + ms.value)
          case _ => Err(ValueError)
      else if highUnit == "minutes" then
        if |colon| != 2 || |colon[1]| != 2 then Err(ValueError)
        else
          match (ParseNumeral(colon[0]), ParseNat(colon[1]))
          case (Ok(m), Ok(sec)) => Ok(60000 * m + 1000 * sec + ms.value)
          case _ => Err(ValueError)
      else if highUnit == "seconds" then
        if |colon| != 1 then Err(ValueError)
        else
          match ParseNumeral(colon[0])
          case Ok(sec) => Ok(1000 * sec + ms.value)
          case Err(e) => Err(e)
      else Err(ValueError)
  }

  lemma IntAvoids(n: int, c: char)
    requires c == ':' || c == '.'
    ensures Avoids(IntToDecimal(n), c)
  {
  }

  lemma PadAvoids(n: nat, w: nat, c: char)
    requires c == ':' || c == '.'
    ensures Avoids(ZeroPad(n, w), c)
  {
  }

  /** A field below `10^w` is printed with exactly `w` digits. */
  lemma PadWidth(n: nat, w: nat)
    requires 1 <= w && n < Pow10(w)
    ensures |ZeroPad(n, w)| == w
  {
    ToDecimalLength(n, w);
  }

  /** Every field is printed in the width of its range and reads back as itself. */
  lemma FieldsParse(c: Clock)
    requires 0 <= c.minutes < 60 && 0 <= c.seconds < 60 && 0 <= c.millis < 1000
    ensures |ZeroPad(c.minutes, 2)| == 2 && ParseNat(ZeroPad(c.minutes, 2)) == Ok(c.minutes)
    ensures |ZeroPad(c.seconds, 2)| == 2 && ParseNat(ZeroPad(c.seconds, 2)) == Ok(c.seconds)
    ensures |ZeroPad(c.millis, 3)| == 3 && ParseNat(ZeroPad(c.millis, 3)) == Ok(c.millis)
  {
    assert Pow10(2) == 100 && Pow10(3) == 1000;
    PadWidth(c.minutes, 2);
    PadWidth(c.seconds, 2);
    PadWidth(c.millis, 3);
    ParseZeroPad(c.minutes, 2);
    ParseZeroPad(c.seconds, 2);
    ParseZeroPad(c.millis, 3);
  }

  /** Two texts free of the separator's character, joined by it, split back into themselves. */
  lemma SplitTwo(a: string, b: string, sep: string)
    requires |sep| == 1 && Avoids(a, sep[0]) && Avoids(b, sep[0])
    ensures Split(a + sep + b, sep) == [a, b]
  {
    JoinCons(a, [b], sep);
    SplitJoin([a, b], sep);
  }

  /** Three texts free of `:` and `.`, joined by `:`, split back into themselves. */
  lemma SplitThree(a: string, b: string, d: string)
    requires Avoids(a, ':') && Avoids(b, ':') && Avoids(d, ':')
    requires Avoids(a, '.') && Avoids(b, '.') && Avoids(d, '.')
    ensures Avoids(a + ":" + b + ":" + d, '.') && Split(a + ":" + b + ":" + d, ":") == [a, b, d]
  {
    var parts := [a, b, d];
    JoinCons(parts[1], parts[2..], ":");
    JoinCons(parts[0], parts[1..], ":");
    assert Join(parts, ":") == a + ":" + b + ":" + d;
    SplitJoin(parts, ":");
  }

  /** Reading `H:MM:SS.mmm` from its fields' texts. */
  lemma ReadHours(s: string, head: string, ht: string, mt: string, st: string, mst: string, h: int, m: nat, sec: nat, ms: nat)
    requires Split(s, ".") == [head, mst] && |mst| == 3 && ParseNat(mst) == Ok(ms)
    requires Split(head, ":") == [ht, mt, st] && |mt| == 2 && |st| == 2
    requires ParseNumeral(ht) == Ok(h) && ParseNat(mt) == Ok(m) && ParseNat(st) == Ok(sec)
    ensures ParseFancyTime(s, "hours") == Ok(3600000 * h + 60000 * m + 1000 * sec + ms)
  {
  }

  /** Reading `M:SS.mmm` from its fields' texts. */
  lemma ReadMinutes(s: string, head: string, mt: string, st: string, mst: string, m: int, sec: nat, ms: nat)
    requires Split(s, ".") == [head, mst] && |mst| == 3 && ParseNat(mst) == Ok(ms)
    requires Split(head, ":") == [mt, st] && |st| == 2
    requires ParseNumeral(mt) == Ok(m) && ParseNat(st) == Ok(sec)
    ensures ParseFancyTime(s, "minutes") == Ok(60000 * m + 1000 * sec + ms)
  {
  }

  /** Reading `S.mmm` from its fields' texts. */
  lemma ReadSeconds(s: string, st: string, mst: string, sec: int, ms: nat)
    requires Split(s, ".") == [st, mst] && |mst| == 3 && ParseNat(mst) == Ok(ms)
    requires Split(st, ":") == [st] && ParseNumeral(st) == Ok(sec)
    ensures ParseFancyTime(s, "seconds") == Ok(1000 * sec + ms)
  {
  }

  /** `H:MM:SS.mmm` read back from the texts of its fields. */
  lemma ReadHoursText(out: string, ht: string, mt: string, st: string, mst: string, h: int, m: nat, sec: nat, ms: nat)
    requires out == ht + ":" + mt + ":" + st + "." + mst
    requires Avoids(ht, ':') && Avoids(mt, ':') && Avoids(st, ':')
    requires Avoids(ht, '.') && Avoids(mt, '.') && Avoids(st, '.') && Avoids(mst, '.')
    requires |mt| == 2 && |st| == 2 && |mst| == 3
    requires ParseNumeral(ht) == Ok(h) && ParseNat(mt) == Ok(m) && ParseNat(st) == Ok(sec) && ParseNat(mst) == Ok(ms)
    ensures ParseFancyTime(out, "hours") == Ok(3600000 * h + 60000 * m + 1000 * sec + ms)
  {
    var head := ht + ":" + mt + ":" + st;
    SplitThree(ht, mt, st);
    SplitTwo(head, mst, ".");
    ReadHours(out, head, ht, mt, st, mst, h, m, sec, ms);
  }

  /** `M:SS.mmm` read back from the texts of its fields. */
  lemma ReadMinutesText(out: string, mt: string, st: string, mst: string, m: int, sec: nat, ms: nat)
    requires out == mt + ":" + st + "." + mst
    requires Avoids(mt, ':') && Avoids(st, ':') && Avoids(mt, '.') && Avoids(st, '.') && Avoids(mst, '.')
    requires |st| == 2 && |mst| == 3
    requires ParseNumeral(mt) == Ok(m) && ParseNat(st) == Ok(sec) && ParseNat(mst) == Ok(ms)
    ensures ParseFancyTime(out, "minutes") == Ok(60000 * m + 1000 * sec + ms)
  {
    var head := mt + ":" + st;
    SplitTwo(mt, st, ":");
    assert Avoids(head, '.');
    SplitTwo(head, mst, ".");
    ReadMinutes(out, head, mt, st, mst, m, sec, ms);
  }

  /** `S.mmm` read back from the texts of its fields. */
  lemma ReadSecondsText(out: string, st: string, mst: string, sec: int, ms: nat)
    requires out == st + "." + mst
    requires Avoids(st, ':') && Avoids(st, '.') && Avoids(mst, '.')
    requires |mst| == 3 && ParseNumeral(st) == Ok(sec) && ParseNat(mst) == Ok(ms)
    ensures ParseFancyTime(out, "seconds") == Ok(1000 * sec + ms)
  {
    SplitJoin([st], ":");
    SplitTwo(st, mst, ".");
    ReadSeconds(out, st, mst, sec, ms);
  }

  lemma HoursParse(c: Clock)
    requires 0 <= c.minutes < 60 && 0 <= c.seconds < 60 && 0 <= c.millis < 1000
    ensures ParseFancyTime(Render(c, "hours"), "hours") == Ok(TotalMillis(c))
  {
    HoursFrom(Render(c, "hours"), c);
  }

  /** The printed `H:MM:SS.mmm` text of the fields, read back. */
  lemma HoursFrom(out: string, c: Clock)
    requires 0 <= c.minutes < 60 && 0 <= c.seconds < 60 && 0 <= c.millis < 1000
    requires out == IntToDecimal(c.hours) + ":" + ZeroPad(c.minutes, 2) + ":" + ZeroPad(c.seconds, 2) + "." + ZeroPad(c.millis, 3)
    ensures ParseFancyTime(out, "hours") == Ok(TotalMillis(c))
  {
    FieldsParse(c);
    IntAvoids(c.hours, ':');
    IntAvoids(c.hours, '.');
    PadAvoids(c.minutes, 2, ':');
    PadAvoids(c.minutes, 2, '.');
    PadAvoids(c.seconds, 2, ':');
    PadAvoids(c.seconds, 2, '.');
    PadAvoids(c.millis, 3, '.');
    NumeralToDecimal(c.hours);
    ReadHoursText(out, IntToDecimal(c.hours), ZeroPad(c.minutes, 2), ZeroPad(c.seconds, 2), ZeroPad(c.millis, 3),
      c.hours, c.minutes, c.seconds, c.millis);
  }

  lemma MinutesParse(c: Clock)
    requires 0 <= c.minutes < 60 && 0 <= c.seconds < 60 && 0 <= c.millis < 1000
    ensures ParseFancyTime(Render(c, "minutes"), "minutes") == Ok(TotalMillis(c))
  {
    MinutesFrom(Render(c, "minutes"), 60 * c.hours + c.minutes, c.seconds, c.millis);
  }

  /** The printed `M:SS.mmm` text of the fields, read back. */
  lemma MinutesFrom(out: string, total: int, seconds: nat, millis: nat)
    requires seconds < 60 && millis < 1000
    requires out == IntToDecimal(total) + ":" + ZeroPad(seconds, 2) + "." + ZeroPad(millis, 3)
    ensures ParseFancyTime(out, "minutes") == Ok(60000 * total + 1000 * seconds + millis)
  {
    FieldsParse(Clock(0, 0, seconds, millis));
    IntAvoids(total, ':');
    IntAvoids(total, '.');
    PadAvoids(seconds, 2, ':');
    PadAvoids(seconds, 2, '.');
    PadAvoids(millis, 3, '.');
    NumeralToDecimal(total);
    ReadMinutesText(out, IntToDecimal(total), ZeroPad(seconds, 2), ZeroPad(millis, 3), total, seconds, millis);
  }

  lemma SecondsParse(c: Clock)
    requires 0 <= c.minutes < 60 && 0 <= c.seconds < 60 && 0 <= c.millis < 1000
    ensures ParseFancyTime(Render(c, "seconds"), "seconds") == Ok(TotalMillis(c))
  {
    SecondsFrom(Render(c, "seconds"), 3600 * c.hours + 60 * c.minutes + c.seconds, c.millis);
  }

  /** The printed `S.mmm` text of the fields, read back. */
  lemma SecondsFrom(out: string, total: int, millis: nat)
    requires millis < 1000
    requires out == IntToDecimal(total) + "." + ZeroPad(millis, 3)
    ensures ParseFancyTime(out, "seconds") == Ok(1000 * total + millis)
  {
    FieldsParse(Clock(0, 0, 0, millis));
    IntAvoids(total, ':');
    IntAvoids(total, '.');
    PadAvoids(millis, 3, '.');
    NumeralToDecimal(total);
    ReadSecondsText(out, IntToDecimal(total), ZeroPad(millis, 3), total, millis);
  }

  /** Reading the printed fields back gives the number of milliseconds they stand for. */
  lemma RenderParses(c: Clock, highUnit: string)
    requires 0 <= c.minutes < 60 && 0 <= c.seconds < 60 && 0 <= c.millis < 1000
    requires highUnit in HighUnits
    ensures ParseFancyTime(Render(c, highUnit), highUnit) == Ok(TotalMillis(c))
  {
    if highUnit == "hours" {
      HoursParse(c);
    } else if highUnit == "minutes" {
      MinutesParse(c);
    } else {
      SecondsParse(c);
    }
  }

  /** In every mode the printed text reads back as the time difference
      truncated to whole milliseconds. */
  lemma FancyTimeRoundTrip(t: real, highUnit: string)
    requires highUnit in HighUnits
    ensures SprintFancyTimeDiff(t, highUnit).Ok?
    ensures ParseFancyTime(SprintFancyTimeDiff(t, highUnit).value, highUnit) == Ok((t * 1000.0).Floor)
  {
    RenderParses(SplitTime(t), highUnit);
  }

  /** A whole number of milliseconds `n` comes back exactly. */
  lemma MillisRoundTrip(n: nat, highUnit: string)
    requires highUnit in HighUnits
    ensures ParseFancyTime(SprintFancyTimeDiff(n as real / 1000.0, highUnit).value, highUnit) == Ok(n)
  {
    var t := n as real / 1000.0;
    FancyTimeRoundTrip(t, highUnit);
    assert t * 1000.0 == n as real;
    assert (t * 1000.0).Floor == n;
  }
}
