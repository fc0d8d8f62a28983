/**
 * Python `datetime` values as the logger uses them: naive, to the microsecond.
 * `Format` is `str(datetime)`, the text that prefixes every fallback line, and
 * `Parse` reads that layout back.
 */
module Timestamps {
  import opened Wrappers
  import opened Text

  datatype DateTime = DateTime(year: int, month: int, day: int,
                               hour: int, minute: int, second: int, microsecond: int)

  /** Gregorian leap years, as in Python's `calendar.isleap`. */
  predicate IsLeapYear(y: int)
  {
    y % 4 == 0 && (y % 100 != 0 || y % 400 == 0)
  }

  function DaysInMonth(y: int, m: int): (d: int)
    requires 1 <= m <= 12
    ensures 28 <= d <= 31
  {
    if m == 2 then (if IsLeapYear(y) then 29 else 28)
    else if m == 4 || m == 6 || m == 9 || m == 11 then 30
    else 31
  }

  /** The field ranges Python's `datetime` constructor enforces (MINYEAR 1, MAXYEAR 9999). */
  predicate Valid(t: DateTime)
  {
    && 1 <= t.year <= 9999
    && 1 <= t.month <= 12
    && 1 <= t.day <= DaysInMonth(t.year, t.month)
    && 0 <= t.hour < 24
    && 0 <= t.minute < 60
    && 0 <= t.second < 60
    && 0 <= t.microsecond < 1000000
  }

  /** A `datetime` object: every value Python can construct. */
  type Timestamp = t: DateTime | Valid(t) witness DateTime(1, 1, 1, 0, 0, 0, 0)

  /**
   * `str(t)`: `YYYY-MM-DD HH:MM:SS`, followed by `.ffffff` only when the
   * microsecond field is not zero.
   */
  function Format(t: Timestamp): (r: string)
    ensures |r| == if t.microsecond != 0 then 26 else 19
  {
    PadWidths(t);
    Pad(t.year, 4) + "-" + Pad(t.month, 2) + "-" + Pad(t.day, 2) + " "
    + Pad(t.hour, 2) + ":" + Pad(t.minute, 2) + ":" + Pad(t.second, 2)
    + (if t.microsecond != 0 then "." + Pad(t.microsecond, 6) else "")
  }

  /** The character layout `Format` produces: fixed separators and digit fields. */
  predicate WellLaid(s: string)
  {
    && (|s| == 19 || (|s| == 26 && s[19] == '.' && AllDigits(s[20..26])))
    && s[4] == '-' && s[7] == '-' && s[10] == ' ' && s[13] == ':' && s[16] == ':'
    && AllDigits(s[0..4]) && AllDigits(s[5..7]) && AllDigits(s[8..10])
    && AllDigits(s[11..13]) && AllDigits(s[14..16]) && AllDigits(s[17..19])
  }

  /**
   * Reads a timestamp in the layout of `Format`, with or without a fraction;
   * `None` for any other text or for field values out of range.
   */
  function Parse(s: string): (r: Option<Timestamp>)
    ensures r.Some? ==> WellLaid(s)
  {
    if !WellLaid(s) then None
    else
      var t := DateTime(ValueOf(s[0..4]), ValueOf(s[5..7]), ValueOf(s[8..10]),
                        ValueOf(s[11..13]), ValueOf(s[14..16]), ValueOf(s[17..19]),
                        if |s| == 26 then ValueOf(s[20..26]) else 0);
      if Valid(t) then Some(t) else None
  }

  /** Where each field of the fixed 19-character head of `str(datetime)` sits. */
  lemma HeadLayout(y: string, mo: string, d: string, h: string, mi: string, se: string)
    requires |y| == 4 && |mo| == 2 && |d| == 2 && |h| == 2 && |mi| == 2 && |se| == 2
    ensures var head := y + "-" + mo + "-" + d + " " + h + ":" + mi + ":" + se;
      && |head| == 19
      && head[0..4] == y && head[4] == '-' && head[5..7] == mo && head[7] == '-'
      && head[8..10] == d && head[10] == ' ' && head[11..13] == h && head[13] == ':'
      && head[14..16] == mi && head[16] == ':' && head[17..19] == se
  {
    var a := y + "-" + mo + "-";
    assert a[0..4] == y && a[5..7] == mo && |a| == 8;
    var b := d + " " + h + ":";
    assert b[0..2] == d && b[3..5] == h && |b| == 6;
    var c := mi + ":" + se;
    assert c[0..2] == mi && c[3..5] == se && |c| == 5;
    var head := y + "-" + mo + "-" + d + " " + h + ":" + mi + ":" + se;
    assert head == a + b + c;
    assert head[0..4] == a[0..4] && head[5..7] == a[5..7];
    assert head[8..10] == b[0..2] && head[11..13] == b[3..5];
    assert head[14..16] == c[0..2] && head[17..19] == c[3..5];
  }

  /** A text with the separators of the head layout is the join of its head fields. */
  lemma HeadSplit(s: string)
    requires 19 <= |s|
    requires s[4] == '-' && s[7] == '-' && s[10] == ' ' && s[13] == ':' && s[16] == ':'
    ensures s[..19] == s[0..4] + "-" + s[5..7] + "-" + s[8..10] + " "
                       + s[11..13] + ":" + s[14..16] + ":" + s[17..19]
  {
    HeadLayout(s[0..4], s[5..7], s[8..10], s[11..13], s[14..16], s[17..19]);
  }

  lemma FormatFields(t: Timestamp)
    ensures var s := Format(t);
      && |s| == (if t.microsecond != 0 then 26 else 19)
      && s[0..4] == Pad(t.year, 4) && s[4] == '-'
      && s[5..7] == Pad(t.month, 2) && s[7] == '-'
      && s[8..10] == Pad(t.day, 2) && s[10] == ' '
      && s[11..13] == Pad(t.hour, 2) && s[13] == ':'
      && s[14..16] == Pad(t.minute, 2) && s[16] == ':'
      && s[17..19] == Pad(t.second, 2)
      && (t.microsecond != 0 ==> s[19] == '.' && s[20..26] == Pad(t.microsecond, 6))
  {
    PadWidths(t);
    var y, mo, d := Pad(t.year, 4), Pad(t.month, 2), Pad(t.day, 2);
    var h, mi, se := Pad(t.hour, 2), Pad(t.minute, 2), Pad(t.second, 2);
    var frac := if t.microsecond != 0 then "." + Pad(t.microsecond, 6) else "";
    var head := y + "-" + mo + "-" + d + " " + h + ":" + mi + ":" + se;
    HeadLayout(y, mo, d, h, mi, se);
    var s := Format(t);
    assert s == head + frac;
    assert s[..19] == head;
    if t.microsecond != 0 {
      assert s[19..] == frac;
      assert frac[1..] == Pad(t.microsecond, 6);
    }
  }

  /** Every field of a valid timestamp fills its padded width exactly. */
  lemma PadWidths(t: Timestamp)
    ensures |Pad(t.year, 4)| == 4 && AllDigits(Pad(t.year, 4)) && ValueOf(Pad(t.year, 4)) == t.year
    ensures |Pad(t.month, 2)| == 2 && AllDigits(Pad(t.month, 2)) && ValueOf(Pad(t.month, 2)) == t.month
    ensures |Pad(t.day, 2)| == 2 && AllDigits(Pad(t.day, 2)) && ValueOf(Pad(t.day, 2)) == t.day
    ensures |Pad(t.hour, 2)| == 2 && AllDigits(Pad(t.hour, 2)) && ValueOf(Pad(t.hour, 2)) == t.hour
    ensures |Pad(t.minute, 2)| == 2 && AllDigits(Pad(t.minute, 2)) && ValueOf(Pad(t.minute, 2)) == t.minute
    ensures |Pad(t.second, 2)| == 2 && AllDigits(Pad(t.second, 2)) && ValueOf(Pad(t.second, 2)) == t.second
    ensures |Pad(t.microsecond, 6)| == 6 && AllDigits(Pad(t.microsecond, 6)) && ValueOf(Pad(t.microsecond, 6)) == t.microsecond
  {
    assert Pow10(2) == 100 && Pow10(4) == 10000 && Pow10(6) == 1000000;
    PadFacts(t.year, 4);
    PadFacts(t.month, 2);
    PadFacts(t.day, 2);
    PadFacts(t.hour, 2);
    PadFacts(t.minute, 2);
    PadFacts(t.second, 2);
    PadFacts(t.microsecond, 6);
  }

  /** Round trip: the timestamp written at the head of a fallback line is read back unchanged. */
  lemma ParseFormat(t: Timestamp)
    ensures Parse(Format(t)) == Some(t)
  {
    var s := Format(t);
    FormatFields(t);
    PadWidths(t);
    assert WellLaid(s);
    var fraction := if |s| == 26 then ValueOf(s[20..26]) else 0;
    assert fraction == t.microsecond;
    var u := DateTime(ValueOf(s[0..4]), ValueOf(s[5..7]), ValueOf(s[8..10]),
                      ValueOf(s[11..13]), ValueOf(s[14..16]), ValueOf(s[17..19]), fraction);
    assert u == t;
  }

  /** A parsed text agrees with the formatted timestamp on the 19-character head. */
  lemma ParsedHead(s: string, t: Timestamp)
    requires Parse(s) == Some(t)
    ensures |s| >= 19 && |Format(t)| >= 19 && s[..19] == Format(t)[..19]
  {
    FormatFields(t);
    PadOfValue(s[0..4]);
    PadOfValue(s[5..7]);
    PadOfValue(s[8..10]);
    PadOfValue(s[11..13]);
    PadOfValue(s[14..16]);
    PadOfValue(s[17..19]);
    HeadSplit(s);
    HeadSplit(Format(t));
  }

  /**
   * `Parse` accepts nothing but what `Format` writes, apart from an explicit
   * all-zero fraction, which `Format` leaves out.
   */
  lemma FormatParse(s: string, t: Timestamp)
    requires Parse(s) == Some(t)
    ensures s == Format(t) || (t.microsecond == 0 && s == Format(t) + ".000000")
  {
    ParsedHead(s, t);
    if |s| == 26 {
      FractionTail(s, t);
    } else {
      assert s == s[..19];
      assert Format(t) == Format(t)[..19];
    }
  }

  /** The seven characters after the head of a parsed text with a fraction. */
  lemma FractionTail(s: string, t: Timestamp)
    requires Parse(s) == Some(t) && |s| == 26
    requires |Format(t)| >= 19 && s[..19] == Format(t)[..19]
    ensures s == Format(t) || (t.microsecond == 0 && s == Format(t) + ".000000")
  {
    var f := Format(t);
    PadOfValue(s[20..26]);
    assert s == s[..19] + ['.'] + s[20..26];
    if t.microsecond != 0 {
      FormatFields(t);
      assert f == f[..19] + ['.'] + f[20..26];
    } else {
      assert s[20..26] == "000000" by {
        assert Pow10(6) == 1000000;
        ZerosAreFixedZero(6);
        PadIsFixedDigits(0, 6);
      }
      assert f == f[..19];
    }
  }
}
