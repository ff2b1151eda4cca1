/** The TIMESTAMP field of section 4.1.2 of RFC 3164, `Mmm dd hh:mm:ss`,
    rendered from local date/time fields supplied by the caller in place of
    a clock reading. */
module Timestamp {
  import opened Options
  import opened Decimal

  /** The fields of `time.localtime()` the timestamp uses. */
  datatype DateTime = DateTime(month: int, day: int, hour: int, minute: int, second: int)

  /** The ranges `time.localtime()` reports; seconds run to 61 for leap seconds. */
  predicate Valid(t: DateTime) {
    && 1 <= t.month <= 12
    && 1 <= t.day <= 31
    && 0 <= t.hour <= 23
    && 0 <= t.minute <= 59
    && 0 <= t.second <= 61
  }

  const MonthAbbr: seq<string> :=
    ["Jan", "Feb", "Mar", "Apr", "May", "Jun", "Jul", "Aug", "Sep", "Oct", "Nov", "Dec"]

  /** `Mmm dd hh:mm:ss`: the month name from the table, the day space-padded
      and the time fields zero-padded, each to width two. */
  function FormatTimestamp(t: DateTime): (s: string)
    requires Valid(t)
    ensures |s| == 15
    ensures s[..3] == MonthAbbr[t.month - 1]
    ensures s[3] == ' ' && s[6] == ' ' && s[9] == ':' && s[12] == ':'
    ensures s[4] == (if t.day < 10 then ' ' else DigitChar(t.day / 10))
    ensures s[5] == DigitChar(t.day % 10)
    ensures s[7] == DigitChar(t.hour / 10) && s[8] == DigitChar(t.hour % 10)
    ensures s[10] == DigitChar(t.minute / 10) && s[11] == DigitChar(t.minute % 10)
    ensures s[13] == DigitChar(t.second / 10) && s[14] == DigitChar(t.second % 10)
  {
    var mon := MonthAbbr[t.month - 1];
    var dd, hh, mm, ss := SpacePad2(t.day), ZeroPad2(t.hour), ZeroPad2(t.minute), ZeroPad2(t.second);
    MonthNameLength(t.month - 1);
    SpacePad2Chars(t.day);
    ZeroPad2Chars(t.hour);
    ZeroPad2Chars(t.minute);
    ZeroPad2Chars(t.second);
    Layout(mon, dd, hh, mm, ss);
    mon + " " + dd + " " + hh + ":" + mm + ":" + ss
  }

  lemma Layout(mon: string, dd: string, hh: string, mm: string, ss: string)
    requires |mon| == 3 && |dd| == 2 && |hh| == 2 && |mm| == 2 && |ss| == 2
    ensures var s := mon + " " + dd + " " + hh + ":" + mm + ":" + ss;
      && |s| == 15 && s[..3] == mon
      && s[3] == ' ' && s[6] == ' ' && s[9] == ':' && s[12] == ':'
      && s[4] == dd[0] && s[5] == dd[1] && s[7] == hh[0] && s[8] == hh[1]
      && s[10] == mm[0] && s[11] == mm[1] && s[13] == ss[0] && s[14] == ss[1]
  {
  }

  lemma MonthNameLength(i: nat)
    requires i < 12
    ensures |MonthAbbr[i]| == 3
  {
  }

  /** The position of a month name in the table, searching from `from`. */
  function FindMonth(name: string, from: nat): (r: Option<nat>)
    requires from <= 12
    ensures r.Some? ==> from <= r.value < 12 && MonthAbbr[r.value] == name
    ensures r.Some? ==> forall k :: from <= k < r.value ==> MonthAbbr[k] != name
    ensures r.None? ==> forall k :: from <= k < 12 ==> MonthAbbr[k] != name
    decreases 12 - from
  {
    if from == 12 then None
    else if MonthAbbr[from] == name then Some(from)
    else FindMonth(name, from + 1)
  }

  lemma MonthsDistinct(i: nat, j: nat)
    requires i < j < 12
    ensures MonthAbbr[i] != MonthAbbr[j]
  {
    assert MonthAbbr[i][0] != MonthAbbr[j][0]
      || MonthAbbr[i][1] != MonthAbbr[j][1]
      || MonthAbbr[i][2] != MonthAbbr[j][2];
  }

  function TwoDigits(hi: char, lo: char): Option<nat> {
    if IsDigit(hi) && IsDigit(lo) then Some(DigitValue(hi) * 10 + DigitValue(lo)) else None
  }

  /** A space-padded day: a space and a digit, or two digits not starting with 0. */
  function PaddedDay(hi: char, lo: char): Option<nat> {
    if hi == ' ' && IsDigit(lo) then Some(DigitValue(lo))
    else if hi != '0' then TwoDigits(hi, lo)
    else None
  }

  /** Reads a timestamp back; the inverse of `FormatTimestamp`. */
  function ParseTimestamp(s: string): Option<DateTime> {
    if |s| != 15 || s[3] != ' ' || s[6] != ' ' || s[9] != ':' || s[12] != ':' then None
    else
      match (FindMonth(s[..3], 0), PaddedDay(s[4], s[5]), TwoDigits(s[7], s[8]),
             TwoDigits(s[10], s[11]), TwoDigits(s[13], s[14]))
      case (Some(m), Some(d), Some(h), Some(mi), Some(se)) =>
        var t := DateTime(m + 1, d, h, mi, se);
        if Valid(t) then Some(t) else None
      case _ => None
  }

  lemma TwoDigitsOf(n: nat)
    requires n < 100
    ensures TwoDigits(DigitChar(n / 10), DigitChar(n % 10)) == Some(n)
  {
    DigitValueOfChar(n / 10);
    DigitValueOfChar(n % 10);
  }

  /** Every valid date/time is recovered from its timestamp. */
  lemma ParseFormatTimestamp(t: DateTime)
    requires Valid(t)
    ensures ParseTimestamp(FormatTimestamp(t)) == Some(t)
  {
    FormattedFields(t);
    ParseFromFields(FormatTimestamp(t), t);
  }

  lemma FormattedFields(t: DateTime)
    requires Valid(t)
    ensures FieldsMatch(FormatTimestamp(t), t)
  {
    FormattedDay(t);
    FormattedTime(t);
  }

  lemma FormattedDay(t: DateTime)
    requires Valid(t)
    ensures var s := FormatTimestamp(t); PaddedDay(s[4], s[5]) == Some(t.day)
  {
    var s := FormatTimestamp(t);
    if t.day < 10 {
      DigitValueOfChar(t.day % 10);
    } else {
      TwoDigitsOf(t.day);
    }
  }

  lemma FormattedTime(t: DateTime)
    requires Valid(t)
    ensures var s := FormatTimestamp(t);
      && TwoDigits(s[7], s[8]) == Some(t.hour)
      && TwoDigits(s[10], s[11]) == Some(t.minute)
      && TwoDigits(s[13], s[14]) == Some(t.second)
  {
    TwoDigitsOf(t.hour);
    TwoDigitsOf(t.minute);
    TwoDigitsOf(t.second);
  }

  lemma ParseFromFields(s: string, t: DateTime)
    requires FieldsMatch(s, t)
    ensures ParseTimestamp(s) == Some(t)
  {
    var m := FindMonth(s[..3], 0);
    assert m == Some(t.month - 1) by {
      if m.value < t.month - 1 {
        MonthsDistinct(m.value, t.month - 1);
      }
    }
  }

  /** Every string the parser accepts is the timestamp of what it returns, so
      timestamps and valid date/times are in one-to-one correspondence. */
  lemma FormatParseTimestamp(s: string, t: DateTime)
    requires ParseTimestamp(s) == Some(t)
    ensures Valid(t) && FormatTimestamp(t) == s
  {
    ParsedFields(s, t);
    FormatFromFields(s, t);
  }

  /** The facts `ParseTimestamp` checks, one per field. */
  predicate FieldsMatch(s: string, t: DateTime) {
    && Valid(t) && |s| == 15
    && s[3] == ' ' && s[6] == ' ' && s[9] == ':' && s[12] == ':'
    && MonthAbbr[t.month - 1] == s[..3]
    && PaddedDay(s[4], s[5]) == Some(t.day)
    && TwoDigits(s[7], s[8]) == Some(t.hour)
    && TwoDigits(s[10], s[11]) == Some(t.minute)
    && TwoDigits(s[13], s[14]) == Some(t.second)
  }

  lemma FormatFromFields(s: string, t: DateTime)
    requires FieldsMatch(s, t)
    ensures FormatTimestamp(t) == s
  {
    var f := FormatTimestamp(t);
    MonthMatches(s, t);
    DayMatches(s, t);
    TimeMatches(s, t);
    SameCharacters(f, s);
  }

  // Proof helper for `FormatParseTimestamp`: the month letters agree.
  lemma MonthMatches(s: string, t: DateTime)
    requires FieldsMatch(s, t)
    ensures var f := FormatTimestamp(t); f[0] == s[0] && f[1] == s[1] && f[2] == s[2]
  {
    var f := FormatTimestamp(t);
    assert f[..3] == s[..3];
    assert f[0] == f[..3][0] && s[0] == s[..3][0];
    assert f[1] == f[..3][1] && s[1] == s[..3][1];
    assert f[2] == f[..3][2] && s[2] == s[..3][2];
  }

  // Proof helper for `FormatParseTimestamp`: the day characters agree.
  lemma DayMatches(s: string, t: DateTime)
    requires FieldsMatch(s, t)
    ensures var f := FormatTimestamp(t); f[4] == s[4] && f[5] == s[5]
  {
    DayDigits(s[4], s[5]);
  }

  // Proof helper for `FormatParseTimestamp`: the time digits agree.
  lemma TimeMatches(s: string, t: DateTime)
    requires FieldsMatch(s, t)
    ensures var f := FormatTimestamp(t);
      && f[7] == s[7] && f[8] == s[8] && f[10] == s[10] && f[11] == s[11]
      && f[13] == s[13] && f[14] == s[14]
  {
    DigitPairOf(s[7], s[8]);
    DigitPairOf(s[10], s[11]);
    DigitPairOf(s[13], s[14]);
  }

  // Proof helper for `FormatParseTimestamp`: 15-character equality, position by position.
  lemma SameCharacters(a: string, b: string)
    requires |a| == 15 && |b| == 15
    requires a[0] == b[0] && a[1] == b[1] && a[2] == b[2] && a[3] == b[3] && a[4] == b[4]
    requires a[5] == b[5] && a[6] == b[6] && a[7] == b[7] && a[8] == b[8] && a[9] == b[9]
    requires a[10] == b[10] && a[11] == b[11] && a[12] == b[12] && a[13] == b[13] && a[14] == b[14]
    ensures a == b
  {
    assert forall k :: 0 <= k < 15 ==> a[k] == b[k];
  }

  lemma ParsedFields(s: string, t: DateTime)
    requires ParseTimestamp(s) == Some(t)
    ensures FieldsMatch(s, t)
  {
  }

  lemma DayDigits(hi: char, lo: char)
    requires PaddedDay(hi, lo).Some?
    ensures var d := PaddedDay(hi, lo).value;
      && hi == (if d < 10 then ' ' else DigitChar(d / 10))
      && lo == DigitChar(d % 10)
  {
    if hi == ' ' {
      assert DigitValue(lo) % 10 == DigitValue(lo);
    } else {
      DigitPairOf(hi, lo);
      assert DigitValue(hi) != 0;
    }
  }

  lemma DigitPairOf(hi: char, lo: char)
    requires TwoDigits(hi, lo).Some?
    ensures DigitChar(TwoDigits(hi, lo).value / 10) == hi
    ensures DigitChar(TwoDigits(hi, lo).value % 10) == lo
  {
    DivModDigit(DigitValue(hi), DigitValue(lo));
  }
}
