/**
 * The ISO-8601 date-time texts exchanged between the two halves of the system:
 * the `yyyy-MM-dd'T'HH:mm:ss` layout the backend writes, and JavaScript's
 * `Date.prototype.toISOString` (`YYYY-MM-DDTHH:mm:ss.sssZ`) the frontend
 * writes into its requests and into browser storage.
 */
module IsoText {
  import opened Common
  import opened Text
  import opened Gregorian

  /** The local date-time t after the given year text, down to whole seconds. */
  function LocalText(year: string, t: DateTime): string
    requires ValidDateTime(t)
  {
    year + "-" + Digits2(t.date.month) + "-" + Digits2(t.date.day)
    + "T" + Digits2(t.hour) + ":" + Digits2(t.minute) + ":" + Digits2(t.second)
  }

  /** The date-time named by a 19-character `yyyy-MM-ddTHH:mm:ss` text with a four-digit year. */
  function ParseLocal(s: string): Option<DateTime>
  {
    if |s| == 19 && s[4] == '-' && s[7] == '-' && s[10] == 'T' && s[13] == ':' && s[16] == ':'
       && AllDigits(s[..4]) && AllDigits(s[5..7]) && AllDigits(s[8..10])
       && AllDigits(s[11..13]) && AllDigits(s[14..16]) && AllDigits(s[17..19])
    then
      var t := DateTime(Date(DigitsValue(s[..4]), DigitsValue(s[5..7]), DigitsValue(s[8..10])),
                        DigitsValue(s[11..13]), DigitsValue(s[14..16]), DigitsValue(s[17..19]), 0);
      if ValidDateTime(t) then Some(t) else None
    else None
  }

  lemma {:induction false} LocalTextSlices(year: string, t: DateTime)
    requires ValidDateTime(t) && |year| == 4
    ensures var s := LocalText(year, t);
      |s| == 19 && s[..4] == year && s[4] == '-' && s[7] == '-' && s[10] == 'T' && s[13] == ':' && s[16] == ':'
      && s[5..7] == Digits2(t.date.month) && s[8..10] == Digits2(t.date.day)
      && s[11..13] == Digits2(t.hour) && s[14..16] == Digits2(t.minute) && s[17..19] == Digits2(t.second)
  {
  }

  /** With a four-digit year the text is 19 characters of digits and fixed separators. */
  lemma {:induction false} LocalTextLayout(t: DateTime)
    requires ValidDateTime(t) && 0 <= t.date.year <= 9999
    ensures var s := LocalText(Digits4(t.date.year), t);
      |s| == 19 && s[4] == '-' && s[7] == '-' && s[10] == 'T' && s[13] == ':' && s[16] == ':'
      && forall i :: 0 <= i < 19 && i !in {4, 7, 10, 13, 16} ==> IsDigit(s[i])
  {
    var s := LocalText(Digits4(t.date.year), t);
    LocalTextSlices(Digits4(t.date.year), t);
    forall i | 0 <= i < 19 && i !in {4, 7, 10, 13, 16} ensures IsDigit(s[i]) {
      if i < 4 { assert s[i] == s[..4][i]; }
      else if i < 7 { assert s[i] == s[5..7][i - 5]; }
      else if i < 10 { assert s[i] == s[8..10][i - 8]; }
      else if i < 13 { assert s[i] == s[11..13][i - 11]; }
      else if i < 16 { assert s[i] == s[14..16][i - 14]; }
      else { assert s[i] == s[17..19][i - 17]; }
    }
  }

  /** Formatting then parsing gives back the date-time without its fraction of a second. */
  lemma {:induction false} ParseLocalOfLocalText(t: DateTime)
    requires ValidDateTime(t) && 0 <= t.date.year <= 9999
    ensures ParseLocal(LocalText(Digits4(t.date.year), t)) == Some(t.(nano := 0))
  {
    LocalTextSlices(Digits4(t.date.year), t);
  }

  lemma {:induction false} DigitCharOfValue(c: char)
    requires IsDigit(c)
    ensures DigitChar(DigitValue(c)) == c
  {
  }

  lemma {:induction false} Digits2OfValue(x: string)
    requires |x| == 2 && AllDigits(x)
    ensures DigitsValue(x) < 100 && Digits2(DigitsValue(x)) == x
  {
    DigitsValueAppend([], x[0]);
    DigitsValueAppend([x[0]], x[1]);
    assert x == [x[0]] + [x[1]];
    DigitCharOfValue(x[0]);
    DigitCharOfValue(x[1]);
  }

  lemma {:induction false} Digits4OfValue(x: string)
    requires |x| == 4 && AllDigits(x)
    ensures DigitsValue(x) < 10000 && Digits4(DigitsValue(x)) == x
  {
    var a, b := x[..2], x[2..];
    Digits2OfValue(a);
    Digits2OfValue(b);
    assert x[..3] == a + [b[0]] && x == a + [b[0]] + [b[1]];
    DigitsValueAppend(a, b[0]);
    DigitsValueAppend(a + [b[0]], b[1]);
    assert b[..1] == [b[0]];
    assert DigitsValue(b) == DigitValue(b[0]) * 10 + DigitValue(b[1]);
    assert DigitsValue(x) == DigitsValue(a) * 100 + DigitsValue(b);
  }

  /** Numbers from 1000 to 9999 print as their four-digit form. */
  lemma {:induction false} NatDigitsFour(n: nat)
    requires 1000 <= n < 10000
    ensures NatDigits(n) == Digits4(n)
  {
    assert |NatDigits(n / 1000)| == 1;
    assert n / 10 / 10 / 10 == n / 1000;
    assert |NatDigits(n / 10 / 10)| == 2;
    assert |NatDigits(n / 10)| == 3;
    NatDigitsValue(n);
    Digits4OfValue(NatDigits(n));
  }

  /** Every text the parser accepts is the formatting of what it returns. */
  lemma {:induction false} LocalTextOfParseLocal(s: string)
    requires ParseLocal(s).Some?
    ensures var t := ParseLocal(s).value;
      ValidDateTime(t) && 0 <= t.date.year <= 9999 && t.nano == 0 && LocalText(Digits4(t.date.year), t) == s
  {
    var t := ParseLocal(s).value;
    Digits4OfValue(s[..4]);
    Digits2OfValue(s[5..7]);
    Digits2OfValue(s[8..10]);
    Digits2OfValue(s[11..13]);
    Digits2OfValue(s[14..16]);
    Digits2OfValue(s[17..19]);
    LocalTextSlices(Digits4(t.date.year), t);
    var r := LocalText(Digits4(t.date.year), t);
    forall i | 0 <= i < 19 ensures r[i] == s[i] {
      if i < 4 { assert r[i] == r[..4][i] && s[i] == s[..4][i]; }
      else if 4 < i < 7 { assert r[i] == r[5..7][i - 5] && s[i] == s[5..7][i - 5]; }
      else if 7 < i < 10 { assert r[i] == r[8..10][i - 8] && s[i] == s[8..10][i - 8]; }
      else if 10 < i < 13 { assert r[i] == r[11..13][i - 11] && s[i] == s[11..13][i - 11]; }
      else if 13 < i < 16 { assert r[i] == r[14..16][i - 14] && s[i] == s[14..16][i - 14]; }
      else if 16 < i { assert r[i] == r[17..19][i - 17] && s[i] == s[17..19][i - 17]; }
    }
  }

  /** The year field of `toISOString`: four digits for years 0 to 9999, else a sign and six digits. */
  function JsYearText(y: int): string
  {
    if 0 <= y <= 9999 then Digits4(y)
    else (if y < 0 then "-" else "+") + PadStart(NatDigits(if y < 0 then -y else y), 6)
  }

  /** `new Date(ms).toISOString()`: the UTC date-time of the instant ms (milliseconds since 1970). */
  function ToIso(ms: int): string
  {
    var t := FromEpochSecond(ms / 1000, 0);
    LocalText(JsYearText(t.date.year), t) + "." + Digits3(ms % 1000) + "Z"
  }

  /**
   * `new Date(s).getTime()` for the 24-character UTC form that `toISOString`
   * produces for four-digit years; None stands for an invalid date.
   */
  function ParseIso(s: string): Option<int>
  {
    if |s| == 24 && s[19] == '.' && s[23] == 'Z' && AllDigits(s[20..23]) then
      match ParseLocal(s[..19])
      case Some(t) => Some(EpochSecond(t) * 1000 + DigitsValue(s[20..23]))
      case None => None
    else None
  }

  /** The instants of 0000-01-01T00:00:00.000Z and of 10000-01-01T00:00:00.000Z. */
  const MinIsoMs: int := -62_167_219_200_000
  const EndIsoMs: int := 253_402_300_800_000

  lemma {:induction false} FourDigitYear(n: int)
    requires DaysBeforeYear(0) <= n < DaysBeforeYear(10000)
    ensures 0 <= FromDayNumber(n).year <= 9999
  {
    var d := FromDayNumber(n);
    DayNumberOfFromDayNumber(n);
    DayOfYearBound(d);
    if d.year < 0 {
      YearMonotone(d.year, 0);
    } else if d.year > 9999 {
      YearMonotone(10000, d.year);
      YearStep(10000);
    }
  }

  lemma {:induction false} IsoYear(ms: int)
    requires MinIsoMs <= ms < EndIsoMs
    ensures 0 <= FromEpochSecond(ms / 1000, 0).date.year <= 9999
  {
    var sec := ms / 1000;
    assert -62_167_219_200 <= sec < 253_402_300_800;
    assert DaysBeforeYear(0) <= sec / 86400 < DaysBeforeYear(10000);
    FourDigitYear(sec / 86400);
  }

  lemma {:induction false} ToIsoSlices(ms: int)
    requires MinIsoMs <= ms < EndIsoMs
    ensures var t := FromEpochSecond(ms / 1000, 0);
      var s := ToIso(ms);
      0 <= t.date.year <= 9999 && |s| == 24 && s[19] == '.' && s[23] == 'Z'
      && s[..19] == LocalText(Digits4(t.date.year), t) && s[20..23] == Digits3(ms % 1000)
  {
    var t := FromEpochSecond(ms / 1000, 0);
    IsoYear(ms);
    LocalTextSlices(Digits4(t.date.year), t);
    var local := LocalText(Digits4(t.date.year), t);
    assert ToIso(ms) == local + "." + Digits3(ms % 1000) + "Z";
  }

  /** An instant with a four-digit year reads back from its `toISOString` text. */
  lemma {:induction false} ParseIsoOfToIso(ms: int)
    requires MinIsoMs <= ms < EndIsoMs
    ensures ParseIso(ToIso(ms)) == Some(ms)
  {
    var t := FromEpochSecond(ms / 1000, 0);
    ToIsoSlices(ms);
    ParseLocalOfLocalText(t);
    EpochSecondOfFromEpochSecond(ms / 1000, 0);
    assert (ms / 1000) * 1000 + ms % 1000 == ms;
  }

  lemma {:induction false} DigitsValue3(x: string)
    requires |x| == 3 && AllDigits(x)
    ensures DigitsValue(x) == DigitValue(x[0]) * 100 + DigitsValue(x[1..])
  {
    DigitsValueAppend([], x[0]);
    DigitsValueAppend([x[0]], x[1]);
    DigitsValueAppend([x[0], x[1]], x[2]);
    assert [x[0]] + [x[1]] == [x[0], x[1]];
    assert x == [x[0], x[1]] + [x[2]];
    DigitsValueAppend([], x[1]);
    DigitsValueAppend([x[1]], x[2]);
    assert x[1..] == [x[1]] + [x[2]];
  }

  lemma {:induction false} Digits3OfValue(x: string)
    requires |x| == 3 && AllDigits(x)
    ensures DigitsValue(x) < 1000 && Digits3(DigitsValue(x)) == x
  {
    DigitsValue3(x);
    Digits2OfValue(x[1..]);
    DigitCharOfValue(x[0]);
    var n := DigitsValue(x);
    assert n / 100 == DigitValue(x[0]) && n % 100 == DigitsValue(x[1..]);
    assert x == [x[0]] + x[1..];
  }

  lemma {:induction false} SplitMillis(sec: int, frac: int, ms: int)
    requires 0 <= frac < 1000 && ms == sec * 1000 + frac
    ensures ms / 1000 == sec && ms % 1000 == frac
  {
  }

  /** The instant of a whole-second date-time plus a fraction prints as the date-time's text and the fraction. */
  lemma {:induction false} ToIsoOfLocal(t: DateTime, frac: int, ms: int)
    requires ValidDateTime(t) && t.nano == 0 && 0 <= t.date.year <= 9999 && 0 <= frac < 1000
    requires ms == EpochSecond(t) * 1000 + frac
    ensures ToIso(ms) == LocalText(Digits4(t.date.year), t) + "." + Digits3(frac) + "Z"
  {
    SplitMillis(EpochSecond(t), frac, ms);
    FromEpochSecondOfDateTime(t);
    var u := FromEpochSecond(ms / 1000, 0);
    assert u == t;
    assert JsYearText(u.date.year) == Digits4(t.date.year);
  }

  lemma {:induction false} EpochSecondRange(t: DateTime)
    requires ValidDateTime(t) && 0 <= t.date.year <= 9999
    ensures MinIsoMs <= EpochSecond(t) * 1000 < EndIsoMs - 999
  {
    DayOfYearBound(t.date);
    YearMonotone(t.date.year, 10000);
    if t.date.year > 0 {
      YearMonotone(0, t.date.year);
    }
  }

  lemma {:induction false} ParseIsoParts(s: string)
    requires ParseIso(s).Some?
    ensures |s| == 24 && ParseLocal(s[..19]).Some? && AllDigits(s[20..23])
    ensures ParseIso(s).value == EpochSecond(ParseLocal(s[..19]).value) * 1000 + DigitsValue(s[20..23])
    ensures s == s[..19] + "." + s[20..23] + "Z"
  {
  }

  /** Every text ParseIso accepts is the `toISOString` of the instant it names. */
  lemma {:induction false} ToIsoOfParseIso(s: string)
    requires ParseIso(s).Some?
    ensures MinIsoMs <= ParseIso(s).value < EndIsoMs
    ensures ToIso(ParseIso(s).value) == s
  {
    ParseIsoParts(s);
    var t := ParseLocal(s[..19]).value;
    var frac := DigitsValue(s[20..23]);
    Digits3OfValue(s[20..23]);
    LocalTextOfParseLocal(s[..19]);
    EpochSecondRange(t);
    var ms := ParseIso(s).value;
    ToIsoOfLocal(t, frac, ms);
  }
}
