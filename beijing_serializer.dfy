/**
 * The JSON serializer of the backend's `LocalDateTime` fields: the stored UTC
 * wall-clock time is shown on a Beijing clock as `yyyy-MM-dd'T'HH:mm:ss`.
 */
module BeijingSerializer {
  import opened Common
  import opened Text
  import opened Gregorian
  import opened Zones
  import opened IsoText

  /** What the generator writes: a JSON null or a JSON string. */
  datatype Json = JNull | JString(text: string)

  /** The `yyyy` field: the year of the era, at least four digits, with a `+` when it needs more. */
  function YearOfEraText(y: int): (s: string)
    ensures 1 <= y <= 9999 ==> s == Digits4(y)
  {
    var ye := if y >= 1 then y else 1 - y;
    if ye > 9999 then "+" + NatDigits(ye) else Digits4(ye)
  }

  /** `value.atZone(UTC).withZoneSameInstant(Asia/Shanghai)`: the same instant on a clock eight hours ahead. */
  function BeijingTime(t: LocalDateTime): (b: LocalDateTime)
    ensures EpochSecond(b) == EpochSecond(t) + BeijingOffset && b.nano == t.nano
  {
    PlusSecondsEpoch(t, BeijingOffset);
    PlusSeconds(t, BeijingOffset)
  }

  /** `serialize`: null stays null; a value becomes its Beijing time, formatted down to the second. */
  function Serialize(value: Option<LocalDateTime>): (j: Json)
    ensures value.None? <==> j == JNull
  {
    match value
    case None => JNull
    case Some(t) =>
      var b := BeijingTime(t);
      JString(LocalText(YearOfEraText(b.date.year), b))
  }

  /** For four-digit years the text is 19 characters: digits, with `-`, `-`, `T`, `:`, `:` at 4, 7, 10, 13, 16. */
  lemma SerializeLayout(t: LocalDateTime)
    requires 1 <= BeijingTime(t).date.year <= 9999
    ensures var s := Serialize(Some(t)).text;
      |s| == 19 && s[4] == '-' && s[7] == '-' && s[10] == 'T' && s[13] == ':' && s[16] == ':'
      && forall i :: 0 <= i < 19 && i !in {4, 7, 10, 13, 16} ==> IsDigit(s[i])
  {
    LocalTextLayout(BeijingTime(t));
  }

  /** The quotient and remainder of a division by the length of a day. */
  lemma DaySplit(x: int, q: int, r: int)
    requires 0 <= r < 86400 && x == q * 86400 + r
    ensures x / 86400 == q && x % 86400 == r
  {
  }

  /** Eight hours on from `hour`, on a 24-hour dial. */
  lemma HourShift(hour: int)
    requires 0 <= hour < 24
    ensures (if hour >= 16 then hour - 16 else hour + 8) == (hour + 8) % 24
  {
  }

  /** Date-times built from the same second differ at most below the second. */
  lemma SameSecond(s: int, n: int, m: int)
    requires 0 <= n < 1_000_000_000 && 0 <= m < 1_000_000_000
    ensures FromEpochSecond(s, n).(nano := 0) == FromEpochSecond(s, m).(nano := 0)
  {
  }

  /** The Beijing clock reads eight hours later: the date moves on exactly when the UTC hour is 16 or later. */
  lemma BeijingClock(t: LocalDateTime)
    ensures var b := BeijingTime(t);
      b.date == (if t.hour >= 16 then PlusDays(t.date, 1) else t.date)
      && b.hour == (t.hour + 8) % 24 && b.minute == t.minute && b.second == t.second
  {
    var s := EpochSecond(t) + BeijingOffset;
    var later := t.hour >= 16;
    var q := if later then DayNumber(t.date) + 1 else DayNumber(t.date);
    var h := if later then t.hour - 16 else t.hour + 8;
    var rest := t.minute * 60 + t.second;
    assert s == q * 86400 + (h * 3600 + rest);
    DaySplit(s, q, h * 3600 + rest);
    assert (h * 3600 + rest) / 3600 == h && (h * 3600 + rest) % 3600 == rest;
    assert rest / 60 == t.minute && rest % 60 == t.second;
    assert BeijingTime(t) == DateTime(FromDayNumber(q), h, t.minute, t.second, t.nano);
    HourShift(t.hour);
    if !later {
      FromDayNumberOfDate(t.date);
    }
  }

  /** The text of a date-time does not look below the second. */
  lemma LocalTextIgnoresNano(year: string, a: DateTime, b: DateTime)
    requires ValidDateTime(a) && ValidDateTime(b) && a.(nano := 0) == b.(nano := 0)
    ensures LocalText(year, a) == LocalText(year, b)
  {
    assert a.date == b.date && a.hour == b.hour && a.minute == b.minute && a.second == b.second;
  }

  /** Two times that differ only below the second are written alike. */
  lemma SerializeDropsFraction(t: LocalDateTime, u: LocalDateTime)
    requires t.(nano := 0) == u.(nano := 0)
    ensures Serialize(Some(t)) == Serialize(Some(u))
  {
    var bt, bu := BeijingTime(t), BeijingTime(u);
    assert t.date == u.date && t.hour == u.hour && t.minute == u.minute && t.second == u.second;
    assert EpochSecond(t) == EpochSecond(u);
    SameSecond(EpochSecond(t) + BeijingOffset, t.nano, u.nano);
    LocalTextIgnoresNano(YearOfEraText(bt.date.year), bt, bu);
  }

  /** Going eight hours back from the Beijing time, down to the second, gives the value down to the second. */
  lemma BackEightHours(t: LocalDateTime)
    ensures PlusSeconds(BeijingTime(t).(nano := 0), -BeijingOffset) == t.(nano := 0)
  {
    var p := BeijingTime(t).(nano := 0);
    var t0 := t.(nano := 0);
    assert EpochSecond(p) == EpochSecond(BeijingTime(t));
    assert EpochSecond(t0) == EpochSecond(t);
    FromEpochSecondOfDateTime(t0);
  }

  /** Parsing the text back and going eight hours back gives the value, truncated to whole seconds. */
  lemma SerializeRoundTrip(t: LocalDateTime)
    requires 1 <= BeijingTime(t).date.year <= 9999
    ensures var p := ParseLocal(Serialize(Some(t)).text);
      p.Some? && ValidDateTime(p.value) && PlusSeconds(p.value, -BeijingOffset) == t.(nano := 0)
  {
    var b := BeijingTime(t);
    assert ParseLocal(Serialize(Some(t)).text) == Some(b.(nano := 0)) by {
      assert Serialize(Some(t)).text == LocalText(Digits4(b.date.year), b);
      ParseLocalOfLocalText(b);
    }
    BackEightHours(t);
  }
}
