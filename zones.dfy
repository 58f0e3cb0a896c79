/**
 * Offsets, the Beijing zone and durations as the backend computes them with
 * `java.time`: `OffsetDateTime` to UTC, Beijing midnights expressed in UTC,
 * `Duration.between(..).toMinutes()` and `LocalDate.toString()`.
 */
module Zones {
  import opened Common
  import opened Text
  import opened Gregorian
  import opened IsoText

  /** A `java.time.LocalDate`: always a valid calendar date. */
  type LocalDate = d: Date | Valid(d) witness Date(1970, 1, 1)

  /** A `java.time.LocalDateTime`: always a valid date and time of day. */
  type LocalDateTime = t: DateTime | ValidDateTime(t) witness DateTime(Date(1970, 1, 1), 0, 0, 0, 0)

  /** A Java `OffsetDateTime`: a local date-time and its offset east of UTC, in seconds. */
  datatype OffsetDateTime = OffsetDateTime(local: DateTime, offset: int)

  predicate ValidOffsetDateTime(o: OffsetDateTime)
  {
    ValidDateTime(o.local) && -18 * 3600 <= o.offset <= 18 * 3600
  }

  /** The instant o names, in whole seconds since 1970-01-01T00:00Z. */
  function InstantSecond(o: OffsetDateTime): int
    requires ValidOffsetDateTime(o)
  {
    EpochSecond(o.local) - o.offset
  }

  /** `o.withOffsetSameInstant(ZoneOffset.UTC).toLocalDateTime()`: the same instant, read on a UTC clock. */
  function UtcLocal(o: OffsetDateTime): (t: DateTime)
    requires ValidOffsetDateTime(o)
    ensures ValidDateTime(t) && EpochSecond(t) == InstantSecond(o) && t.nano == o.local.nano
  {
    EpochSecondOfFromEpochSecond(EpochSecond(o.local) - o.offset, o.local.nano);
    PlusSeconds(o.local, -o.offset)
  }

  /** `Asia/Shanghai`, taken as a fixed offset of eight hours. */
  const BeijingOffset: int := 8 * 3600

  /** `d.atStartOfDay().atZone(Asia/Shanghai).withZoneSameInstant(UTC).toLocalDateTime()`. */
  function BeijingMidnightUtc(d: Date): (t: DateTime)
    requires Valid(d)
    ensures ValidDateTime(t) && EpochSecond(t) == DayNumber(d) * 86400 - BeijingOffset
  {
    EpochSecondOfFromEpochSecond(DayNumber(d) * 86400 - BeijingOffset, 0);
    PlusSeconds(AtStartOfDay(d), -BeijingOffset)
  }

  /** Midnight in Beijing is 16:00 UTC on the day before. */
  lemma BeijingMidnightIsFourPm(d: Date)
    requires Valid(d)
    ensures BeijingMidnightUtc(d) == DateTime(PlusDays(d, -1), 16, 0, 0, 0)
  {
    var s := DayNumber(d) * 86400 - BeijingOffset;
    assert s == (DayNumber(d) - 1) * 86400 + 57600;
    assert s / 86400 == DayNumber(d) - 1 && s % 86400 == 57600;
  }

  /** The local date-time t + k seconds, read back as k seconds later. */
  lemma PlusSecondsEpoch(t: DateTime, k: int)
    requires ValidDateTime(t)
    ensures EpochSecond(PlusSeconds(t, k)) == EpochSecond(t) + k && PlusSeconds(t, k).nano == t.nano
  {
    EpochSecondOfFromEpochSecond(EpochSecond(t) + k, t.nano);
  }

  /** An instant with nanoseconds: the total order the database compares date-times by. */
  function NanoKey(t: DateTime): int
    requires ValidDateTime(t)
  {
    EpochSecond(t) * 1_000_000_000 + t.nano
  }

  /** Java's `long / int` division, which truncates towards zero. */
  function JavaDiv(x: int, d: int): (q: int)
    requires d > 0
    ensures x >= 0 ==> q >= 0 && q * d <= x < q * d + d
    ensures x < 0 ==> q <= 0 && -q * d <= -x < -q * d + d
  {
    if x >= 0 then FloorBounds(x, d); x / d else FloorBounds(-x, d); -((-x) / d)
  }

  lemma FloorBounds(x: int, d: int)
    requires x >= 0 && d > 0
    ensures x / d >= 0 && (x / d) * d <= x < (x / d) * d + d
  {
    assert x == d * (x / d) + x % d;
  }

  /** `Duration.between(a, b).getSeconds()`: whole seconds, rounded down, of b - a. */
  function DurationSeconds(a: DateTime, b: DateTime): int
    requires ValidDateTime(a) && ValidDateTime(b)
  {
    (NanoKey(b) - NanoKey(a)) / 1_000_000_000
  }

  /** `(int) Duration.between(a, b).toMinutes()`: whole minutes, truncated towards zero. */
  function ToMinutes(a: DateTime, b: DateTime): (m: int)
    requires ValidDateTime(a) && ValidDateTime(b)
    ensures NanoKey(a) <= NanoKey(b) ==> m >= 0 && m * 60_000_000_000 <= NanoKey(b) - NanoKey(a) < (m + 1) * 60_000_000_000
  {
    JavaDiv(DurationSeconds(a, b), 60)
  }

  /**
   * The backend's truncated minutes against the browser's rounded ones
   * (`Math.round(ms / 60000)`): for the same elapsed milliseconds they
   * differ by at most one, the browser never lower.
   */
  lemma TruncatedBelowRounded(ms: int)
    requires ms >= 0
    ensures var truncated := JavaDiv(ms / 1000, 60);
      var rounded := (ms + 30000) / 60000;
      truncated <= rounded <= truncated + 1
  {
    var s := ms / 1000;
    var truncated := JavaDiv(s, 60);
    assert truncated * 60 <= s < truncated * 60 + 60;
    assert truncated * 60000 <= ms < truncated * 60000 + 60000;
  }

  /** `LocalDate.toString()`: ISO `uuuu-MM-dd`, four-digit years padded, wider years signed. */
  function DateText(d: Date): string
    requires Valid(d)
  {
    YearText(d.year) + "-" + Digits2(d.month) + "-" + Digits2(d.day)
  }

  /** The year part of `LocalDate.toString()`. */
  function YearText(y: int): (s: string)
    ensures 0 <= y <= 9999 ==> s == Digits4(y)
  {
    if y > 9999 then "+" + NatDigits(y)
    else if y >= 1000 then NatDigitsFour(y); NatDigits(y)
    else if y >= 0 then Digits4(y)
    else if y > -1000 then "-" + Digits4(-y)
    else IntToString(y)
  }

  /** Where the fields of a date with a four-digit year sit in its text. */
  lemma DateTextSlices(d: Date)
    requires Valid(d) && 0 <= d.year <= 9999
    ensures var s := DateText(d);
      |s| == 10 && s[..4] == Digits4(d.year) && s[5..7] == Digits2(d.month) && s[8..10] == Digits2(d.day)
  {
    var y, m, n := Digits4(d.year), Digits2(d.month), Digits2(d.day);
    var s := y + "-" + m + "-" + n;
    assert DateText(d) == s;
    assert s[..4] == y;
    assert s[5..7] == m;
    assert s[8..10] == n;
  }

  /** Years from 0 to 9999 have four-digit texts, so distinct dates have distinct texts. */
  lemma DateTextInjective(a: Date, b: Date)
    requires Valid(a) && Valid(b) && 0 <= a.year <= 9999 && 0 <= b.year <= 9999
    ensures DateText(a) == DateText(b) <==> a == b
  {
    if DateText(a) == DateText(b) {
      DateTextSlices(a);
      DateTextSlices(b);
      assert DigitsValue(Digits4(a.year)) == a.year && DigitsValue(Digits4(b.year)) == b.year;
    }
  }
}
