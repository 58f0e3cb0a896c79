/**
 * The records the frontend pages receive from the backend, and the duration
 * arithmetic they share: `Math.round` of a millisecond difference, JavaScript's
 * truncating `%`, and the "both ends present" rule for word-log time spans.
 */
module Records {
  import opened Common
  import opened Text

  /**
   * A date-time field as received: its text (the backend's
   * `yyyy-MM-ddTHH:mm:ss` Beijing time, or a `yyyy-MM-dd` date) and the instant
   * in milliseconds that the browser's `new Date(text)` gives for it.
   */
  datatype Stamp = Stamp(text: string, ms: int)

  datatype Subject = Subject(
    id: int,
    name: string,
    colorHex: Option<string>,
    studyType: Option<string>,
    dailyTarget: Option<int>)

  datatype Session = Session(id: int, subjectId: int, startTime: Stamp, endTime: Stamp, note: Option<string>)

  datatype WordLog = WordLog(
    id: int,
    subjectId: Option<int>,
    date: Stamp,
    count: int,
    note: Option<string>,
    startTime: Option<Stamp>,
    endTime: Option<Stamp>)

  /** JavaScript truthiness of an optional string: present and not empty. */
  predicate TruthyText(s: Option<string>)
  {
    s.Some? && s.value != ""
  }

  /** JavaScript truthiness of an optional number: present and not zero. */
  predicate TruthyId(n: Option<int>)
  {
    n.Some? && n.value != 0
  }

  /** `a || b` on optional strings. */
  function TextOr(s: Option<string>, dflt: string): (r: string)
    ensures r == dflt || (TruthyText(s) && r == s.value)
    ensures TruthyText(s) ==> r == s.value
  {
    if TruthyText(s) then s.value else dflt
  }

  /** `Math.round(ms / 1000)`: whole seconds, halves rounding towards positive infinity. */
  function RoundSeconds(ms: int): int
  {
    (ms + 500) / 1000
  }

  /** `Math.round(ms / 1000 / 60)`: whole minutes, halves rounding towards positive infinity. */
  function RoundMinutes(ms: int): int
  {
    (ms + 30000) / 60000
  }

  /** RoundSeconds is the nearest integer to ms/1000, ties going up. */
  lemma {:induction false} RoundSecondsNearest(ms: int)
    ensures 2 * ms - 1000 < 2000 * RoundSeconds(ms) <= 2 * ms + 1000
  {
  }

  /** RoundMinutes is the nearest integer to ms/60000, ties going up. */
  lemma {:induction false} RoundMinutesNearest(ms: int)
    ensures 2 * ms - 60000 < 120000 * RoundMinutes(ms) <= 2 * ms + 60000
  {
  }

  /** Rounded minutes never decrease when the difference grows. */
  lemma {:induction false} RoundMinutesMonotone(a: int, b: int)
    requires a <= b
    ensures RoundMinutes(a) <= RoundMinutes(b)
  {
    RoundMinutesNearest(a);
    RoundMinutesNearest(b);
  }

  /** The quotient `Math.trunc(a / b)` for a positive b: rounded towards zero. */
  function TruncDiv(a: int, b: int): (q: int)
    requires b > 0
    ensures a >= 0 ==> 0 <= q * b <= a
    ensures a < 0 ==> a <= q * b <= 0
  {
    var n := if a >= 0 then a else -a;
    var m := n / b;
    DivParts(n, b, m, n % b);
    if a >= 0 then m
    else
      NegateProduct(m, b);
      -m
  }

  lemma DivParts(n: int, b: int, m: int, rem: int)
    requires n >= 0 && b > 0 && m == n / b && rem == n % b
    ensures m * b + rem == n && 0 <= rem < b && 0 <= m * b <= n
  {
  }

  lemma NegateProduct(m: int, b: int)
    ensures (-m) * b == -(m * b)
  {
  }

  /** JavaScript's `a % b`: what is left of a after the truncated quotient's multiple of b, with the sign of the dividend. */
  function JsRem(a: int, b: int): (r: int)
    requires b > 0
    ensures a >= 0 ==> 0 <= r < b
    ensures a < 0 ==> -b < r <= 0
    ensures r == a - TruncDiv(a, b) * b
  {
    if a >= 0 then a % b else -((-a) % b)
  }

  /** JavaScript's `Math.floor(a / b)` for a positive b: Dafny's division. */
  function FloorDiv(a: int, b: int): (q: int)
    requires b > 0
    ensures q * b <= a < q * b + b
  {
    a / b
  }

  /** A session's length in whole minutes: `Math.round((end - start) / 1000 / 60)`. */
  function SessionMinutes(s: Session): int
  {
    RoundMinutes(s.endTime.ms - s.startTime.ms)
  }

  /** Word logs carry a time span only when both ends are present. */
  predicate HasSpan(w: WordLog)
  {
    w.startTime.Some? && w.endTime.Some?
  }

  function SpanMs(w: WordLog): int
    requires HasSpan(w)
  {
    w.endTime.value.ms - w.startTime.value.ms
  }

  /** Minutes a word log adds to a day total: its rounded span, or nothing without one. */
  function SpanMinutes(w: WordLog): int
  {
    if HasSpan(w) then RoundMinutes(SpanMs(w)) else 0
  }

  /** The calendar day of a backend date-time text: `text.split("T")[0]`. */
  function DayKey(s: Stamp): string
  {
    Before(s.text, 'T')
  }
}
