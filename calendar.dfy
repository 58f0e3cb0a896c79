/**
 * The calendar page: per-day `{minutes, words}` buckets for a month, the
 * Monday-first month grid, the heat-map colour of a day, and the totals of
 * the day-detail dialog.
 */
module Calendar {
  import opened Common
  import opened Records
  import opened Folds
  import opened Gregorian

  /** One day's totals: `{ minutes, words }`. */
  datatype Bucket = Bucket(minutes: int, words: int)

  /** `monthData[date] || { minutes: 0, words: 0 }` */
  function Lookup(data: map<string, Bucket>, day: string): Bucket
  {
    if day in data then data[day] else Bucket(0, 0)
  }

  /** A session's minutes count on the day of its start text. */
  function SessionTerm(day: string): Session -> int
  {
    (s: Session) => if DayKey(s.startTime) == day then SessionMinutes(s) else 0
  }

  /** A word log's `count || 0` counts on its date. */
  function WordTerm(day: string): WordLog -> int
  {
    (w: WordLog) => if w.date.text == day then w.count else 0
  }

  /** A word log's span minutes count on its date, when it has both ends. */
  function SpanTerm(day: string): WordLog -> int
  {
    (w: WordLog) => if w.date.text == day then SpanMinutes(w) else 0
  }

  /** The days that have at least one record. */
  function RecordDays(sessions: seq<Session>, words: seq<WordLog>): set<string>
  {
    (set s | s in sessions :: DayKey(s.startTime)) + (set w | w in words :: w.date.text)
  }

  /** The bucket of one day, as the sums of its records' contributions. */
  function DayBucket(sessions: seq<Session>, words: seq<WordLog>, day: string): Bucket
  {
    Bucket(Sum(sessions, SessionTerm(day)) + Sum(words, SpanTerm(day)), Sum(words, WordTerm(day)))
  }

  /**
   * `if (!data[day]) data[day] = { minutes: 0, words: 0 }` followed by
   * `data[day].minutes += minutes` and `data[day].words += words`; a word log
   * without a span adds zero minutes, as skipping its `+=` does.
   */
  function Add(data: map<string, Bucket>, day: string, minutes: int, words: int): (r: map<string, Bucket>)
    ensures r.Keys == data.Keys + {day}
    ensures forall d :: (Lookup(r, d)
      == if d == day then Bucket(Lookup(data, d).minutes + minutes, Lookup(data, d).words + words) else Lookup(data, d))
  {
    data[day := Bucket(Lookup(data, day).minutes + minutes, Lookup(data, day).words + words)]
  }

  /** Every day's bucket holds the given session and word-log sums. */
  ghost predicate Bucketed(data: map<string, Bucket>, sessions: seq<Session>, words: seq<WordLog>)
  {
    forall day :: Lookup(data, day) == DayBucket(sessions, words, day)
  }

  lemma SessionStep(data: map<string, Bucket>, sessions: seq<Session>, s: Session)
    requires Bucketed(data, sessions, [])
    ensures Bucketed(Add(data, DayKey(s.startTime), SessionMinutes(s), 0), sessions + [s], [])
  {
    assert (sessions + [s])[..|sessions|] == sessions;
  }

  lemma WordStep(data: map<string, Bucket>, sessions: seq<Session>, words: seq<WordLog>, w: WordLog)
    requires Bucketed(data, sessions, words)
    ensures Bucketed(Add(data, w.date.text, SpanMinutes(w), w.count), sessions, words + [w])
  {
    assert (words + [w])[..|words|] == words;
  }

  function SessionDays(sessions: seq<Session>): set<string>
  {
    set s | s in sessions :: DayKey(s.startTime)
  }

  function WordDays(words: seq<WordLog>): set<string>
  {
    set w | w in words :: w.date.text
  }

  lemma SessionDaysAppend(sessions: seq<Session>, s: Session)
    ensures SessionDays(sessions + [s]) == SessionDays(sessions) + {DayKey(s.startTime)}
  {
  }

  lemma WordDaysAppend(words: seq<WordLog>, w: WordLog)
    ensures WordDays(words + [w]) == WordDays(words) + {w.date.text}
  {
  }

  /**
   * `loadMonthData` once both responses are in: a bucket is created on a
   * record's first day, and each record adds its minutes and words to it.
   */
  method LoadMonthData(sessions: seq<Session>, words: seq<WordLog>) returns (data: map<string, Bucket>)
    ensures data.Keys == RecordDays(sessions, words)
    ensures forall day :: Lookup(data, day) == DayBucket(sessions, words, day)
  {
    data := map[];
    for i := 0 to |sessions|
      invariant data.Keys == SessionDays(sessions[..i])
      invariant Bucketed(data, sessions[..i], [])
    {
      var s := sessions[i];
      var day := DayKey(s.startTime);
      assert sessions[..i + 1] == sessions[..i] + [s];
      SessionStep(data, sessions[..i], s);
      SessionDaysAppend(sessions[..i], s);
      data := Add(data, day, SessionMinutes(s), 0);
    }
    assert sessions[..|sessions|] == sessions;
    for i := 0 to |words|
      invariant data.Keys == SessionDays(sessions) + WordDays(words[..i])
      invariant Bucketed(data, sessions, words[..i])
    {
      var w := words[i];
      var day := w.date.text;
      assert words[..i + 1] == words[..i] + [w];
      WordStep(data, sessions, words[..i], w);
      WordDaysAppend(words[..i], w);
      data := Add(data, day, SpanMinutes(w), w.count);
    }
    assert words[..|words|] == words;
  }

  /** A day's bucket does not depend on the order in which the records arrive. */
  lemma DayBucketOrderFree(sessions: seq<Session>, sessions': seq<Session>, words: seq<WordLog>, words': seq<WordLog>, day: string)
    requires multiset(sessions) == multiset(sessions') && multiset(words) == multiset(words')
    ensures DayBucket(sessions, words, day) == DayBucket(sessions', words', day)
  {
    SumPermutation(sessions, sessions', SessionTerm(day));
    SumPermutation(words, words', SpanTerm(day));
    SumPermutation(words, words', WordTerm(day));
  }

  /** A day without records reads as an empty bucket. */
  lemma DayWithoutRecords(sessions: seq<Session>, words: seq<WordLog>, day: string)
    requires day !in RecordDays(sessions, words)
    ensures DayBucket(sessions, words, day) == Bucket(0, 0)
  {
    assert forall s :: s in sessions ==> DayKey(s.startTime) in RecordDays(sessions, words);
    assert forall w :: w in words ==> w.date.text in RecordDays(sessions, words);
    SumZero(sessions, SessionTerm(day));
    SumZero(words, SpanTerm(day));
    SumZero(words, WordTerm(day));
  }

  /** The dialog's totals: `minutes + wordMinutes` and `words` of `loadDayDetail`. */
  function DayDetail(sessions: seq<Session>, words: seq<WordLog>): Bucket
  {
    Bucket(Sum(sessions, SessionMinutes) + Sum(words, SpanMinutes), Sum(words, (w: WordLog) => w.count))
  }

  /** For the records of one day, the dialog shows the totals of that day's bucket. */
  lemma DayDetailMatchesBucket(sessions: seq<Session>, words: seq<WordLog>, day: string)
    requires forall s :: s in sessions ==> DayKey(s.startTime) == day
    requires forall w :: w in words ==> w.date.text == day
    ensures DayDetail(sessions, words) == DayBucket(sessions, words, day)
  {
    SumAgree(sessions, SessionMinutes, SessionTerm(day));
    SumAgree(words, SpanMinutes, SpanTerm(day));
    SumAgree(words, (w: WordLog) => w.count, WordTerm(day));
  }

  /** `new Date(y, ...)` reads a year from 0 to 99 as 1900 to 1999. */
  function JsYear(year: int): int
  {
    if 0 <= year <= 99 then 1900 + year else year
  }

  /** The month `new Date(year, month - 1, 1)` lands in, months out of range carrying into the year. */
  function MonthStart(year: int, month: int): (d: Date)
    ensures Valid(d) && d.day == 1
    ensures d.year * 12 + (d.month - 1) == JsYear(year) * 12 + (month - 1)
  {
    Date(JsYear(year) + FloorDiv(month - 1, 12), (month - 1) % 12 + 1, 1)
  }

  /** `Date.prototype.getDay`: 0 for Sunday; 1970-01-01 was a Thursday. */
  function WeekDay(d: Date): int
    requires Valid(d)
  {
    (DayNumber(d) + 4) % 7
  }

  /** The position of a date's weekday in the header 一 … 日 (Monday first). */
  function MondayColumn(d: Date): int
    requires Valid(d)
  {
    (DayNumber(d) + 3) % 7
  }

  /**
   * `getDaysInMonth`: one empty cell per weekday before the 1st (Monday
   * first), then the day numbers 1 to the month's length in order.
   */
  method GetDaysInMonth(year: int, month: int) returns (days: seq<Option<int>>, offset: int)
    ensures var first := MonthStart(year, month);
      offset == (if WeekDay(first) == 0 then 6 else WeekDay(first) - 1)
      && |days| == offset + DaysInMonth(first.year, first.month)
    ensures 0 <= offset <= 6
    ensures forall k :: 0 <= k < offset ==> days[k] == None
    ensures forall k :: offset <= k < |days| ==> days[k] == Some(k - offset + 1)
  {
    var first := MonthStart(year, month);
    var firstDay := WeekDay(first);
    var daysInMonth := DaysInMonth(first.year, first.month);
    offset := if firstDay == 0 then 6 else firstDay - 1;
    days := seq(offset, _ => None);
    var i := 1;
    while i <= daysInMonth
      invariant 1 <= i <= daysInMonth + 1
      invariant |days| == offset + i - 1
      invariant forall k :: 0 <= k < offset ==> days[k] == None
      invariant forall k :: offset <= k < |days| ==> days[k] == Some(k - offset + 1)
    {
      days := days + [Some(i)];
      i := i + 1;
    }
  }

  /** Day n of the month sits in the column of its own weekday. */
  lemma GridColumn(year: int, month: int, offset: int, n: int)
    requires var first := MonthStart(year, month);
      offset == (if WeekDay(first) == 0 then 6 else WeekDay(first) - 1)
      && 1 <= n <= DaysInMonth(first.year, first.month)
    ensures var first := MonthStart(year, month);
      (offset + n - 1) % 7 == MondayColumn(Date(first.year, first.month, n))
  {
    var first := MonthStart(year, month);
    var d := Date(first.year, first.month, n);
    var n1 := DayNumber(first);
    assert DayNumber(d) == n1 + n - 1;
    var q := (n1 + 4) / 7;
    assert n1 + 4 == 7 * q + WeekDay(first);
    if WeekDay(first) == 0 {
      assert offset + n - 1 + 7 * q == n1 + 3 + n - 1 + 7;
    } else {
      assert offset + n - 1 + 7 * q == n1 + 3 + n - 1;
    }
    ModShift(offset + n - 1, q, DayNumber(d) + 3);
  }

  lemma ModShift(a: int, q: int, b: int)
    requires a + 7 * q == b || a + 7 * q == b + 7
    ensures a % 7 == b % 7
  {
  }

  /** The heat-map classes, from no study to four hours or more. */
  const IntensityClasses: seq<string> :=
    ["", "bg-green-100", "bg-green-400", "bg-green-600", "bg-blue-600", "bg-red-600"]

  /** `getIntensity`: the colour class of a day's minutes. */
  function GetIntensity(minutes: int): string
  {
    if minutes == 0 then ""
    else if minutes < 60 then "bg-green-100"
    else if minutes < 120 then "bg-green-400"
    else if minutes < 180 then "bg-green-600"
    else if minutes < 240 then "bg-blue-600"
    else "bg-red-600"
  }

  /** How many of the thresholds the minutes reach; for ascending thresholds, exactly the first r of them. */
  function Reached(thresholds: seq<int>, minutes: int): (r: nat)
    ensures r <= |thresholds|
    ensures (forall i, j :: 0 <= i < j < |thresholds| ==> thresholds[i] <= thresholds[j]) ==>
      forall i :: 0 <= i < |thresholds| ==> (minutes >= thresholds[i] <==> i < r)
  {
    if thresholds == [] then 0
    else (if minutes >= thresholds[0] then 1 else 0) + Reached(thresholds[1..], minutes)
  }

  /** A day's level: none without study, then one more for each full hour up to four. */
  function Level(minutes: int): (r: nat)
    ensures r < |IntensityClasses|
  {
    if minutes == 0 then 0 else 1 + Reached([60, 120, 180, 240], minutes)
  }

  /** `getIntensity` picks the class of the day's level. */
  lemma IntensityByLevel(minutes: int)
    ensures GetIntensity(minutes) == IntensityClasses[Level(minutes)]
  {
    var ts := [60, 120, 180, 240];
    assert ts[1..] == [120, 180, 240] && ts[1..][1..] == [180, 240];
    assert ts[1..][1..][1..] == [240] && ts[1..][1..][1..][1..] == [];
    assert Reached([240], minutes) == if minutes >= 240 then 1 else 0;
    assert Reached([180, 240], minutes) == (if minutes >= 180 then 1 else 0) + Reached([240], minutes);
    assert Reached([120, 180, 240], minutes) == (if minutes >= 120 then 1 else 0) + Reached([180, 240], minutes);
    assert Reached(ts, minutes) == (if minutes >= 60 then 1 else 0) + Reached([120, 180, 240], minutes);
  }

  lemma {:induction false} ReachedMonotone(thresholds: seq<int>, a: int, b: int)
    requires a <= b
    ensures Reached(thresholds, a) <= Reached(thresholds, b)
  {
    if thresholds != [] {
      ReachedMonotone(thresholds[1..], a, b);
    }
  }

  /** More minutes of study never give a lighter colour. */
  lemma LevelMonotone(a: int, b: int)
    requires 0 < a <= b
    ensures Level(a) <= Level(b)
  {
    ReachedMonotone([60, 120, 180, 240], a, b);
  }
}
