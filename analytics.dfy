/**
 * `GET /api/analytics/daily`: one entry per calendar day of the last 7 or 30
 * days, each with the truncated minutes of the sessions that started that day
 * and the words logged that day, zero where nothing was recorded. Unlike the
 * study-session endpoints, the window and the grouping use the UTC date.
 */
module Analytics {
  import opened Common
  import opened Text
  import opened Gregorian
  import opened Zones
  import opened Folds
  import opened Store
  import opened StudySessions

  /** The `range` parameter: `"7d"` asks for a week, anything else for 30 days. */
  function DaysFor(range: string): (days: int)
    ensures range == "7d" ==> days == 7
    ensures range != "7d" ==> days == 30
  {
    if range == "30d" then 30 else if range == "7d" then 7 else 30
  }

  /** `map.getOrDefault(k, 0)`. */
  function GetOrZero(m: map<string, int>, k: string): int
  {
    if k in m then m[k] else 0
  }

  /** `groupingBy(key, summingInt(val))`: per key, the values of the elements having that key, added up. */
  function GroupSum<T>(s: seq<T>, key: T -> string, val: T -> int): map<string, int>
  {
    if s == [] then map[]
    else
      var m := GroupSum(s[..|s| - 1], key, val);
      var k := key(s[|s| - 1]);
      m[k := GetOrZero(m, k) + val(s[|s| - 1])]
  }

  /** The term an element contributes to group k. */
  function InGroup<T>(key: T -> string, val: T -> int, k: string): T -> int
  {
    (x: T) => if key(x) == k then val(x) else 0
  }

  /** A group's total is the sum of the values of exactly the elements with its key. */
  lemma {:induction false} GroupSumGet<T>(s: seq<T>, key: T -> string, val: T -> int, k: string)
    ensures GetOrZero(GroupSum(s, key, val), k) == Sum(s, InGroup(key, val, k))
  {
    if s != [] {
      GroupSumGet(s[..|s| - 1], key, val, k);
    }
  }

  /** Groups exist only for keys some element has. */
  lemma {:induction false} GroupSumKeys<T>(s: seq<T>, key: T -> string, val: T -> int, k: string)
    ensures k in GroupSum(s, key, val) <==> exists i :: 0 <= i < |s| && key(s[i]) == k
  {
    if s != [] {
      var init := s[..|s| - 1];
      GroupSumKeys(init, key, val, k);
      if exists i :: 0 <= i < |init| && key(init[i]) == k {
        var i :| 0 <= i < |init| && key(init[i]) == k;
        assert key(s[i]) == k;
      }
      if exists i :: 0 <= i < |s| && key(s[i]) == k {
        var i :| 0 <= i < |s| && key(s[i]) == k;
        if i < |init| {
          assert key(init[i]) == k;
        }
      }
    }
  }

  /** The group key of a session: the ISO text of its start's (UTC) date. */
  function StartDateText(s: SessionRow): string
  {
    DateText(s.startTime.date)
  }

  function LogDateText(w: WordLogRow): string
  {
    DateText(w.date)
  }

  function LogCount(w: WordLogRow): int
  {
    w.count
  }

  /** One element of the answer: exactly the keys `date`, `minutes` and `words`. */
  datatype DayEntry = DayEntry(date: string, minutes: int, words: int)

  /** The first day of the range: `today.minusDays(days - 1)`. */
  function FirstDay(range: string, today: LocalDate): LocalDate
  {
    PlusDays(today, -(DaysFor(range) - 1))
  }

  /** The sessions the endpoint fetches: between UTC midnight of the first day and UTC midnight after today, both included. */
  function RangeSessions(rows: seq<SessionRow>, userId: int, range: string, today: LocalDate): seq<SessionRow>
  {
    SessionsBetween(rows, userId, AtStartOfDay(FirstDay(range, today)), AtStartOfDay(PlusDays(today, 1)))
  }

  /** The word logs the endpoint fetches: dated from the first day through today. */
  function RangeWords(rows: seq<WordLogRow>, userId: int, range: string, today: LocalDate): seq<WordLogRow>
  {
    WordLogsBetween(rows, userId, FirstDay(range, today), today)
  }

  /** The entry of day d, read from the two groupings. */
  function EntryFor(d: LocalDate, minutesByDate: map<string, int>, wordsByDate: map<string, int>): DayEntry
  {
    var key := DateText(d);
    DayEntry(key, GetOrZero(minutesByDate, key), GetOrZero(wordsByDate, key))
  }

  /** The entries of the n days from `from` on, in order. */
  function Entries(from: LocalDate, n: nat, minutesByDate: map<string, int>, wordsByDate: map<string, int>): (r: seq<DayEntry>)
    ensures |r| == n
  {
    if n == 0 then []
    else Entries(from, n - 1, minutesByDate, wordsByDate) + [EntryFor(PlusDays(from, n - 1), minutesByDate, wordsByDate)]
  }

  /** Entry i is the entry of the i-th day after `from`. */
  lemma {:induction false} EntriesAt(from: LocalDate, n: nat, minutesByDate: map<string, int>, wordsByDate: map<string, int>, i: int)
    requires 0 <= i < n
    ensures Entries(from, n, minutesByDate, wordsByDate)[i] == EntryFor(PlusDays(from, i), minutesByDate, wordsByDate)
  {
    if i < n - 1 {
      EntriesAt(from, n - 1, minutesByDate, wordsByDate, i);
    }
  }

  /** The `minutesByDate` grouping of the fetched sessions. */
  function MinutesByDate(rows: seq<SessionRow>, userId: int, range: string, today: LocalDate): map<string, int>
  {
    GroupSum(RangeSessions(rows, userId, range, today), StartDateText, SessionMinutes)
  }

  /** The `wordsByDate` grouping of the fetched word logs. */
  function WordsByDate(rows: seq<WordLogRow>, userId: int, range: string, today: LocalDate): map<string, int>
  {
    GroupSum(RangeWords(rows, userId, range, today), LogDateText, LogCount)
  }

  /** What `daily` answers: the entry of each day of the range, from the first day through today. */
  function DailyOf(range: string, today: LocalDate, userId: int, sessionRows: seq<SessionRow>, wordRows: seq<WordLogRow>): (r: seq<DayEntry>)
    ensures |r| == DaysFor(range)
  {
    Entries(FirstDay(range, today), DaysFor(range),
      MinutesByDate(sessionRows, userId, range, today), WordsByDate(wordRows, userId, range, today))
  }

  /** `daily(range)`, with `LocalDate.now()` given as `today`: walks the days from the first through today. */
  method Daily(range: string, today: LocalDate, userId: int, sessionRows: seq<SessionRow>, wordRows: seq<WordLogRow>)
    returns (result: seq<DayEntry>)
    ensures result == DailyOf(range, today, userId, sessionRows, wordRows)
  {
    var days := DaysFor(range);
    var to := today;
    var from := FirstDay(range, today);
    var minutesByDate := MinutesByDate(sessionRows, userId, range, today);
    var wordsByDate := WordsByDate(wordRows, userId, range, today);
    assert DayNumber(from) == DayNumber(to) - (days - 1) by {
      DayNumberOfFromDayNumber(DayNumber(to) - (days - 1));
    }
    result := [];
    var current: LocalDate := from;
    while !IsAfter(current, to)
      invariant |result| <= days
      invariant current == PlusDays(from, |result|)
      invariant DayNumber(current) == DayNumber(from) + |result|
      invariant result == Entries(from, |result|, minutesByDate, wordsByDate)
      decreases DayNumber(to) - DayNumber(current)
    {
      assert DayNumber(current) <= DayNumber(to) by {
        IsAfterIffLaterDay(current, to);
      }
      var dateStr := DateText(current);
      var day := DayEntry(dateStr, GetOrZero(minutesByDate, dateStr), GetOrZero(wordsByDate, dateStr));
      NextDay(from, current, result, minutesByDate, wordsByDate);
      result := result + [day];
      current := PlusDays(current, 1);
    }
    assert DayNumber(current) > DayNumber(to) by {
      IsAfterIffLaterDay(current, to);
    }
  }

  /** `current.plusDays(1)` keeps `current` the day after the last one entered. */
  lemma NextDay(from: LocalDate, current: LocalDate, result: seq<DayEntry>, minutesByDate: map<string, int>, wordsByDate: map<string, int>)
    requires current == PlusDays(from, |result|) && DayNumber(current) == DayNumber(from) + |result|
    requires result == Entries(from, |result|, minutesByDate, wordsByDate)
    ensures PlusDays(current, 1) == PlusDays(from, |result| + 1)
    ensures DayNumber(PlusDays(current, 1)) == DayNumber(from) + |result| + 1
    ensures result + [EntryFor(current, minutesByDate, wordsByDate)] == Entries(from, |result| + 1, minutesByDate, wordsByDate)
  {
    DayNumberOfFromDayNumber(DayNumber(current) + 1);
  }

  /**
   * Entry i is keyed by the ISO text of day today - (days - 1) + i: the dates
   * are consecutive, and the last one is today.
   */
  lemma DailyDates(range: string, today: LocalDate, userId: int, sessionRows: seq<SessionRow>, wordRows: seq<WordLogRow>, i: int)
    requires 0 <= i < DaysFor(range)
    ensures var d := PlusDays(FirstDay(range, today), i);
      DailyOf(range, today, userId, sessionRows, wordRows)[i].date == DateText(d)
      && DayNumber(d) == DayNumber(today) - (DaysFor(range) - 1) + i
      && (i == DaysFor(range) - 1 ==> d == today)
  {
    var first := FirstDay(range, today);
    EntriesAt(first, DaysFor(range), MinutesByDate(sessionRows, userId, range, today), WordsByDate(wordRows, userId, range, today), i);
    RangeDay(range, today, i);
    if i == DaysFor(range) - 1 {
      FromDayNumberOfDate(today);
    }
  }

  /** A valid date texts the same as a four-digit-year date only if they are the same date. */
  lemma DateTextMatches(a: Date, d: Date)
    requires Valid(a) && Valid(d) && 0 <= d.year <= 9999
    ensures DateText(a) == DateText(d) <==> a == d
  {
    if 0 <= a.year <= 9999 {
      DateTextInjective(a, d);
    } else {
      assert DateText(d)[0] == Digits4(d.year)[0];
      assert '0' <= DateText(d)[0] <= '9';
      if a.year > 9999 {
        assert DateText(a)[0] == '+';
      } else {
        assert DateText(a)[0] == '-';
      }
    }
  }

  /** The session term of day d as the endpoint counts it. */
  function SessionsOn(userId: int, d: LocalDate): SessionRow -> int
  {
    (x: SessionRow) => if x.userId == userId && x.startTime.date == d then SessionMinutes(x) else 0
  }

  /** The minutes of a session that starts on day d, whoever owns it. */
  function StartedOn(d: LocalDate): SessionRow -> int
  {
    (x: SessionRow) => if x.startTime.date == d then SessionMinutes(x) else 0
  }

  /** Grouping by date text sums exactly the sessions that start on a four-digit-year day. */
  lemma GroupedMinutes(sessions: seq<SessionRow>, d: LocalDate)
    requires 0 <= d.year <= 9999
    ensures GetOrZero(GroupSum(sessions, StartDateText, SessionMinutes), DateText(d)) == Sum(sessions, StartedOn(d))
  {
    GroupSumGet(sessions, StartDateText, SessionMinutes, DateText(d));
    forall x | x in sessions
      ensures InGroup(StartDateText, SessionMinutes, DateText(d))(x) == StartedOn(d)(x)
    {
      assert StartDateText(x) == DateText(x.startTime.date);
      DateTextMatches(x.startTime.date, d);
    }
    SumAgree(sessions, InGroup(StartDateText, SessionMinutes, DateText(d)), StartedOn(d));
  }

  /** The instant of a date-time lies in its own day, counted in nanoseconds. */
  lemma NanoKeyInDay(t: LocalDateTime)
    ensures DayNumber(t.date) * 86_400_000_000_000 <= NanoKey(t) < (DayNumber(t.date) + 1) * 86_400_000_000_000
  {
    assert 0 <= SecondOfDay(t) <= 86399;
    assert NanoKey(t) == DayNumber(t.date) * 86_400_000_000_000 + (SecondOfDay(t) * 1_000_000_000 + t.nano);
  }

  /** A session starting on a day between from and to lies inside the fetched window. */
  lemma StartOnDayInWindow(x: SessionRow, from: LocalDate, to: LocalDate, d: LocalDate)
    requires DayNumber(from) <= DayNumber(d) <= DayNumber(to) && x.startTime.date == d
    ensures NanoKey(AtStartOfDay(from)) <= NanoKey(x.startTime) <= NanoKey(AtStartOfDay(PlusDays(to, 1)))
  {
    assert DayNumber(PlusDays(to, 1)) == DayNumber(to) + 1 by {
      DayNumberOfFromDayNumber(DayNumber(to) + 1);
    }
    NanoKeyInDay(x.startTime);
    assert NanoKey(AtStartOfDay(from)) == DayNumber(from) * 86_400_000_000_000;
    assert NanoKey(AtStartOfDay(PlusDays(to, 1))) == (DayNumber(to) + 1) * 86_400_000_000_000;
  }

  /** Over the fetched window, the sessions starting on a day of the range are all the user's sessions of that day. */
  lemma WindowMinutes(rows: seq<SessionRow>, userId: int, from: LocalDate, to: LocalDate, d: LocalDate)
    requires DayNumber(from) <= DayNumber(d) <= DayNumber(to)
    ensures Sum(SessionsBetween(rows, userId, AtStartOfDay(from), AtStartOfDay(PlusDays(to, 1))), StartedOn(d))
      == Sum(rows, SessionsOn(userId, d))
  {
    var lo, hi := AtStartOfDay(from), AtStartOfDay(PlusDays(to, 1));
    var p := (x: SessionRow) => StartsWithin(x, userId, lo, hi);
    SumPermutation(SessionsBetween(rows, userId, lo, hi), Filter(rows, p), StartedOn(d));
    forall x | x in rows
      ensures SessionsOn(userId, d)(x) == if p(x) then StartedOn(d)(x) else 0
    {
      if x.userId == userId && x.startTime.date == d {
        StartOnDayInWindow(x, from, to, d);
      }
    }
    SumFilter(rows, p, StartedOn(d), SessionsOn(userId, d));
  }

  /** Day i of the range is i days after the first, which is days - 1 days before today. */
  lemma RangeDay(range: string, today: LocalDate, i: int)
    requires 0 <= i < DaysFor(range)
    ensures PlusDays(FirstDay(range, today), i) == PlusDays(today, -(DaysFor(range) - 1) + i)
    ensures DayNumber(PlusDays(FirstDay(range, today), i)) == DayNumber(today) - (DaysFor(range) - 1) + i
    ensures DayNumber(FirstDay(range, today)) == DayNumber(today) - (DaysFor(range) - 1)
  {
    var first := FirstDay(range, today);
    DayNumberOfFromDayNumber(DayNumber(today) - (DaysFor(range) - 1));
    DayNumberOfFromDayNumber(DayNumber(first) + i);
  }

  /**
   * An entry's minutes are the truncated minutes of the user's sessions whose
   * UTC start date is the entry's date, summed; zero when there are none.
   */
  lemma DailyMinutes(range: string, today: LocalDate, userId: int, sessionRows: seq<SessionRow>, wordRows: seq<WordLogRow>, i: int)
    requires 0 <= i < DaysFor(range)
    requires 1 <= PlusDays(today, -(DaysFor(range) - 1) + i).year <= 9999
    ensures var r := DailyOf(range, today, userId, sessionRows, wordRows);
      r[i].minutes == Sum(sessionRows, SessionsOn(userId, PlusDays(FirstDay(range, today), i)))
  {
    var first := FirstDay(range, today);
    var d := PlusDays(first, i);
    RangeDay(range, today, i);
    var sessions := RangeSessions(sessionRows, userId, range, today);
    EntriesAt(first, DaysFor(range), MinutesByDate(sessionRows, userId, range, today), WordsByDate(wordRows, userId, range, today), i);
    assert DailyOf(range, today, userId, sessionRows, wordRows)[i].minutes
      == GetOrZero(GroupSum(sessions, StartDateText, SessionMinutes), DateText(d));
    GroupedMinutes(sessions, d);
    WindowMinutes(sessionRows, userId, first, today, d);
  }

  /** The word term of day d as the endpoint counts it. */
  function WordsOn(userId: int, d: LocalDate): WordLogRow -> int
  {
    (x: WordLogRow) => if x.userId == userId && x.date == d then x.count else 0
  }

  /** The count of a word log dated d, whoever owns it. */
  function DatedOn(d: LocalDate): WordLogRow -> int
  {
    (x: WordLogRow) => if x.date == d then x.count else 0
  }

  /** Grouping by date text sums exactly the logs of a four-digit-year day. */
  lemma GroupedWords(words: seq<WordLogRow>, d: LocalDate)
    requires 0 <= d.year <= 9999
    ensures GetOrZero(GroupSum(words, LogDateText, LogCount), DateText(d)) == Sum(words, DatedOn(d))
  {
    GroupSumGet(words, LogDateText, LogCount, DateText(d));
    forall x | x in words
      ensures InGroup(LogDateText, LogCount, DateText(d))(x) == DatedOn(d)(x)
    {
      assert LogDateText(x) == DateText(x.date) && LogCount(x) == x.count;
      DateTextMatches(x.date, d);
    }
    SumAgree(words, InGroup(LogDateText, LogCount, DateText(d)), DatedOn(d));
  }

  /** Over the fetched dates, the logs of a day of the range are all the user's logs of that day. */
  lemma WindowWords(rows: seq<WordLogRow>, userId: int, from: LocalDate, to: LocalDate, d: LocalDate)
    requires DayNumber(from) <= DayNumber(d) <= DayNumber(to)
    ensures Sum(WordLogsBetween(rows, userId, from, to), DatedOn(d)) == Sum(rows, WordsOn(userId, d))
  {
    var p := (x: WordLogRow) => DatedWithin(x, userId, from, to);
    SumPermutation(WordLogsBetween(rows, userId, from, to), Filter(rows, p), DatedOn(d));
    SumFilter(rows, p, DatedOn(d), WordsOn(userId, d));
  }

  /** An entry's words are the counts of the user's word logs dated that day, summed; zero when there are none. */
  lemma DailyWords(range: string, today: LocalDate, userId: int, sessionRows: seq<SessionRow>, wordRows: seq<WordLogRow>, i: int)
    requires 0 <= i < DaysFor(range)
    requires 1 <= PlusDays(today, -(DaysFor(range) - 1) + i).year <= 9999
    ensures var r := DailyOf(range, today, userId, sessionRows, wordRows);
      r[i].words == Sum(wordRows, WordsOn(userId, PlusDays(FirstDay(range, today), i)))
  {
    var first := FirstDay(range, today);
    var d := PlusDays(first, i);
    RangeDay(range, today, i);
    var words := RangeWords(wordRows, userId, range, today);
    EntriesAt(first, DaysFor(range), MinutesByDate(sessionRows, userId, range, today), WordsByDate(wordRows, userId, range, today), i);
    assert DailyOf(range, today, userId, sessionRows, wordRows)[i].words
      == GetOrZero(GroupSum(words, LogDateText, LogCount), DateText(d));
    GroupedWords(words, d);
    WindowWords(wordRows, userId, first, today, d);
  }
}
