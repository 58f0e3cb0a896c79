/**
 * The study-session endpoints: `create` stores the two instants as UTC
 * wall-clock times; `list` and `day` select by Beijing calendar days, turned
 * into a UTC window; `day` adds up whole (truncated) minutes.
 */
module StudySessions {
  import opened Common
  import opened Gregorian
  import opened Zones
  import opened Folds
  import opened Store
  import opened Sorting

  /** The body of `POST /api/study-sessions`. */
  datatype CreateRequest = CreateRequest(subjectId: int, startTime: OffsetDateTime, endTime: OffsetDateTime, note: Option<string>)

  /** `create`: a new row for the current user with both times re-expressed in UTC. */
  method Create(db: Database, userId: int, req: CreateRequest) returns (saved: SessionRow)
    requires db.Valid() && ValidOffsetDateTime(req.startTime) && ValidOffsetDateTime(req.endTime)
    modifies db
    ensures db.Valid() && db.sessions == old(db.sessions) + [saved]
    ensures saved.id == old(db.nextId) && db.nextId == old(db.nextId) + 1 && saved.userId == userId
    ensures saved.subjectId == req.subjectId && saved.note == req.note
    ensures saved.startTime == UtcLocal(req.startTime) && saved.endTime == UtcLocal(req.endTime)
    ensures EpochSecond(saved.startTime) == InstantSecond(req.startTime)
    ensures EpochSecond(saved.endTime) == InstantSecond(req.endTime)
    ensures db.users == old(db.users) && db.subjects == old(db.subjects)
    ensures db.wordLogs == old(db.wordLogs) && db.inviteCodes == old(db.inviteCodes)
  {
    var row := SessionRow(0, userId, req.subjectId, UtcLocal(req.startTime), UtcLocal(req.endTime), req.note);
    saved := db.InsertSession(row);
  }

  /** The UTC bounds for the Beijing days from..to: Beijing midnight opening `from`, Beijing midnight closing `to`. */
  function Window(from: LocalDate, to: LocalDate): (LocalDateTime, LocalDateTime)
  {
    (BeijingMidnightUtc(from), BeijingMidnightUtc(PlusDays(to, 1)))
  }

  lemma PlusDaysNumber(d: Date, k: int)
    requires Valid(d)
    ensures DayNumber(PlusDays(d, k)) == DayNumber(d) + k
  {
    DayNumberOfFromDayNumber(DayNumber(d) + k);
  }

  /** The window opens at 16:00 UTC the day before `from` and closes at 16:00 UTC on `to`. */
  lemma WindowBounds(from: LocalDate, to: LocalDate)
    ensures Window(from, to).0 == DateTime(PlusDays(from, -1), 16, 0, 0, 0)
    ensures Window(from, to).1 == DateTime(to, 16, 0, 0, 0)
  {
    var next := PlusDays(to, 1);
    BeijingMidnightIsFourPm(from);
    BeijingMidnightIsFourPm(next);
    PlusDaysNumber(to, 1);
    FromDayNumberOfDate(to);
  }

  /** The window spans exactly the to - from + 1 days it names. */
  lemma WindowLength(from: LocalDate, to: LocalDate)
    ensures EpochSecond(Window(from, to).1) - EpochSecond(Window(from, to).0) == (DayNumber(to) - DayNumber(from) + 1) * 86400
  {
    PlusDaysNumber(to, 1);
  }

  /** `list(from, to)`: the user's sessions starting in the window, bounds included, earliest first. */
  function List(rows: seq<SessionRow>, userId: int, from: LocalDate, to: LocalDate): (r: seq<SessionRow>)
    ensures forall x :: x in r <==> x in rows && StartsWithin(x, userId, Window(from, to).0, Window(from, to).1)
    ensures SortedBy(r, StartKey)
  {
    SessionsBetween(rows, userId, Window(from, to).0, Window(from, to).1)
  }

  /** The Beijing calendar day of a UTC wall-clock time. */
  function BeijingDate(t: LocalDateTime): LocalDate
  {
    PlusSeconds(t, BeijingOffset).date
  }

  /**
   * A session is fetched for day d exactly when it starts on d in Beijing, or
   * exactly at the midnight that closes d (the upper bound is inclusive).
   */
  lemma DayWindowMembers(t: LocalDateTime, d: LocalDate)
    ensures var w := Window(d, d);
      NanoKey(w.0) <= NanoKey(t) <= NanoKey(w.1) <==> BeijingDate(t) == d || NanoKey(t) == NanoKey(w.1)
  {
    var w := Window(d, d);
    var b := PlusSeconds(t, BeijingOffset);
    PlusSecondsEpoch(t, BeijingOffset);
    PlusDaysNumber(d, 1);
    var n := DayNumber(d);
    var s := EpochSecond(t) + BeijingOffset;
    assert EpochSecond(b) == s;
    assert DayNumber(b.date) == s / 86400 by {
      assert 0 <= SecondOfDay(b) < 86400;
    }
    IsAfterIffLaterDay(b.date, d);
    IsAfterIffLaterDay(d, b.date);
    FromDayNumberOfDate(d);
    FromDayNumberOfDate(b.date);
    assert EpochSecond(w.0) == n * 86400 - BeijingOffset;
    assert EpochSecond(w.1) == (n + 1) * 86400 - BeijingOffset;
    if b.date == d {
      assert n * 86400 <= s < (n + 1) * 86400;
    }
  }

  /** The midnight between two Beijing days lies in the windows of both. */
  lemma AdjacentDaysShareMidnight(d: LocalDate)
    ensures var next := PlusDays(d, 1);
      Window(d, d).1 == Window(next, next).0
  {
  }

  /** Whole minutes of a session, truncated. */
  function SessionMinutes(s: SessionRow): int
  {
    ToMinutes(s.startTime, s.endTime)
  }

  /** The answer of `GET /days/{date}`. */
  datatype DayResult = DayResult(sessions: seq<SessionRow>, totalMinutes: int)

  /** `day(date)`: the sessions of `list(date, date)` and their truncated minutes summed. */
  function Day(rows: seq<SessionRow>, userId: int, date: LocalDate): (r: DayResult)
    ensures r.sessions == List(rows, userId, date, date)
  {
    var w := Window(date, date);
    var sessions := SessionsBetween(rows, userId, w.0, w.1);
    DayResult(sessions, Sum(sessions, SessionMinutes))
  }

  /** The day total counts each fetched session once, whatever order the query returns. */
  lemma DayTotal(rows: seq<SessionRow>, userId: int, date: LocalDate)
    ensures var w := Window(date, date);
      Day(rows, userId, date).totalMinutes
        == Sum(rows, (x: SessionRow) => if StartsWithin(x, userId, w.0, w.1) then SessionMinutes(x) else 0)
  {
    var w := Window(date, date);
    var p := (x: SessionRow) => StartsWithin(x, userId, w.0, w.1);
    var sessions := SessionsBetween(rows, userId, w.0, w.1);
    SumPermutation(sessions, Filter(rows, p), SessionMinutes);
    SumFilter(rows, p, SessionMinutes, (x: SessionRow) => if StartsWithin(x, userId, w.0, w.1) then SessionMinutes(x) else 0);
  }
}
