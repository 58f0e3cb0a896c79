/**
 * The word-log endpoints: `create` keeps the calendar date the client meant
 * and stores a time span only when both of its ends were sent; `list` is the
 * dated range query.
 */
module WordLogs {
  import opened Common
  import opened Gregorian
  import opened Zones
  import opened Store
  import opened Sorting

  /** The body of `POST /api/word-logs`; `date` and `count` are required by validation. */
  datatype CreateRequest = CreateRequest(
    date: OffsetDateTime, book: Option<string>, count: int, note: Option<string>, subjectId: Option<int>,
    startTime: Option<OffsetDateTime>, endTime: Option<OffsetDateTime>)

  predicate ValidRequest(req: CreateRequest)
  {
    ValidOffsetDateTime(req.date)
    && (req.startTime.Some? ==> ValidOffsetDateTime(req.startTime.value))
    && (req.endTime.Some? ==> ValidOffsetDateTime(req.endTime.value))
  }

  /** `create`: the fields are set one by one, the span only if both ends are present, then the row is saved. */
  method Create(db: Database, userId: int, req: CreateRequest) returns (saved: WordLogRow)
    requires db.Valid() && ValidRequest(req)
    modifies db
    ensures db.Valid() && db.wordLogs == old(db.wordLogs) + [saved] && saved.id == old(db.nextId)
    ensures db.nextId == old(db.nextId) + 1
    ensures saved.userId == userId && saved.subjectId == req.subjectId && saved.book == req.book
    ensures saved.count == req.count && saved.note == req.note
    ensures saved.date == req.date.local.date
    ensures saved.startTime.Some? <==> req.startTime.Some? && req.endTime.Some?
    ensures saved.endTime.Some? <==> saved.startTime.Some?
    ensures saved.startTime.Some? ==>
      saved.startTime.value == UtcLocal(req.startTime.value) && saved.endTime.value == UtcLocal(req.endTime.value)
      && EpochSecond(saved.startTime.value) == InstantSecond(req.startTime.value)
      && EpochSecond(saved.endTime.value) == InstantSecond(req.endTime.value)
    ensures db.users == old(db.users) && db.subjects == old(db.subjects)
    ensures db.sessions == old(db.sessions) && db.inviteCodes == old(db.inviteCodes)
  {
    var wl := WordLogRow(0, userId, req.subjectId, req.date.local.date, req.book, req.count, req.note, None, None);
    if req.startTime.Some? && req.endTime.Some? {
      wl := wl.(startTime := Some(UtcLocal(req.startTime.value)), endTime := Some(UtcLocal(req.endTime.value)));
    }
    saved := db.InsertWordLog(wl);
  }

  /**
   * The stored date is the date on the client's own clock: a request made at
   * 01:00 on day d at +08:00 is filed under d although it is still the day
   * before in UTC.
   */
  lemma StoredDateIsClientDate(d: LocalDate)
    ensures var req := OffsetDateTime(DateTime(d, 1, 0, 0, 0), 8 * 3600);
      UtcLocal(req).date == PlusDays(d, -1) && req.local.date == d
  {
    var req := OffsetDateTime(DateTime(d, 1, 0, 0, 0), 8 * 3600);
    var s := EpochSecond(req.local) - req.offset;
    assert s == (DayNumber(d) - 1) * 86400 + 61200;
    assert s / 86400 == DayNumber(d) - 1;
  }

  /** `list(from, to)`: the user's logs dated from..to, both included, earliest date first. */
  function List(rows: seq<WordLogRow>, userId: int, from: LocalDate, to: LocalDate): (r: seq<WordLogRow>)
    ensures forall x :: x in r <==> x in rows && x.userId == userId && DayNumber(from) <= DayNumber(x.date) <= DayNumber(to)
    ensures SortedBy(r, DateKey)
  {
    WordLogsBetween(rows, userId, from, to)
  }

  /** A created log shows up in exactly the listings whose range holds its date. */
  lemma CreatedThenListed(rows: seq<WordLogRow>, saved: WordLogRow, userId: int, from: LocalDate, to: LocalDate)
    requires saved.userId == userId
    ensures saved in List(rows + [saved], userId, from, to) <==> DayNumber(from) <= DayNumber(saved.date) <= DayNumber(to)
  {
    assert saved in rows + [saved];
  }
}
