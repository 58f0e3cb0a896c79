/**
 * The backend's tables and the derived queries of its Spring Data
 * repositories. The tables live in one `Database` object whose sequences the
 * controllers change; ids come from one identity counter.
 */
module Store {
  import opened Common
  import opened Gregorian
  import opened Zones
  import opened Sorting
  import opened Folds

  /** A row of `study_sessions`; start and end are wall-clock times in UTC. */
  datatype SessionRow = SessionRow(
    id: int, userId: int, subjectId: int,
    startTime: LocalDateTime, endTime: LocalDateTime, note: Option<string>)

  /** A row of `word_logs`; the span, when present, is in UTC. */
  datatype WordLogRow = WordLogRow(
    id: int, userId: int, subjectId: Option<int>, date: LocalDate, book: Option<string>,
    count: int, note: Option<string>, startTime: Option<LocalDateTime>, endTime: Option<LocalDateTime>)

  /** A row of `subjects`; `createdAt` is an instant in milliseconds. */
  datatype SubjectRow = SubjectRow(
    id: int, userId: int, name: string, colorHex: Option<string>, archived: bool,
    studyType: string, dailyTarget: int, createdAt: int)

  /** A row of `users`. */
  datatype UserRow = UserRow(id: int, email: string, passwordHash: string, nickname: Option<string>)

  /** A row of `invite_codes`; instants in milliseconds. */
  datatype InviteCodeRow = InviteCodeRow(
    id: int, code: string, createdBy: int, usedBy: Option<int>, usedAt: Option<int>,
    createdAt: int, expiresAt: Option<int>)

  /** Index of the first element of s satisfying p. */
  function FirstWhere<T>(s: seq<T>, p: T -> bool): (r: Option<nat>)
    ensures r.Some? ==> r.value < |s| && p(s[r.value]) && forall j :: 0 <= j < r.value ==> !p(s[j])
    ensures r.None? ==> forall j :: 0 <= j < |s| ==> !p(s[j])
  {
    if s == [] then None
    else if p(s[0]) then Some(0)
    else match FirstWhere(s[1..], p)
      case None => None
      case Some(i) => Some(i + 1)
  }

  /** A filtered, sorted query holds exactly the rows passing the filter, in key order. */
  lemma SortedFilter<T(!new)>(s: seq<T>, p: T -> bool, key: T -> int)
    ensures var r := SortBy(Filter(s, p), key);
      (forall x :: x in r <==> x in s && p(x))
      && multiset(r) == multiset(Filter(s, p)) && SortedBy(r, key)
  {
    var found := Filter(s, p);
    SortBySorted(found, key);
    SortByPermutes(found, key);
    assert forall x :: x in SortBy(found, key) <==> x in multiset(found);
  }

  // ---------------------------------------------------------------------
  // Derived queries
  // ---------------------------------------------------------------------

  function StartKey(r: SessionRow): int
  {
    NanoKey(r.startTime)
  }

  predicate StartsWithin(r: SessionRow, userId: int, from: LocalDateTime, to: LocalDateTime)
  {
    r.userId == userId && NanoKey(from) <= NanoKey(r.startTime) <= NanoKey(to)
  }

  /**
   * `findByUserIdAndStartTimeBetweenOrderByStartTimeAsc`: the user's sessions
   * starting between the bounds, both included, earliest first.
   */
  function SessionsBetween(rows: seq<SessionRow>, userId: int, from: LocalDateTime, to: LocalDateTime): (r: seq<SessionRow>)
    ensures forall x :: x in r <==> x in rows && StartsWithin(x, userId, from, to)
    ensures multiset(r) == multiset(Filter(rows, (x: SessionRow) => StartsWithin(x, userId, from, to)))
    ensures SortedBy(r, StartKey)
  {
    SortedFilter(rows, (x: SessionRow) => StartsWithin(x, userId, from, to), StartKey);
    SortBy(Filter(rows, (x: SessionRow) => StartsWithin(x, userId, from, to)), StartKey)
  }

  function DateKey(r: WordLogRow): int
  {
    DayNumber(r.date)
  }

  predicate DatedWithin(r: WordLogRow, userId: int, from: LocalDate, to: LocalDate)
  {
    r.userId == userId && DayNumber(from) <= DayNumber(r.date) <= DayNumber(to)
  }

  /** `findByUserIdAndDateBetweenOrderByDateAsc`: the user's logs dated between the bounds, both included, earliest first. */
  function WordLogsBetween(rows: seq<WordLogRow>, userId: int, from: LocalDate, to: LocalDate): (r: seq<WordLogRow>)
    ensures forall x :: x in r <==> x in rows && DatedWithin(x, userId, from, to)
    ensures multiset(r) == multiset(Filter(rows, (x: WordLogRow) => DatedWithin(x, userId, from, to)))
    ensures SortedBy(r, DateKey)
  {
    SortedFilter(rows, (x: WordLogRow) => DatedWithin(x, userId, from, to), DateKey);
    SortBy(Filter(rows, (x: WordLogRow) => DatedWithin(x, userId, from, to)), DateKey)
  }

  /** Newest first. */
  function CreatedKey(r: SubjectRow): int
  {
    -r.createdAt
  }

  predicate ListedFor(r: SubjectRow, userId: int)
  {
    r.userId == userId && !r.archived
  }

  /** `findByUserIdAndArchivedFalseOrderByCreatedAtDesc`. */
  function ActiveSubjects(rows: seq<SubjectRow>, userId: int): (r: seq<SubjectRow>)
    ensures forall x :: x in r <==> x in rows && ListedFor(x, userId)
    ensures multiset(r) == multiset(Filter(rows, (x: SubjectRow) => ListedFor(x, userId)))
    ensures forall i, j :: 0 <= i < j < |r| ==> r[i].createdAt >= r[j].createdAt
  {
    SortedFilter(rows, (x: SubjectRow) => ListedFor(x, userId), CreatedKey);
    SortBy(Filter(rows, (x: SubjectRow) => ListedFor(x, userId)), CreatedKey)
  }

  /** The primary key of `subjects`: no two rows share an id. */
  predicate UniqueIds(rows: seq<SubjectRow>)
  {
    forall i, j :: 0 <= i < j < |rows| ==> rows[i].id != rows[j].id
  }

  // ---------------------------------------------------------------------
  // The database
  // ---------------------------------------------------------------------

  /** The five tables and the identity counter that numbers new rows. */
  class Database {
    var users: seq<UserRow>
    var subjects: seq<SubjectRow>
    var sessions: seq<SessionRow>
    var wordLogs: seq<WordLogRow>
    var inviteCodes: seq<InviteCodeRow>
    var nextId: int

    /** Every id was handed out by the counter, and subject ids are keys. */
    predicate Valid()
      reads this
    {
      (forall r :: r in users ==> r.id < nextId)
      && (forall r :: r in subjects ==> r.id < nextId)
      && (forall r :: r in sessions ==> r.id < nextId)
      && (forall r :: r in wordLogs ==> r.id < nextId)
      && (forall r :: r in inviteCodes ==> r.id < nextId)
      && UniqueIds(subjects)
    }

    constructor ()
      ensures Valid() && nextId == 1
      ensures users == [] && subjects == [] && sessions == [] && wordLogs == [] && inviteCodes == []
    {
      users, subjects, sessions, wordLogs, inviteCodes := [], [], [], [], [];
      nextId := 1;
    }

    /** The identity column: a key no row has yet. */
    method NewId() returns (id: int)
      requires Valid()
      modifies this`nextId
      ensures Valid() && id == old(nextId) && nextId == id + 1
    {
      id := nextId;
      nextId := nextId + 1;
    }

    /** `save` of a new study session: it gets the next id and is appended. */
    method InsertSession(row: SessionRow) returns (saved: SessionRow)
      requires Valid()
      modifies this`nextId, this`sessions
      ensures Valid() && saved == row.(id := old(nextId)) && nextId == old(nextId) + 1
      ensures sessions == old(sessions) + [saved]
    {
      var id := NewId();
      saved := row.(id := id);
      sessions := sessions + [saved];
    }

    /** `save` of a new word log. */
    method InsertWordLog(row: WordLogRow) returns (saved: WordLogRow)
      requires Valid()
      modifies this`nextId, this`wordLogs
      ensures Valid() && saved == row.(id := old(nextId)) && nextId == old(nextId) + 1
      ensures wordLogs == old(wordLogs) + [saved]
    {
      var id := NewId();
      saved := row.(id := id);
      wordLogs := wordLogs + [saved];
    }

    /** `save` of a new subject. */
    method InsertSubject(row: SubjectRow) returns (saved: SubjectRow)
      requires Valid()
      modifies this`nextId, this`subjects
      ensures Valid() && saved == row.(id := old(nextId)) && nextId == old(nextId) + 1
      ensures subjects == old(subjects) + [saved]
    {
      var id := NewId();
      saved := row.(id := id);
      subjects := subjects + [saved];
    }

    /** `save` of a new user. */
    method InsertUser(row: UserRow) returns (saved: UserRow)
      requires Valid()
      modifies this`nextId, this`users
      ensures Valid() && saved == row.(id := old(nextId)) && nextId == old(nextId) + 1
      ensures users == old(users) + [saved]
    {
      var id := NewId();
      saved := row.(id := id);
      users := users + [saved];
    }

    /** `save` of a new invite code. */
    method InsertInviteCode(row: InviteCodeRow) returns (saved: InviteCodeRow)
      requires Valid()
      modifies this`nextId, this`inviteCodes
      ensures Valid() && saved == row.(id := old(nextId)) && nextId == old(nextId) + 1
      ensures inviteCodes == old(inviteCodes) + [saved]
    {
      var id := NewId();
      saved := row.(id := id);
      inviteCodes := inviteCodes + [saved];
    }
  }
}
