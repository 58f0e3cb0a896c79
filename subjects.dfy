/**
 * The subject endpoints: listing the active subjects, creating one with
 * defaults, patching the fields a request carries, and deleting a subject
 * together with every record filed under it.
 */
module Subjects {
  import opened Common
  import opened Text
  import opened Folds
  import opened Store

  /** The refusals of the endpoints: failed validation (400) and a subject that is not the caller's (404). */
  datatype Status = BadRequest | NotFound

  /** `list()`: the caller's subjects that are not archived, newest first. */
  function List(rows: seq<SubjectRow>, userId: int): (r: seq<SubjectRow>)
    ensures forall x :: x in r <==> x in rows && x.userId == userId && !x.archived
    ensures forall i, j :: 0 <= i < j < |r| ==> r[i].createdAt >= r[j].createdAt
  {
    ActiveSubjects(rows, userId)
  }

  /** The body of `POST /api/subjects`; `name` must not be blank. */
  datatype CreateRequest = CreateRequest(name: Option<string>, colorHex: Option<string>, studyType: Option<string>, dailyTarget: Option<int>)

  /** `create`, with the persist-time clock given as `now`: a blank name is refused before anything is saved. */
  method Create(db: Database, userId: int, req: CreateRequest, now: int) returns (r: Result<SubjectRow, Status>)
    requires db.Valid()
    modifies db
    ensures db.Valid()
    ensures !NotBlank(req.name) ==> r == Err(BadRequest) && db.subjects == old(db.subjects) && db.nextId == old(db.nextId)
    ensures NotBlank(req.name) ==> r.Ok? && db.subjects == old(db.subjects) + [r.value]
    ensures r.Ok? ==> db.nextId == old(db.nextId) + 1
    ensures r.Ok? ==> var s := r.value;
      s.id == old(db.nextId) && s.userId == userId && s.name == req.name.value && s.colorHex == req.colorHex
      && !s.archived && s.studyType == OrElse(req.studyType, "MINUTES") && s.dailyTarget == OrElse(req.dailyTarget, 0)
      && s.createdAt == now
    ensures r.Ok? ==> r.value in List(db.subjects, userId)
    ensures db.users == old(db.users) && db.sessions == old(db.sessions)
    ensures db.wordLogs == old(db.wordLogs) && db.inviteCodes == old(db.inviteCodes)
  {
    if !NotBlank(req.name) {
      return Err(BadRequest);
    }
    var studyType := if req.studyType.Some? then req.studyType.value else "MINUTES";
    var dailyTarget := if req.dailyTarget.Some? then req.dailyTarget.value else 0;
    var s := SubjectRow(0, userId, req.name.value, req.colorHex, false, studyType, dailyTarget, now);
    var saved := db.InsertSubject(s);
    assert saved in db.subjects;
    r := Ok(saved);
  }

  /** The body of `PATCH /api/subjects/{id}`: every field may be left out. */
  datatype PatchRequest = PatchRequest(
    name: Option<string>, colorHex: Option<string>, archived: Option<bool>,
    studyType: Option<string>, dailyTarget: Option<int>)

  /** The subject with every field the request carries overwritten, and no other change. */
  function Patched(s: SubjectRow, req: PatchRequest): SubjectRow
  {
    SubjectRow(s.id, s.userId, OrElse(req.name, s.name),
      if req.colorHex.Some? then req.colorHex else s.colorHex,
      OrElse(req.archived, s.archived), OrElse(req.studyType, s.studyType),
      OrElse(req.dailyTarget, s.dailyTarget), s.createdAt)
  }

  /** Where the caller's subject `id` sits in the table, if it is there. */
  function OwnedIndex(rows: seq<SubjectRow>, userId: int, id: int): (i: Option<nat>)
    requires UniqueIds(rows)
    ensures i.Some? ==> i.value < |rows| && rows[i.value].id == id && rows[i.value].userId == userId
    ensures i.None? ==> forall j :: 0 <= j < |rows| && rows[j].id == id ==> rows[j].userId != userId
  {
    var found := FirstWhere(rows, (x: SubjectRow) => x.id == id);
    if found.Some? && rows[found.value].userId == userId then found
    else None
  }

  /** `patch`: an unknown id or another user's subject is a 404 and changes nothing; otherwise the given fields are set. */
  method Patch(db: Database, userId: int, id: int, req: PatchRequest) returns (r: Result<SubjectRow, Status>)
    requires db.Valid()
    modifies db`subjects
    ensures db.Valid()
    ensures OwnedIndex(old(db.subjects), userId, id).None? ==> r == Err(NotFound) && db.subjects == old(db.subjects)
    ensures OwnedIndex(old(db.subjects), userId, id).Some? ==>
      var i := OwnedIndex(old(db.subjects), userId, id).value;
      r == Ok(Patched(old(db.subjects)[i], req)) && db.subjects == old(db.subjects)[i := r.value]
  {
    var found := OwnedIndex(db.subjects, userId, id);
    if found.None? {
      return Err(NotFound);
    }
    var i := found.value;
    var s := db.subjects[i];
    if req.name.Some? { s := s.(name := req.name.value); }
    if req.colorHex.Some? { s := s.(colorHex := req.colorHex); }
    if req.archived.Some? { s := s.(archived := req.archived.value); }
    if req.studyType.Some? { s := s.(studyType := req.studyType.value); }
    if req.dailyTarget.Some? { s := s.(dailyTarget := req.dailyTarget.value); }
    db.subjects := db.subjects[i := s];
    r := Ok(s);
  }

  /** A request with every field left out changes nothing. */
  lemma PatchNothing(s: SubjectRow)
    ensures Patched(s, PatchRequest(None, None, None, None, None)) == s
  {
  }

  /** Sending the same patch twice is the same as sending it once. */
  lemma PatchIdempotent(s: SubjectRow, req: PatchRequest)
    ensures Patched(Patched(s, req), req) == Patched(s, req)
  {
  }

  /** The later request's fields win over the earlier one's. */
  function Then(a: PatchRequest, b: PatchRequest): PatchRequest
  {
    PatchRequest(
      if b.name.Some? then b.name else a.name,
      if b.colorHex.Some? then b.colorHex else a.colorHex,
      if b.archived.Some? then b.archived else a.archived,
      if b.studyType.Some? then b.studyType else a.studyType,
      if b.dailyTarget.Some? then b.dailyTarget else a.dailyTarget)
  }

  /** Two patches in a row are one patch with the later fields overriding the earlier. */
  lemma PatchCompose(s: SubjectRow, a: PatchRequest, b: PatchRequest)
    ensures Patched(Patched(s, a), b) == Patched(s, Then(a, b))
  {
  }

  /** The identity of a subject is out of a patch's reach: id, owner and creation time stay, and a field the request leaves out stays. */
  lemma PatchKeeps(s: SubjectRow, req: PatchRequest)
    ensures var p := Patched(s, req);
      p.id == s.id && p.userId == s.userId && p.createdAt == s.createdAt
      && (req.name.None? ==> p.name == s.name) && (req.colorHex.None? ==> p.colorHex == s.colorHex)
      && (req.archived.None? ==> p.archived == s.archived) && (req.studyType.None? ==> p.studyType == s.studyType)
      && (req.dailyTarget.None? ==> p.dailyTarget == s.dailyTarget)
  {
  }

  /**
   * `delete`: an unknown id or another user's subject is a 404 and changes
   * nothing; otherwise every study session and word log filed under the id
   * is removed (whoever wrote it), then the subject.
   */
  method Delete(db: Database, userId: int, id: int) returns (r: Result<(), Status>)
    requires db.Valid()
    modifies db`subjects, db`sessions, db`wordLogs
    ensures db.Valid()
    ensures OwnedIndex(old(db.subjects), userId, id).None? ==>
      r == Err(NotFound) && db.subjects == old(db.subjects) && db.sessions == old(db.sessions) && db.wordLogs == old(db.wordLogs)
    ensures OwnedIndex(old(db.subjects), userId, id).Some? ==>
      r.Ok?
      && db.sessions == Filter(old(db.sessions), (x: SessionRow) => x.subjectId != id)
      && db.wordLogs == Filter(old(db.wordLogs), (x: WordLogRow) => x.subjectId != Some(id))
      && db.subjects == Filter(old(db.subjects), (x: SubjectRow) => x.id != id)
  {
    var found := OwnedIndex(db.subjects, userId, id);
    if found.None? {
      return Err(NotFound);
    }
    db.sessions := Filter(db.sessions, (x: SessionRow) => x.subjectId != id);
    db.wordLogs := Filter(db.wordLogs, (x: WordLogRow) => x.subjectId != Some(id));
    FilterKeepsIdsUnique(db.subjects, (x: SubjectRow) => x.id != id);
    db.subjects := Filter(db.subjects, (x: SubjectRow) => x.id != id);
    r := Ok(());
  }

  /** Removing rows keeps the remaining ids distinct. */
  lemma {:induction false} FilterKeepsIdsUnique(rows: seq<SubjectRow>, p: SubjectRow -> bool)
    requires UniqueIds(rows)
    ensures UniqueIds(Filter(rows, p))
  {
    if rows != [] {
      var init, last := rows[..|rows| - 1], rows[|rows| - 1];
      FilterKeepsIdsUnique(init, p);
      var kept := Filter(init, p);
      if p(last) {
        assert Filter(rows, p) == kept + [last];
        forall x | x in kept
          ensures x.id != last.id
        {
          var i :| 0 <= i < |init| && init[i] == x;
          assert rows[i] == x;
        }
      }
    }
  }

  /** After a delete nothing refers to the subject any more, and every other record is kept. */
  lemma DeleteLeavesNoOrphans(sessions: seq<SessionRow>, words: seq<WordLogRow>, subjects: seq<SubjectRow>, id: int)
    ensures var s := Filter(sessions, (x: SessionRow) => x.subjectId != id);
      var w := Filter(words, (x: WordLogRow) => x.subjectId != Some(id));
      var k := Filter(subjects, (x: SubjectRow) => x.id != id);
      (forall x :: x in s <==> x in sessions && x.subjectId != id)
      && (forall x :: x in w <==> x in words && x.subjectId != Some(id))
      && (forall x :: x in k <==> x in subjects && x.id != id)
  {
  }
}
