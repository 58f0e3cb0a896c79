/**
 * The history page's `loadHistory`: study sessions and word logs are joined
 * with their subjects into one list of records, newest completion first.
 */
module History {
  import opened Common
  import opened Text
  import opened Records
  import opened Sorting

  datatype Kind = Study | Word

  /** One line of the history list; times are instants in milliseconds. */
  datatype MergedRecord = MergedRecord(
    kind: Kind,
    id: int,
    subjectId: int,
    subjectName: string,
    colorHex: string,
    completedAt: int,
    minutes: Option<int>,
    count: Option<int>,
    note: Option<string>,
    startTime: Option<int>,
    endTime: Option<int>,
    seconds: Option<int>,
    remainingSeconds: Option<int>)

  const StudyColor := "#3b82f6"
  const WordColor := "#22c55e"

  /** `new Map(subjects.map(s => [s.id, s]))`: a later subject with the same id replaces an earlier one. */
  function SubjectMapOf(subjects: seq<Subject>): map<int, Subject>
  {
    if subjects == [] then map[]
    else SubjectMapOf(subjects[..|subjects| - 1])[subjects[|subjects| - 1].id := subjects[|subjects| - 1]]
  }

  /** `n > 0 ? n : undefined` */
  function Positive(n: int): (r: Option<int>)
    ensures r.Some? <==> n > 0
    ensures r.Some? ==> r.value == n
  {
    if n > 0 then Some(n) else None
  }

  /**
   * A study record completes at the session's end and splits its rounded
   * seconds into whole minutes and remaining seconds, which add back up for a
   * non-negative duration.
   */
  function StudyRecord(s: Session, subject: Subject): (r: MergedRecord)
    ensures r.kind == Study && r.completedAt == s.endTime.ms
    ensures ColourOf(r, subject)
    ensures r.seconds == Some(RoundSeconds(s.endTime.ms - s.startTime.ms))
    ensures r.minutes.Some? && r.remainingSeconds.Some?
    ensures r.seconds.value >= 0 ==>
      r.minutes.value * 60 + r.remainingSeconds.value == r.seconds.value && 0 <= r.remainingSeconds.value < 60
  {
    var seconds := RoundSeconds(s.endTime.ms - s.startTime.ms);
    MergedRecord(
      Study, s.id, s.subjectId, subject.name, TextOr(subject.colorHex, StudyColor),
      s.endTime.ms,
      Some(FloorDiv(seconds, 60)), None, s.note,
      Some(s.startTime.ms), Some(s.endTime.ms),
      Some(seconds), Some(JsRem(seconds, 60)))
  }

  /**
   * A word record completes at the end of its span when it has one, else at
   * its date; its duration fields are present only when positive, and then
   * the minutes and remaining seconds add up to the seconds.
   */
  function WordRecord(w: WordLog, subject: Subject): (r: MergedRecord)
    requires w.subjectId.Some?
    ensures r.kind == Word && ColourOf(r, subject)
    ensures r.completedAt == (if HasSpan(w) then w.endTime.value.ms else w.date.ms)
    ensures r.minutes.Some? ==> r.minutes.value > 0
    ensures r.remainingSeconds.Some? ==> 0 < r.remainingSeconds.value < 60
    ensures r.seconds.Some? <==> HasSpan(w) && RoundSeconds(SpanMs(w)) > 0
    ensures r.seconds.Some? ==> r.seconds.value == RoundSeconds(SpanMs(w))
    ensures r.seconds.None? ==> r.minutes.None? && r.remainingSeconds.None?
    ensures r.seconds.Some? ==>
      r.seconds.value > 0 && OrElse(r.minutes, 0) * 60 + OrElse(r.remainingSeconds, 0) == r.seconds.value
  {
    var seconds := if HasSpan(w) then RoundSeconds(SpanMs(w)) else 0;
    var minutes := if HasSpan(w) then FloorDiv(seconds, 60) else 0;
    var remaining := if HasSpan(w) then JsRem(seconds, 60) else 0;
    MergedRecord(
      Word, w.id, w.subjectId.value, subject.name, TextOr(subject.colorHex, WordColor),
      if HasSpan(w) then w.endTime.value.ms else w.date.ms,
      Positive(minutes), Some(w.count), w.note,
      if w.startTime.Some? then Some(w.startTime.value.ms) else None,
      if w.endTime.Some? then Some(w.endTime.value.ms) else None,
      Positive(seconds), Positive(remaining))
  }

  predicate Resolves(s: Session, m: map<int, Subject>)
  {
    s.subjectId in m
  }

  /** A word log is listed only with a truthy subject id that names a known subject. */
  predicate WordResolves(w: WordLog, m: map<int, Subject>)
  {
    TruthyId(w.subjectId) && w.subjectId.value in m
  }

  /** The study records the first `forEach` pushes, in session order. */
  function StudyRecords(sessions: seq<Session>, m: map<int, Subject>): seq<MergedRecord>
  {
    if sessions == [] then []
    else
      var s := sessions[|sessions| - 1];
      StudyRecords(sessions[..|sessions| - 1], m) + (if Resolves(s, m) then [StudyRecord(s, m[s.subjectId])] else [])
  }

  /** The word records the second `forEach` pushes, in word-log order. */
  function WordRecords(words: seq<WordLog>, m: map<int, Subject>): seq<MergedRecord>
  {
    if words == [] then []
    else
      var w := words[|words| - 1];
      WordRecords(words[..|words| - 1], m) + (if WordResolves(w, m) then [WordRecord(w, m[w.subjectId.value])] else [])
  }

  /** The comparator `b.completedAt - a.completedAt` sorts ascending by this key. */
  function CompletedKey(r: MergedRecord): int
  {
    -r.completedAt
  }

  /** The list `loadHistory` stores: the merged records, stably sorted newest first. */
  function HistoryOf(subjects: seq<Subject>, sessions: seq<Session>, words: seq<WordLog>): seq<MergedRecord>
  {
    var m := SubjectMapOf(subjects);
    SortBy(StudyRecords(sessions, m) + WordRecords(words, m), CompletedKey)
  }

  /**
   * `loadHistory` once the three responses are in: the subject map is filled,
   * the records are pushed session by session and word log by word log, and
   * the list is sorted in place by the stable library sort.
   */
  method LoadHistory(subjects: seq<Subject>, sessions: seq<Session>, words: seq<WordLog>)
    returns (records: seq<MergedRecord>)
    ensures records == HistoryOf(subjects, sessions, words)
    ensures forall i, j :: 0 <= i < j < |records| ==> records[i].completedAt >= records[j].completedAt
    ensures multiset(records)
      == multiset(StudyRecords(sessions, SubjectMapOf(subjects)) + WordRecords(words, SubjectMapOf(subjects)))
  {
    var subjectMap: map<int, Subject> := map[];
    for i := 0 to |subjects|
      invariant subjectMap == SubjectMapOf(subjects[..i])
    {
      assert subjects[..i + 1][..i] == subjects[..i];
      subjectMap := subjectMap[subjects[i].id := subjects[i]];
    }
    assert subjects[..|subjects|] == subjects;
    var merged: seq<MergedRecord> := [];
    for i := 0 to |sessions|
      invariant merged == StudyRecords(sessions[..i], subjectMap)
    {
      assert sessions[..i + 1][..i] == sessions[..i];
      var s := sessions[i];
      if s.subjectId in subjectMap {
        merged := merged + [StudyRecord(s, subjectMap[s.subjectId])];
      }
    }
    assert sessions[..|sessions|] == sessions;
    ghost var studies := merged;
    for i := 0 to |words|
      invariant merged == studies + WordRecords(words[..i], subjectMap)
    {
      assert words[..i + 1][..i] == words[..i];
      var w := words[i];
      if TruthyId(w.subjectId) && w.subjectId.value in subjectMap {
        merged := merged + [WordRecord(w, subjectMap[w.subjectId.value])];
      }
    }
    assert words[..|words|] == words;
    records := SortBy(merged, CompletedKey);
    HistoryOrdered(subjects, sessions, words);
    SortByPermutes(merged, CompletedKey);
  }

  /** The list is ordered newest completion first. */
  lemma HistoryOrdered(subjects: seq<Subject>, sessions: seq<Session>, words: seq<WordLog>)
    ensures var h := HistoryOf(subjects, sessions, words);
      forall i, j :: 0 <= i < j < |h| ==> h[i].completedAt >= h[j].completedAt
  {
    var m := SubjectMapOf(subjects);
    SortBySorted(StudyRecords(sessions, m) + WordRecords(words, m), CompletedKey);
  }

  /**
   * Stability: the records completed at the same instant keep the order in
   * which they were pushed, all study records before all word records.
   */
  lemma HistoryStable(subjects: seq<Subject>, sessions: seq<Session>, words: seq<WordLog>, at: int)
    ensures var m := SubjectMapOf(subjects);
      WithKey(HistoryOf(subjects, sessions, words), CompletedKey, -at)
      == WithKey(StudyRecords(sessions, m), CompletedKey, -at) + WithKey(WordRecords(words, m), CompletedKey, -at)
  {
    var m := SubjectMapOf(subjects);
    SortByStable(StudyRecords(sessions, m) + WordRecords(words, m), CompletedKey, -at);
    WithKeyAppend(StudyRecords(sessions, m), WordRecords(words, m), CompletedKey, -at);
  }

  /** The sessions whose subject is known, by position. */
  function ResolvedSessions(sessions: seq<Session>, m: map<int, Subject>): set<int>
  {
    set i | 0 <= i < |sessions| && Resolves(sessions[i], m)
  }

  function ResolvedWords(words: seq<WordLog>, m: map<int, Subject>): set<int>
  {
    set i | 0 <= i < |words| && WordResolves(words[i], m)
  }

  lemma {:induction false} StudyRecordsCount(sessions: seq<Session>, m: map<int, Subject>)
    ensures |StudyRecords(sessions, m)| == |ResolvedSessions(sessions, m)|
  {
    if sessions != [] {
      var n := |sessions| - 1;
      var p := sessions[..n];
      StudyRecordsCount(p, m);
      assert ResolvedSessions(sessions, m)
        == ResolvedSessions(p, m) + (if Resolves(sessions[n], m) then {n} else {});
    }
  }

  lemma {:induction false} WordRecordsCount(words: seq<WordLog>, m: map<int, Subject>)
    ensures |WordRecords(words, m)| == |ResolvedWords(words, m)|
  {
    if words != [] {
      var n := |words| - 1;
      var p := words[..n];
      WordRecordsCount(p, m);
      assert ResolvedWords(words, m) == ResolvedWords(p, m) + (if WordResolves(words[n], m) then {n} else {});
    }
  }

  /** One record per session and word log whose subject is known, and no other. */
  lemma HistoryLength(subjects: seq<Subject>, sessions: seq<Session>, words: seq<WordLog>)
    ensures var m := SubjectMapOf(subjects);
      |HistoryOf(subjects, sessions, words)| == |ResolvedSessions(sessions, m)| + |ResolvedWords(words, m)|
  {
    var m := SubjectMapOf(subjects);
    StudyRecordsCount(sessions, m);
    WordRecordsCount(words, m);
  }

  /** The study records are exactly the projections of the sessions whose subject is known. */
  lemma {:induction false} StudyRecordsMembers(sessions: seq<Session>, m: map<int, Subject>, r: MergedRecord)
    ensures r in StudyRecords(sessions, m)
      <==> exists i :: 0 <= i < |sessions| && Resolves(sessions[i], m) && r == StudyRecord(sessions[i], m[sessions[i].subjectId])
  {
    if sessions != [] {
      var n := |sessions| - 1;
      var p := sessions[..n];
      StudyRecordsMembers(p, m, r);
      if r in StudyRecords(sessions, m) && r !in StudyRecords(p, m) {
        assert Resolves(sessions[n], m) && r == StudyRecord(sessions[n], m[sessions[n].subjectId]);
      }
      if exists i :: 0 <= i < |sessions| && Resolves(sessions[i], m) && r == StudyRecord(sessions[i], m[sessions[i].subjectId]) {
        var i :| 0 <= i < |sessions| && Resolves(sessions[i], m) && r == StudyRecord(sessions[i], m[sessions[i].subjectId]);
        if i < n {
          assert p[i] == sessions[i];
        }
      }
    }
  }

  /** The word records are exactly the projections of the word logs with a truthy, known subject id. */
  lemma {:induction false} WordRecordsMembers(words: seq<WordLog>, m: map<int, Subject>, r: MergedRecord)
    ensures r in WordRecords(words, m)
      <==> exists i :: 0 <= i < |words| && WordResolves(words[i], m) && r == WordRecord(words[i], m[words[i].subjectId.value])
  {
    if words != [] {
      var n := |words| - 1;
      var p := words[..n];
      WordRecordsMembers(p, m, r);
      if r in WordRecords(words, m) && r !in WordRecords(p, m) {
        assert WordResolves(words[n], m) && r == WordRecord(words[n], m[words[n].subjectId.value]);
      }
      if exists i :: 0 <= i < |words| && WordResolves(words[i], m) && r == WordRecord(words[i], m[words[i].subjectId.value]) {
        var i :| 0 <= i < |words| && WordResolves(words[i], m) && r == WordRecord(words[i], m[words[i].subjectId.value]);
        if i < n {
          assert p[i] == words[i];
        }
      }
    }
  }

  /** The subject map holds the last subject listed under each id, and only listed ids. */
  lemma {:induction false} SubjectMapLookup(subjects: seq<Subject>, id: int)
    ensures id in SubjectMapOf(subjects) <==> exists i :: 0 <= i < |subjects| && subjects[i].id == id
    ensures id in SubjectMapOf(subjects) ==>
      exists i :: 0 <= i < |subjects| && subjects[i].id == id && SubjectMapOf(subjects)[id] == subjects[i]
        && forall j :: i < j < |subjects| ==> subjects[j].id != id
  {
    if subjects != [] {
      var n := |subjects| - 1;
      var p := subjects[..n];
      SubjectMapLookup(p, id);
      if id == subjects[n].id {
        assert subjects[n].id == id;
      } else {
        if id in SubjectMapOf(p) {
          var i :| 0 <= i < |p| && p[i].id == id && SubjectMapOf(p)[id] == p[i]
            && forall j :: i < j < |p| ==> p[j].id != id;
          assert subjects[i] == p[i];
        }
        if exists i :: 0 <= i < |subjects| && subjects[i].id == id {
          var i :| 0 <= i < |subjects| && subjects[i].id == id;
          assert p[i] == subjects[i];
        }
      }
    }
  }

  /** A record's colour: the subject's own when it has one, else its kind's default. */
  predicate ColourOf(r: MergedRecord, subject: Subject)
  {
    r.colorHex != ""
    && (if TruthyText(subject.colorHex) then r.colorHex == subject.colorHex.value
        else r.colorHex == (if r.kind == Study then StudyColor else WordColor))
  }

  /** Every listed record names a known subject and shows that subject's colour when it has one, else its kind's default. */
  lemma RecordColour(subjects: seq<Subject>, sessions: seq<Session>, words: seq<WordLog>, r: MergedRecord)
    requires r in HistoryOf(subjects, sessions, words)
    ensures r.subjectId in SubjectMapOf(subjects)
    ensures ColourOf(r, SubjectMapOf(subjects)[r.subjectId])
    ensures r.kind == Word ==> r.subjectId != 0
  {
    var m := SubjectMapOf(subjects);
    var merged := StudyRecords(sessions, m) + WordRecords(words, m);
    SortByPermutes(merged, CompletedKey);
    assert r in multiset(merged);
    if r in StudyRecords(sessions, m) {
      StudyRecordsMembers(sessions, m, r);
    } else {
      assert r in WordRecords(words, m);
      WordRecordsMembers(words, m, r);
    }
  }
}
