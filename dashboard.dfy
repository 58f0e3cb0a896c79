/**
 * The dashboard's "today" panel: per-subject minute and word totals, the day's
 * grand totals, each subject's goal progress, and the background image's fit
 * mode kept in browser storage.
 */
module Dashboard {
  import opened Common
  import opened Records
  import opened Folds

  /** `(m[k] || 0)`: a missing entry reads as zero. */
  function Get(m: map<int, int>, k: int): int
  {
    if k in m then m[k] else 0
  }

  /** `m[k] = (m[k] || 0) + v` */
  function AddTo(m: map<int, int>, k: int, v: int): (r: map<int, int>)
    ensures r.Keys == m.Keys + {k}
    ensures Get(r, k) == Get(m, k) + v
    ensures forall j :: j != k ==> Get(r, j) == Get(m, j)
  {
    m[k := Get(m, k) + v]
  }

  /** `sessionsBySubject` after the sessions loop. */
  function SessionTally(sessions: seq<Session>): map<int, int>
  {
    if sessions == [] then map[]
    else
      var s := sessions[|sessions| - 1];
      AddTo(SessionTally(sessions[..|sessions| - 1]), s.subjectId, SessionMinutes(s))
  }

  /** `sessionsBySubject` after the word-log loop has added the timed word logs, starting from m. */
  function SpanTally(m: map<int, int>, words: seq<WordLog>): map<int, int>
  {
    if words == [] then m
    else
      var w := words[|words| - 1];
      var before := SpanTally(m, words[..|words| - 1]);
      if TruthyId(w.subjectId) && HasSpan(w) then AddTo(before, w.subjectId.value, RoundMinutes(SpanMs(w)))
      else before
  }

  /** `wordsBySubject` after the word-log loop. */
  function WordTally(words: seq<WordLog>): map<int, int>
  {
    if words == [] then map[]
    else
      var w := words[|words| - 1];
      var before := WordTally(words[..|words| - 1]);
      if TruthyId(w.subjectId) then AddTo(before, w.subjectId.value, w.count) else before
  }

  function MinutesBy(sessions: seq<Session>, words: seq<WordLog>): map<int, int>
  {
    SpanTally(SessionTally(sessions), words)
  }

  /** The terms of one subject's totals. */
  function SubjectSessionTerm(id: int): Session -> int
  {
    (s: Session) => if s.subjectId == id then SessionMinutes(s) else 0
  }

  function SubjectSpanTerm(id: int): WordLog -> int
  {
    (w: WordLog) => if TruthyId(w.subjectId) && w.subjectId.value == id then SpanMinutes(w) else 0
  }

  function SubjectCountTerm(id: int): WordLog -> int
  {
    (w: WordLog) => if TruthyId(w.subjectId) && w.subjectId.value == id then w.count else 0
  }

  /** A word log's span minutes, counted only when it names a subject. */
  function TaggedSpanMinutes(w: WordLog): int
  {
    if TruthyId(w.subjectId) then SpanMinutes(w) else 0
  }

  function Count(w: WordLog): int
  {
    w.count
  }

  lemma {:induction false} SessionTallyGet(sessions: seq<Session>, id: int)
    ensures Get(SessionTally(sessions), id) == Sum(sessions, SubjectSessionTerm(id))
  {
    if sessions != [] {
      SessionTallyGet(sessions[..|sessions| - 1], id);
    }
  }

  lemma {:induction false} SpanTallyGet(m: map<int, int>, words: seq<WordLog>, id: int)
    ensures Get(SpanTally(m, words), id) == Get(m, id) + Sum(words, SubjectSpanTerm(id))
  {
    if words != [] {
      SpanTallyGet(m, words[..|words| - 1], id);
    }
  }

  lemma {:induction false} WordTallyGet(words: seq<WordLog>, id: int)
    ensures Get(WordTally(words), id) == Sum(words, SubjectCountTerm(id))
  {
    if words != [] {
      WordTallyGet(words[..|words| - 1], id);
    }
  }

  /**
   * A subject's minutes are the rounded minutes of its sessions plus those of
   * its word logs that have both ends; its words are the counts of its word
   * logs. Word logs without a subject id count for no subject.
   */
  lemma SubjectTotals(sessions: seq<Session>, words: seq<WordLog>, id: int)
    ensures Get(MinutesBy(sessions, words), id) == Sum(sessions, SubjectSessionTerm(id)) + Sum(words, SubjectSpanTerm(id))
    ensures Get(WordTally(words), id) == Sum(words, SubjectCountTerm(id))
  {
    SpanTallyGet(SessionTally(sessions), words, id);
    SessionTallyGet(sessions, id);
    WordTallyGet(words, id);
  }

  /** A subject with no records today shows zero minutes and zero words. */
  lemma SubjectWithoutRecords(sessions: seq<Session>, words: seq<WordLog>, id: int)
    requires forall s :: s in sessions ==> s.subjectId != id
    requires forall w :: w in words ==> w.subjectId != Some(id)
    ensures Get(MinutesBy(sessions, words), id) == 0 && Get(WordTally(words), id) == 0
  {
    SubjectTotals(sessions, words, id);
    SumZero(sessions, SubjectSessionTerm(id));
    SumZero(words, SubjectSpanTerm(id));
    SumZero(words, SubjectCountTerm(id));
  }

  lemma {:induction false} SessionTallyTotal(sessions: seq<Session>)
    ensures SumValues(SessionTally(sessions)) == Sum(sessions, SessionMinutes)
  {
    if sessions != [] {
      var s := sessions[|sessions| - 1];
      SessionTallyTotal(sessions[..|sessions| - 1]);
      SumValuesAdd(SessionTally(sessions[..|sessions| - 1]), s.subjectId, SessionMinutes(s));
    }
  }

  lemma {:induction false} SpanTallyTotal(m: map<int, int>, words: seq<WordLog>)
    ensures SumValues(SpanTally(m, words)) == SumValues(m) + Sum(words, TaggedSpanMinutes)
  {
    if words != [] {
      var w := words[|words| - 1];
      SpanTallyTotal(m, words[..|words| - 1]);
      if TruthyId(w.subjectId) && HasSpan(w) {
        SumValuesAdd(SpanTally(m, words[..|words| - 1]), w.subjectId.value, RoundMinutes(SpanMs(w)));
      }
    }
  }

  /**
   * The day's minutes are every session's rounded minutes plus the span
   * minutes of every word log with a subject id, whatever subjects are listed.
   */
  lemma TodayMinutesTotal(sessions: seq<Session>, words: seq<WordLog>)
    ensures SumValues(MinutesBy(sessions, words)) == Sum(sessions, SessionMinutes) + Sum(words, TaggedSpanMinutes)
  {
    SessionTallyTotal(sessions);
    SpanTallyTotal(SessionTally(sessions), words);
  }

  /** A listed subject with its day's totals (`subjectsWithProgress`). */
  datatype SubjectView = SubjectView(subject: Subject, todayMinutes: int, todayWords: int)

  function ViewOf(subject: Subject, minutesBy: map<int, int>, wordsBy: map<int, int>): SubjectView
  {
    SubjectView(subject, Get(minutesBy, subject.id), Get(wordsBy, subject.id))
  }

  /**
   * The goal bar of a subject: present only for a positive daily target, and
   * then `Math.min(actual / dailyTarget * 100, 100)` where actual is the word
   * count for a WORDS subject and the minutes otherwise.
   */
  function Progress(v: SubjectView): Option<real>
  {
    var target := v.subject.dailyTarget;
    if target.Some? && target.value > 0 then
      var actual := if v.subject.studyType == Some("WORDS") then v.todayWords else v.todayMinutes;
      var p := actual as real / target.value as real * 100.0;
      Some(if p < 100.0 then p else 100.0)
    else None
  }

  /** The bar is never over full, is full exactly when the goal is met, and is empty only without progress. */
  lemma ProgressBounds(v: SubjectView)
    requires Progress(v).Some?
    ensures var actual := if v.subject.studyType == Some("WORDS") then v.todayWords else v.todayMinutes;
      && Progress(v).value <= 100.0
      && (Progress(v).value == 100.0 <==> actual >= v.subject.dailyTarget.value)
      && (actual >= 0 ==> Progress(v).value >= 0.0)
  {
    var target := v.subject.dailyTarget.value as real;
    var actual := if v.subject.studyType == Some("WORDS") then v.todayWords else v.todayMinutes;
    var p := actual as real / target * 100.0;
    assert p * target == actual as real * 100.0;
    if actual >= v.subject.dailyTarget.value {
      assert actual as real >= target;
    }
  }

  const FitModeKey: string := "image_fit_mode"

  /** `(localStorage.getItem('image_fit_mode') as ...) || 'cover'`: any stored non-empty text is used as it is. */
  function InitialFitMode(storage: map<string, string>): (r: string)
    ensures r != ""
    ensures FitModeKey in storage && storage[FitModeKey] != "" ==> r == storage[FitModeKey]
  {
    if FitModeKey in storage && storage[FitModeKey] != "" then storage[FitModeKey] else "cover"
  }

  /** The fit mode after `toggleFitMode`. */
  function NextFitMode(mode: string): (r: string)
    ensures r == "cover" || r == "contain"
    ensures r != mode || (mode != "cover" && mode != "contain")
  {
    if mode == "cover" then "contain" else "cover"
  }

  /** Toggling twice restores cover or contain; any other stored text becomes contain. */
  lemma ToggleTwice(mode: string)
    ensures NextFitMode(NextFitMode(mode)) == if mode == "cover" || mode == "contain" then mode else "contain"
  {
  }

  /** `Object.values(m).reduce((sum, v) => sum + v, 0)`, visiting the keys in any order. */
  method ValuesTotal<K>(m: map<K, int>) returns (total: int)
    ensures total == SumValues(m)
  {
    total := 0;
    var rest := m.Keys;
    while rest != {}
      invariant rest <= m.Keys
      invariant total + SumOver(m, rest) == SumValues(m)
      decreases |rest|
    {
      var k :| k in rest;
      SumOverPick(m, rest, k);
      total := total + m[k];
      rest := rest - {k};
    }
  }

  class DashboardView {
    var todayMinutes: int
    var todayWords: int
    var subjects: seq<SubjectView>
    var fitMode: string
    var storage: map<string, string>

    constructor(storage0: map<string, string>)
      ensures todayMinutes == 0 && todayWords == 0 && subjects == []
      ensures fitMode == InitialFitMode(storage0) && storage == storage0
    {
      todayMinutes := 0;
      todayWords := 0;
      subjects := [];
      fitMode := InitialFitMode(storage0);
      storage := storage0;
    }

    /**
     * `loadData` once today's subjects, sessions and word logs are in: tallies
     * per subject, attaches the tallies to the subjects, and shows as the
     * day's minutes the sum over every tallied subject id.
     */
    method LoadData(loaded: seq<Subject>, sessions: seq<Session>, words: seq<WordLog>)
      modifies this
      ensures todayMinutes == SumValues(MinutesBy(sessions, words))
      ensures todayWords == Sum(words, Count)
      ensures |subjects| == |loaded|
      ensures forall i :: 0 <= i < |loaded| ==> subjects[i] == ViewOf(loaded[i], MinutesBy(sessions, words), WordTally(words))
      ensures fitMode == old(fitMode) && storage == old(storage)
    {
      var sessionsBySubject: map<int, int> := map[];
      for i := 0 to |sessions|
        modifies {}
        invariant sessionsBySubject == SessionTally(sessions[..i])
      {
        assert sessions[..i + 1][..i] == sessions[..i];
        var s := sessions[i];
        sessionsBySubject := AddTo(sessionsBySubject, s.subjectId, SessionMinutes(s));
      }
      assert sessions[..|sessions|] == sessions;
      var wordsBySubject: map<int, int> := map[];
      for i := 0 to |words|
        modifies {}
        invariant sessionsBySubject == SpanTally(SessionTally(sessions), words[..i])
        invariant wordsBySubject == WordTally(words[..i])
      {
        assert words[..i + 1][..i] == words[..i];
        var w := words[i];
        if TruthyId(w.subjectId) {
          wordsBySubject := AddTo(wordsBySubject, w.subjectId.value, w.count);
          if HasSpan(w) {
            sessionsBySubject := AddTo(sessionsBySubject, w.subjectId.value, RoundMinutes(SpanMs(w)));
          }
        }
      }
      assert words[..|words|] == words;
      var total := ValuesTotal(sessionsBySubject);
      todayWords := Sum(words, Count);
      subjects := seq(|loaded|, i requires 0 <= i < |loaded| => ViewOf(loaded[i], sessionsBySubject, wordsBySubject));
      todayMinutes := total;
    }

    /** `toggleFitMode`: switches between cover and contain and stores the new mode. */
    method ToggleFitMode()
      modifies this
      ensures fitMode == NextFitMode(old(fitMode))
      ensures storage == old(storage)[FitModeKey := fitMode]
      ensures todayMinutes == old(todayMinutes) && todayWords == old(todayWords) && subjects == old(subjects)
    {
      var next := if fitMode == "cover" then "contain" else "cover";
      fitMode := next;
      storage := storage[FitModeKey := next];
    }
  }
}
