/**
 * The study timer of the "log study" page: a state machine with the states
 * idle, running (`isStudying`) and waiting for a word count (`showCountInput`),
 * persisted in four browser-storage keys so that a reload resumes a running
 * timer. The clock is a parameter (milliseconds since 1970); every request the
 * page sends is appended to `posts`, and whether the server accepted it is a
 * parameter.
 */
module LogStudy {
  import opened Common
  import opened Text
  import opened Records
  import opened IsoText

  /** The page's form: manual start and end (browser `datetime-local` text), note and word count. */
  datatype Form = Form(startTime: string, endTime: string, note: string, count: int)

  const EmptyForm: Form := Form("", "", "", 0)

  /** A request body sent by the page. */
  datatype Post =
    | StudySessionPost(subjectId: int, startTime: string, endTime: string, note: string)
    | WordLogPost(subjectId: int, date: string, count: int, note: string,
                  spanStart: Option<string>, spanEnd: Option<string>)

  const ActiveKey: string := "study_timer_active"
  const StartKey: string := "study_timer_start"
  const SubjectIdKey: string := "study_timer_subject_id"
  const SubjectTypeKey: string := "study_timer_subject_type"
  const TimerKeys: set<string> := {ActiveKey, StartKey, SubjectIdKey, SubjectTypeKey}

  const Words: string := "WORDS"

  predicate IsWords(s: Option<Subject>)
  {
    s.Some? && s.value.studyType == Some(Words)
  }

  /**
   * The browser's constraint validation of the manual form, which runs
   * before `handleSubmit` is called: the WORDS form's count input is
   * `required` with `min="1"` (a count of 0 is shown as an empty field),
   * and the other form's two `datetime-local` inputs are `required`.
   */
  predicate Submittable(f: Form, s: Option<Subject>)
  {
    if IsWords(s) then f.count >= 1 else f.startTime != "" && f.endTime != ""
  }

  /** `list.find(s => s.id === id)`: the first subject with that id. */
  function FindById(subjects: seq<Subject>, id: int): (r: Option<Subject>)
    ensures r.Some? ==> r.value in subjects && r.value.id == id
    ensures r.None? ==> forall s :: s in subjects ==> s.id != id
    ensures r.Some? ==> (exists i :: 0 <= i < |subjects| && subjects[i] == r.value
                           && forall j :: 0 <= j < i ==> subjects[j].id != id)
  {
    if subjects == [] then None
    else if subjects[0].id == id then Some(subjects[0])
    else
      var r := FindById(subjects[1..], id);
      if r.Some? then
        var i :| 0 <= i < |subjects[1..]| && subjects[1..][i] == r.value
          && forall j :: 0 <= j < i ==> subjects[1..][j].id != id;
        assert subjects[i + 1] == r.value;
        r
      else r
  }

  /** The storage after `startStudy` at instant now with the given subject selected. */
  function StartStorage(m: map<string, string>, now: int, selected: Option<Subject>): map<string, string>
  {
    var m1 := m[ActiveKey := "1"][StartKey := ToIso(now)];
    if selected.Some? then
      m1[SubjectIdKey := IntToString(selected.value.id)][SubjectTypeKey := TextOr(selected.value.studyType, "")]
    else m1
  }

  /** The start instant a reload resumes from, if the storage holds a running timer. */
  function SavedStart(m: map<string, string>): Option<int>
  {
    if ActiveKey in m && m[ActiveKey] == "1" && StartKey in m && m[StartKey] != "" then ParseIso(m[StartKey])
    else None
  }

  lemma SavedStartHasKey(m: map<string, string>)
    requires SavedStart(m).Some?
    ensures StartKey in m
  {
  }

  /** The subject a reload re-selects: the loaded subject whose id the storage holds. */
  function SavedSubject(m: map<string, string>, subjects: seq<Subject>): Option<Subject>
  {
    if SubjectIdKey in m && m[SubjectIdKey] != "" then
      match JsParseInt(m[SubjectIdKey])
      case Some(id) => FindById(subjects, id)
      case None => None
    else None
  }

  lemma {:induction false} StartStorageFacts(m: map<string, string>, now: int, selected: Option<Subject>)
    ensures var m' := StartStorage(m, now, selected);
      ActiveKey in m' && m'[ActiveKey] == "1" && StartKey in m' && m'[StartKey] == ToIso(now)
      && (selected.Some? ==> SubjectIdKey in m' && m'[SubjectIdKey] == IntToString(selected.value.id))
  {
    assert |ActiveKey| == 18 && |StartKey| == 17 && |SubjectIdKey| == 22 && |SubjectTypeKey| == 24;
  }

  lemma {:induction false} IntToStringNotEmpty(n: int)
    ensures IntToString(n) != ""
  {
    assert |NatDigits(if n < 0 then -n else n)| >= 1;
  }

  /**
   * A timer started at an instant with a four-digit year survives a reload:
   * the storage it leaves resumes from the same instant and re-selects the
   * subject with the same id.
   */
  lemma {:induction false} StartThenResume(m: map<string, string>, now: int, selected: Option<Subject>, subjects: seq<Subject>)
    requires MinIsoMs <= now < EndIsoMs
    ensures SavedStart(StartStorage(m, now, selected)) == Some(now)
    ensures selected.Some? ==>
      SavedSubject(StartStorage(m, now, selected), subjects) == FindById(subjects, selected.value.id)
  {
    StartStorageFacts(m, now, selected);
    ToIsoSlices(now);
    ParseIsoOfToIso(now);
    if selected.Some? {
      IntToStringNotEmpty(selected.value.id);
      JsParseIntOfIntToString(selected.value.id);
    }
  }

  /** A storage cleared of the timer keys resumes nothing. */
  lemma {:induction false} ClearedStorageResumesNothing(m: map<string, string>, subjects: seq<Subject>)
    ensures SavedStart(m - TimerKeys) == None
    ensures SavedSubject(m - TimerKeys, subjects) == None
  {
  }

  /** Clearing the timer keys a second time changes nothing. */
  lemma {:induction false} ClearTwice(m: map<string, string>)
    ensures (m - TimerKeys) - TimerKeys == m - TimerKeys
  {
  }

  /** Leading zeros do not change the value of a digit string. */
  lemma {:induction false} DigitsValueZeros(k: nat, s: string)
    requires AllDigits(s)
    ensures AllDigits(Zeros(k) + s) && DigitsValue(Zeros(k) + s) == DigitsValue(s)
    decreases |s|
  {
    var z := Zeros(k);
    if s == [] {
      assert z + s == z;
      ZerosValue(k);
    } else {
      var t := z + s;
      assert t[..|t| - 1] == z + s[..|s| - 1];
      DigitsValueZeros(k, s[..|s| - 1]);
    }
  }

  lemma {:induction false} ZerosValue(k: nat)
    ensures AllDigits(Zeros(k)) && DigitsValue(Zeros(k)) == 0
  {
    if k > 0 {
      assert Zeros(k)[..k - 1] == Zeros(k - 1);
      ZerosValue(k - 1);
    }
  }

  /** `formatTime`: `HH:MM:SS` with each field padded to at least two characters. */
  function FormatTime(seconds: int): string
  {
    var h := FloorDiv(seconds, 3600);
    var m := FloorDiv(JsRem(seconds, 3600), 60);
    var s := JsRem(seconds, 60);
    PadStart(IntToString(h), 2) + ":" + PadStart(IntToString(m), 2) + ":" + PadStart(IntToString(s), 2)
  }

  /**
   * Reads an `H:MM:SS` clock text (at least one hour digit, minutes and
   * seconds below 60) back into seconds.
   */
  function ClockSeconds(t: string): Option<int>
  {
    if |t| >= 7 && t[|t| - 6] == ':' && t[|t| - 3] == ':'
       && AllDigits(t[..|t| - 6]) && AllDigits(t[|t| - 5..|t| - 3]) && AllDigits(t[|t| - 2..])
    then
      var h, m, s := DigitsValue(t[..|t| - 6]), DigitsValue(t[|t| - 5..|t| - 3]), DigitsValue(t[|t| - 2..]);
      if m < 60 && s < 60 then Some(h * 3600 + m * 60 + s) else None
    else None
  }

  lemma {:induction false} PaddedValue(n: nat)
    ensures var p := PadStart(NatDigits(n), 2);
      |p| >= 2 && AllDigits(p) && DigitsValue(p) == n
  {
    var d := NatDigits(n);
    NatDigitsValue(n);
    if |d| < 2 {
      DigitsValueZeros(2 - |d|, d);
    }
  }

  lemma {:induction false} FormatTimeNonNegative(seconds: int)
    requires seconds >= 0
    ensures FormatTime(seconds)
      == PadStart(NatDigits(seconds / 3600), 2) + ":" + Digits2(seconds % 3600 / 60) + ":" + Digits2(seconds % 60)
  {
    assert JsRem(seconds, 3600) == seconds % 3600 && JsRem(seconds, 60) == seconds % 60;
    PadStartDigits2(seconds % 3600 / 60);
    PadStartDigits2(seconds % 60);
  }

  lemma {:induction false} ClockSecondsOfFields(ht: string, mt: string, st: string, h: int, m: int, s: int, total: int)
    requires |ht| >= 1 && AllDigits(ht) && |mt| == 2 && AllDigits(mt) && |st| == 2 && AllDigits(st)
    requires DigitsValue(ht) == h && DigitsValue(mt) == m && DigitsValue(st) == s
    requires m < 60 && s < 60 && h * 3600 + m * 60 + s == total
    ensures ClockSeconds(ht + ":" + mt + ":" + st) == Some(total)
  {
    var t := ht + ":" + mt + ":" + st;
    assert t[..|t| - 6] == ht;
    assert t[|t| - 5..|t| - 3] == mt;
    assert t[|t| - 2..] == st;
  }

  /**
   * For a non-negative count, `formatTime` shows the hours, minutes below 60
   * and seconds below 60 that make up exactly that count: the clock text reads
   * back as the same number of seconds.
   */
  lemma {:induction false} ClockSecondsOfFormatTime(seconds: int)
    requires seconds >= 0
    ensures ClockSeconds(FormatTime(seconds)) == Some(seconds)
  {
    var h, m, s := seconds / 3600, seconds % 3600 / 60, seconds % 60;
    ClockSplit(seconds);
    var ht := PadStart(NatDigits(h), 2);
    PaddedValue(h);
    ClockSecondsOfFields(ht, Digits2(m), Digits2(s), h, m, s, seconds);
    FormatTimeNonNegative(seconds);
  }

  /** Hours, minutes below 60 and seconds below 60 add back up to the count. */
  lemma {:induction false} ClockSplit(seconds: int)
    requires seconds >= 0
    ensures (seconds / 3600) * 3600 + (seconds % 3600 / 60) * 60 + seconds % 60 == seconds
    ensures 0 <= seconds % 3600 / 60 < 60 && 0 <= seconds % 60 < 60
  {
    var q, r := seconds / 3600, seconds % 3600;
    assert seconds == q * 3600 + r && 0 <= r < 3600;
    var m, s := r / 60, r % 60;
    assert r == m * 60 + s && 0 <= s < 60;
    assert seconds == (q * 60 + m) * 60 + s;
    SixtySplit(seconds, q * 60 + m, s);
  }

  lemma SixtySplit(x: int, q: int, r: int)
    requires 0 <= r < 60 && x == q * 60 + r
    ensures x % 60 == r
  {
  }

  class StudyTimer {
    var subjects: seq<Subject>
    var selected: Option<Subject>
    var form: Form
    var isStudying: bool
    var showCountInput: bool
    /** The start instant in milliseconds (`studyStartTime`). */
    var studyStartTime: Option<int>
    var elapsedSeconds: int
    var storage: map<string, string>
    var posts: seq<Post>

    /** A running timer always has a start. */
    ghost predicate Valid()
      reads this
    {
      isStudying ==> studyStartTime.Some?
    }

    /** The page's initial state over the browser's current storage. */
    constructor(storage0: map<string, string>)
      ensures Valid()
      ensures subjects == [] && selected == None && form == EmptyForm
      ensures !isStudying && !showCountInput && studyStartTime == None && elapsedSeconds == 0
      ensures storage == storage0 && posts == []
    {
      subjects := [];
      selected := None;
      form := EmptyForm;
      isStudying := false;
      showCountInput := false;
      studyStartTime := None;
      elapsedSeconds := 0;
      storage := storage0;
      posts := [];
    }

    /**
     * `loadSubjects`: stores the loaded subjects, then resumes a persisted timer
     * (an unreadable start text makes `toISOString` throw, which ends the
     * resume before anything else changes).
     */
    method LoadSubjects(loaded: seq<Subject>, now: int)
      requires Valid()
      modifies this`subjects, this`studyStartTime, this`isStudying, this`form, this`selected, this`elapsedSeconds
      ensures Valid()
      ensures subjects == loaded
      ensures SavedStart(storage) == None ==>
        isStudying == old(isStudying) && studyStartTime == old(studyStartTime) && form == old(form)
        && selected == old(selected) && elapsedSeconds == old(elapsedSeconds)
      ensures SavedStart(storage).Some? ==>
        var start := SavedStart(storage).value;
        isStudying && studyStartTime == Some(start) && form == old(form).(startTime := storage[StartKey])
        && elapsedSeconds == FloorDiv(now - start, 1000)
        && selected == (if SavedSubject(storage, loaded).Some? then SavedSubject(storage, loaded) else old(selected))
    {
      subjects := loaded;
      // `timerActive === '1' && startIso`, then `new Date(startIso)`
      var start := SavedStart(storage);
      if start.Some? {
        SavedStartHasKey(storage);
        studyStartTime := start;
        isStudying := true;
        // `start.toISOString()` gives back the stored text: IsoText.ToIsoOfParseIso
        form := form.(startTime := storage[StartKey]);
        var found := SavedSubject(storage, loaded);
        if found.Some? {
          selected := found;
        }
        elapsedSeconds := FloorDiv(now - start.value, 1000);
      }
    }

    /** One tick of the running timer: elapsed whole seconds since the start. */
    method Tick(now: int)
      requires Valid() && isStudying
      modifies this
      ensures Valid()
      ensures studyStartTime == old(studyStartTime) && storage == old(storage) && posts == old(posts)
      ensures elapsedSeconds == FloorDiv(now - studyStartTime.value, 1000)
      ensures subjects == old(subjects) && selected == old(selected) && form == old(form)
      ensures isStudying == old(isStudying) && showCountInput == old(showCountInput)
    {
      elapsedSeconds := FloorDiv(now - studyStartTime.value, 1000);
    }

    /** `startStudy`: runs the timer from now and persists it. */
    method StartStudy(now: int)
      requires Valid()
      modifies this`studyStartTime, this`isStudying, this`form, this`storage
      ensures Valid()
      ensures isStudying && studyStartTime == Some(now) && form == old(form).(startTime := ToIso(now))
      ensures storage == StartStorage(old(storage), now, selected)
      ensures subjects == old(subjects) && selected == old(selected) && showCountInput == old(showCountInput)
      ensures elapsedSeconds == old(elapsedSeconds) && posts == old(posts)
    {
      var nowIso := ToIso(now);
      studyStartTime := Some(now);
      isStudying := true;
      form := form.(startTime := nowIso);
      storage := storage[ActiveKey := "1"];
      storage := storage[StartKey := nowIso];
      if selected.Some? {
        storage := storage[SubjectIdKey := IntToString(selected.value.id)];
        storage := storage[SubjectTypeKey := TextOr(selected.value.studyType, "")];
      }
    }

    /** `resetForm`: back to idle with an empty form and no persisted timer. */
    method ResetForm()
      modifies this`form, this`isStudying, this`showCountInput, this`studyStartTime, this`elapsedSeconds, this`storage
      ensures Valid()
      ensures form == EmptyForm && !isStudying && !showCountInput && studyStartTime == None && elapsedSeconds == 0
      ensures storage == old(storage) - TimerKeys
      ensures subjects == old(subjects) && selected == old(selected) && posts == old(posts)
    {
      form := EmptyForm;
      isStudying := false;
      showCountInput := false;
      studyStartTime := None;
      elapsedSeconds := 0;
      storage := storage - TimerKeys;
    }

    /** `handleSubjectSelect`. */
    method SelectSubject(s: Subject)
      modifies this`form, this`isStudying, this`showCountInput, this`studyStartTime, this`elapsedSeconds, this`storage, this`selected
      ensures Valid()
      ensures selected == Some(s) && form == EmptyForm && !isStudying && !showCountInput
      ensures studyStartTime == None && elapsedSeconds == 0 && storage == old(storage) - TimerKeys
      ensures subjects == old(subjects) && posts == old(posts)
    {
      selected := Some(s);
      ResetForm();
    }

    /** The "choose again" button: resets the form and drops the selection. */
    method Deselect()
      modifies this`form, this`isStudying, this`showCountInput, this`studyStartTime, this`elapsedSeconds, this`storage, this`selected
      ensures Valid()
      ensures selected == None && form == EmptyForm && !isStudying && !showCountInput
      ensures studyStartTime == None && elapsedSeconds == 0 && storage == old(storage) - TimerKeys
      ensures subjects == old(subjects) && posts == old(posts)
    {
      ResetForm();
      selected := None;
    }

    /**
     * `stopStudy`, with the two clock readings it takes (now1 for the form's
     * end, now2 for the request) and whether the server accepted the request.
     */
    method StopStudy(now1: int, now2: int, accepted: bool)
      requires Valid()
      modifies this`form, this`isStudying, this`showCountInput, this`studyStartTime, this`elapsedSeconds, this`storage, this`selected, this`posts
      ensures Valid()
      ensures !isStudying && storage == old(storage) - TimerKeys && subjects == old(subjects)
      ensures IsWords(old(selected)) ==>
        showCountInput && posts == old(posts) && selected == old(selected)
        && studyStartTime == old(studyStartTime) && elapsedSeconds == old(elapsedSeconds)
        && form == (if old(studyStartTime).Some? then old(form).(endTime := ToIso(now1)) else old(form))
      ensures !IsWords(old(selected)) && old(selected).Some? && old(studyStartTime).Some? ==>
        posts == old(posts) + [StudySessionPost(old(selected).value.id, ToIso(old(studyStartTime).value),
                                                ToIso(now2), old(form).note)]
        && (accepted ==>
              selected == None && form == EmptyForm && !showCountInput
              && studyStartTime == None && elapsedSeconds == 0)
        && (!accepted ==>
              selected == old(selected) && form == old(form).(endTime := ToIso(now1))
              && showCountInput == old(showCountInput) && studyStartTime == old(studyStartTime)
              && elapsedSeconds == old(elapsedSeconds))
      ensures !IsWords(old(selected)) && (old(selected).None? || old(studyStartTime).None?) ==>
        posts == old(posts) && selected == old(selected) && showCountInput == old(showCountInput)
        && studyStartTime == old(studyStartTime) && elapsedSeconds == old(elapsedSeconds)
        && form == (if old(studyStartTime).Some? then old(form).(endTime := ToIso(now1)) else old(form))
    {
      var note := form.note;
      if studyStartTime.Some? {
        form := form.(endTime := ToIso(now1));
      }
      isStudying := false;
      storage := storage - TimerKeys;
      if IsWords(selected) {
        showCountInput := true;
      } else if selected.Some? && studyStartTime.Some? {
        posts := posts + [StudySessionPost(selected.value.id, ToIso(studyStartTime.value), ToIso(now2), note)];
        if accepted {
          ClearTwice(old(storage));
          ResetForm();
          selected := None;
        }
      }
    }

    /** The count field's `parseInt(value) || 0`. */
    method SetCount(text: string)
      modifies this
      ensures form == old(form).(count := OrElse(JsParseInt(text), 0))
      ensures subjects == old(subjects) && selected == old(selected) && isStudying == old(isStudying)
      ensures showCountInput == old(showCountInput) && studyStartTime == old(studyStartTime)
      ensures elapsedSeconds == old(elapsedSeconds) && storage == old(storage) && posts == old(posts)
    {
      form := form.(count := OrElse(JsParseInt(text), 0));
    }

    /** The cancel button of the count entry: back to idle, keeping the form. */
    method CancelCountInput()
      modifies this
      ensures !showCountInput && elapsedSeconds == 0
      ensures subjects == old(subjects) && selected == old(selected) && form == old(form)
      ensures isStudying == old(isStudying) && studyStartTime == old(studyStartTime)
      ensures storage == old(storage) && posts == old(posts)
    {
      showCountInput := false;
      elapsedSeconds := 0;
    }

    /**
     * `handleSubmitCount`: a word log for the timed span. Without a subject or
     * with a count that is not positive it sends nothing and changes nothing.
     */
    method HandleSubmitCount(now: int, accepted: bool)
      requires Valid()
      modifies this
      ensures Valid()
      ensures subjects == old(subjects)
      ensures old(selected).None? || old(form).count <= 0 ==>
        posts == old(posts) && selected == old(selected) && form == old(form) && storage == old(storage)
        && isStudying == old(isStudying) && showCountInput == old(showCountInput)
        && studyStartTime == old(studyStartTime) && elapsedSeconds == old(elapsedSeconds)
      ensures old(selected).Some? && old(form).count > 0 ==>
        posts == old(posts) + [WordLogPost(old(selected).value.id, ToIso(now), old(form).count, old(form).note,
          if old(studyStartTime).Some? then Some(ToIso(old(studyStartTime).value)) else None, Some(ToIso(now)))]
        && (accepted ==> selected == None && form == EmptyForm && !isStudying && !showCountInput
                         && studyStartTime == None && elapsedSeconds == 0 && storage == old(storage) - TimerKeys)
        && (!accepted ==> selected == old(selected) && form == old(form) && isStudying == old(isStudying)
                          && showCountInput == old(showCountInput) && studyStartTime == old(studyStartTime)
                          && elapsedSeconds == old(elapsedSeconds) && storage == old(storage))
    {
      if selected.None? || form.count <= 0 {
        return;
      }
      var nowIso := ToIso(now);
      var startIso := if studyStartTime.Some? then Some(ToIso(studyStartTime.value)) else None;
      posts := posts + [WordLogPost(selected.value.id, nowIso, form.count, form.note, startIso, Some(nowIso))];
      if accepted {
        ResetForm();
        selected := None;
      }
    }

    /**
     * `handleSubmit`: the manual form, once it passes `Submittable`. A WORDS
     * subject sends a word log dated now; any other sends a study session
     * whose ends are the browser's conversion of the form's local times
     * (`convert`, None when the text is not a valid date, which throws before
     * anything is sent).
     */
    method HandleSubmit(now: int, convert: string -> Option<string>, accepted: bool)
      requires Valid()
      modifies this
      ensures Valid()
      ensures subjects == old(subjects)
      ensures old(selected).None? || !Submittable(old(form), old(selected)) ==>
        posts == old(posts) && selected == old(selected) && form == old(form)
        && storage == old(storage) && isStudying == old(isStudying) && studyStartTime == old(studyStartTime)
        && showCountInput == old(showCountInput) && elapsedSeconds == old(elapsedSeconds)
      ensures IsWords(old(selected)) && Submittable(old(form), old(selected)) ==>
        posts == old(posts) + [WordLogPost(old(selected).value.id, ToIso(now), old(form).count, old(form).note, None, None)]
      ensures IsWords(old(selected)) && posts != old(posts) ==> posts[|posts| - 1].count >= 1
      ensures old(selected).Some? && !IsWords(old(selected)) && Submittable(old(form), old(selected)) ==>
        var s := convert(old(form).startTime);
        var e := convert(old(form).endTime);
        if s.Some? && e.Some? then
          posts == old(posts) + [StudySessionPost(old(selected).value.id, s.value, e.value, old(form).note)]
        else
          posts == old(posts) && selected == old(selected) && form == old(form) && storage == old(storage)
          && isStudying == old(isStudying) && studyStartTime == old(studyStartTime)
          && showCountInput == old(showCountInput) && elapsedSeconds == old(elapsedSeconds)
      ensures posts != old(posts) && accepted ==>
        selected == None && form == EmptyForm && !isStudying && !showCountInput && studyStartTime == None
        && elapsedSeconds == 0 && storage == old(storage) - TimerKeys
      ensures posts != old(posts) && !accepted ==>
        selected == old(selected) && form == old(form) && storage == old(storage) && isStudying == old(isStudying)
        && studyStartTime == old(studyStartTime) && showCountInput == old(showCountInput)
        && elapsedSeconds == old(elapsedSeconds)
    {
      if selected.None? || !Submittable(form, selected) {
        return;
      }
      if IsWords(selected) {
        posts := posts + [WordLogPost(selected.value.id, ToIso(now), form.count, form.note, None, None)];
      } else {
        var s := convert(form.startTime);
        var e := convert(form.endTime);
        if s.None? || e.None? {
          return;
        }
        posts := posts + [StudySessionPost(selected.value.id, s.value, e.value, form.note)];
      }
      if accepted {
        ResetForm();
        selected := None;
      }
    }
  }
}
