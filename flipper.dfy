/**
 * The flip-card helper of the clock face: the `Flipper` class, whose flips
 * are guarded by an "animation running" flag, and the `formatDate` /
 * `padLeftZero` string formatting used to feed it digits.
 */
module FlipCard {
  import opened Common
  import opened Text
  import opened Records
  import opened IsoText

  // ---------------------------------------------------------------------
  // JavaScript string primitives used by formatDate
  // ---------------------------------------------------------------------

  /** `s.substr(start)`: a negative start counts back from the end (not below 0); a start past the end gives "". */
  function Substr(s: string, start: int): (r: string)
    ensures |r| <= |s| && r == s[|s| - |r|..]
    ensures start >= 0 ==> |r| == if start >= |s| then 0 else |s| - start
    ensures start < 0 ==> |r| == if -start >= |s| then |s| else -start
  {
    var from := if start >= 0 then start else if |s| + start < 0 then 0 else |s| + start;
    if from >= |s| then "" else s[from..]
  }

  /** `padLeftZero(str)`: the last two characters of `"00" + str`. */
  function PadLeftZero(s: string): (r: string)
    ensures |r| == 2
    ensures |s| == 0 ==> r == "00"
    ensures |s| == 1 ==> r == ['0', s[0]]
    ensures |s| >= 2 ==> r == s[|s| - 2..]
  {
    ("00" + s)[|s|..]
  }

  /** Padding the decimal text of a number below 100 gives its fixed two-digit form. */
  lemma PadLeftZeroDigits(n: nat)
    requires n < 100
    ensures PadLeftZero(NatDigits(n)) == Digits2(n)
  {
    if n >= 10 {
      assert NatDigits(n / 10) == [DigitChar(n / 10)];
    }
  }

  /** `p` occurs in `s` starting at index i. */
  predicate OccursAt(s: string, p: string, i: nat)
  {
    i + |p| <= |s| && s[i..i + |p|] == p
  }

  /** The first index at or after i where p occurs (`s.indexOf(p, i)`). */
  function IndexFrom(s: string, p: string, i: nat): (r: Option<nat>)
    ensures r.Some? ==> i <= r.value && OccursAt(s, p, r.value)
    ensures r.Some? ==> forall j :: i <= j < r.value ==> !OccursAt(s, p, j)
    ensures r.None? ==> forall j :: i <= j ==> !OccursAt(s, p, j)
    decreases |s| - i
  {
    if i + |p| > |s| then None
    else if s[i..i + |p|] == p then Some(i)
    else IndexFrom(s, p, i + 1)
  }

  /** `s.replace(p, rep)` with a string pattern: only the first occurrence is replaced. */
  function ReplaceFirst(s: string, p: string, rep: string): (r: string)
    ensures IndexFrom(s, p, 0).None? ==> r == s
    ensures IndexFrom(s, p, 0).Some? ==> |r| == |s| - |p| + |rep|
  {
    match IndexFrom(s, p, 0)
    case None => s
    case Some(i) => s[..i] + rep + s[i + |p|..]
  }

  /** The string made of k copies of c. */
  function Run(c: char, k: nat): (r: string)
    ensures |r| == k && forall j :: 0 <= j < k ==> r[j] == c
  {
    seq(k, _ => c)
  }

  /** Index of the first c in s. */
  function FirstIndex(s: string, c: char): (r: Option<nat>)
    ensures r.None? <==> c !in s
    ensures r.Some? ==> r.value < |s| && s[r.value] == c
    ensures r.Some? ==> forall j :: 0 <= j < r.value ==> s[j] != c
  {
    if |s| == 0 then None
    else if s[0] == c then Some(0)
    else
      match FirstIndex(s[1..], c)
      case None => None
      case Some(i) => Some(i + 1)
  }

  /** Length of the run of c starting at index i. */
  function RunLength(s: string, i: nat, c: char): (k: nat)
    requires i <= |s|
    ensures i + k <= |s|
    ensures forall j :: i <= j < i + k ==> s[j] == c
    ensures i + k == |s| || s[i + k] != c
    decreases |s| - i
  {
    if i < |s| && s[i] == c then 1 + RunLength(s, i + 1, c) else 0
  }

  /** Where the leftmost match of `/(c+)/` starts and how long it is. */
  datatype Match = Match(start: nat, len: nat)

  /** `s.match(/(c+)/)`: the leftmost, longest run of c. */
  function MatchRun(s: string, c: char): (r: Option<Match>)
    ensures r.None? <==> c !in s
    ensures r.Some? ==> r.value.len >= 1 && r.value.start + r.value.len <= |s|
    ensures r.Some? ==> s[r.value.start..r.value.start + r.value.len] == Run(c, r.value.len)
    ensures r.Some? ==> forall j :: 0 <= j < r.value.start ==> s[j] != c
    ensures r.Some? ==> r.value.start + r.value.len == |s| || s[r.value.start + r.value.len] != c
  {
    match FirstIndex(s, c)
    case None => None
    case Some(i) => Some(Match(i, RunLength(s, i, c)))
  }

  /**
   * Replacing the matched text (as `replace` does, by its first occurrence)
   * replaces exactly the matched run: no earlier occurrence of the run exists.
   */
  lemma {:induction false} ReplaceMatchedRun(s: string, c: char, rep: string)
    requires MatchRun(s, c).Some?
    ensures var m := MatchRun(s, c).value;
      ReplaceFirst(s, Run(c, m.len), rep) == s[..m.start] + rep + s[m.start + m.len..]
  {
    var m := MatchRun(s, c).value;
    var p := Run(c, m.len);
    assert OccursAt(s, p, m.start);
    forall j | 0 <= j < m.start
      ensures !OccursAt(s, p, j)
    {
      if j + |p| <= |s| {
        assert s[j..j + |p|][0] == s[j] != p[0];
      }
    }
    var r := IndexFrom(s, p, 0);
    assert r.Some?;
    assert r.value == m.start;
  }

  /** A run of c in b is found at the same place, shifted, after a prefix a free of c. */
  lemma {:induction false} MatchRunAfter(a: string, b: string, c: char)
    requires c !in a
    ensures MatchRun(a + b, c) == match MatchRun(b, c)
      case None => None
      case Some(m) => Some(Match(|a| + m.start, m.len))
  {
    var s := a + b;
    assert forall j :: 0 <= j < |b| ==> s[|a| + j] == b[j];
    match MatchRun(b, c)
    case None =>
      assert c !in s;
    case Some(m) =>
      var r := MatchRun(s, c).value;
      assert s[|a| + m.start] == c;
      assert r.start == |a| + m.start;
      RunLengthAfter(a, b, m.start, c);
  }

  lemma {:induction false} RunLengthAfter(a: string, b: string, i: nat, c: char)
    requires i <= |b|
    ensures RunLength(a + b, |a| + i, c) == RunLength(b, i, c)
    decreases |b| - i
  {
    if i < |b| {
      assert (a + b)[|a| + i] == b[i];
      RunLengthAfter(a, b, i + 1, c);
    }
  }

  // ---------------------------------------------------------------------
  // formatDate
  // ---------------------------------------------------------------------

  /** The local-time fields of a JavaScript `Date`, as its getters return them (`month` is 0-based). */
  datatype LocalTime = LocalTime(fullYear: int, month: int, date: int, hours: int, minutes: int, seconds: int)

  predicate ValidTime(t: LocalTime)
  {
    0 <= t.month < 12 && 1 <= t.date <= 31 && 0 <= t.hours < 24 && 0 <= t.minutes < 60 && 0 <= t.seconds < 60
  }

  /** The keys of the object literal `o`, in their `for..in` order: month, day, hour, minute, second. */
  const FieldLetters: string := "mdhis"

  /** The values of `o`, in the same order. */
  function FieldValues(t: LocalTime): (v: seq<int>)
    ensures |v| == 5 && v[0] == t.month + 1 && v[1] == t.date && v[2] == t.hours && v[3] == t.minutes && v[4] == t.seconds
  {
    [t.month + 1, t.date, t.hours, t.minutes, t.seconds]
  }

  /** The year step: the first run of `y` becomes the matching tail of the year's text. */
  function YearStep(fmt: string, t: LocalTime): string
  {
    match MatchRun(fmt, 'y')
    case None => fmt
    case Some(m) => ReplaceFirst(fmt, Run('y', m.len), Substr(IntToString(t.fullYear), 4 - m.len))
  }

  /** One pass of the field loop: the first run of `letter` becomes the value, padded when the run is longer than one. */
  function FieldStep(fmt: string, letter: char, value: int): string
  {
    match MatchRun(fmt, letter)
    case None => fmt
    case Some(m) =>
      var str := IntToString(value);
      ReplaceFirst(fmt, Run(letter, m.len), if m.len == 1 then str else PadLeftZero(str))
  }

  /** The text after the first n passes of the field loop. */
  function FieldsUpTo(fmt: string, t: LocalTime, n: nat): string
    requires n <= 5
  {
    if n == 0 then fmt else FieldStep(FieldsUpTo(fmt, t, n - 1), FieldLetters[n - 1], FieldValues(t)[n - 1])
  }

  /** What `formatDate(date, dateFormat)` returns. */
  function FormatDateOf(t: LocalTime, dateFormat: string): string
  {
    FieldsUpTo(YearStep(dateFormat, t), t, 5)
  }

  /** `formatDate`: the year replacement, then one replacement per field key in order. */
  method FormatDate(t: LocalTime, dateFormat: string) returns (r: string)
    ensures r == FormatDateOf(t, dateFormat)
  {
    r := dateFormat;
    var yearMatch := MatchRun(r, 'y');
    if yearMatch.Some? {
      var yearStr := Substr(IntToString(t.fullYear), 4 - yearMatch.value.len);
      r := ReplaceFirst(r, Run('y', yearMatch.value.len), yearStr);
    }
    assert r == YearStep(dateFormat, t);
    var afterYear := r;
    var o := FieldValues(t);
    for n := 0 to 5
      invariant r == FieldsUpTo(afterYear, t, n)
    {
      var letter, value := FieldLetters[n], o[n];
      ghost var next := FieldStep(r, letter, value);
      assert FieldsUpTo(afterYear, t, n + 1) == next;
      var found := MatchRun(r, letter);
      if found.Some? {
        var str := IntToString(value);
        var replacement := if found.value.len == 1 then str else PadLeftZero(str);
        r := ReplaceFirst(r, Run(letter, found.value.len), replacement);
      }
      assert r == next;
    }
  }

  /**
   * A field token is replaced in place by the field's decimal text: unpadded
   * for a one-letter token, zero padded to two for a longer one (a value of
   * two digits is never cut).
   */
  lemma FieldStepReplaces(fmt: string, letter: char, value: nat)
    requires value < 100 && MatchRun(fmt, letter).Some?
    ensures var m := MatchRun(fmt, letter).value;
      FieldStep(fmt, letter, value) ==
        fmt[..m.start] + (if m.len == 1 then NatDigits(value) else Digits2(value)) + fmt[m.start + m.len..]
  {
    var m := MatchRun(fmt, letter).value;
    var str := IntToString(value);
    ReplaceMatchedRun(fmt, letter, if m.len == 1 then str else PadLeftZero(str));
    PadLeftZeroDigits(value);
  }

  /** A run of k <= 4 `y`s becomes the last k characters of a four-digit year. */
  lemma YearStepReplaces(fmt: string, t: LocalTime)
    requires 1000 <= t.fullYear < 10000
    requires MatchRun(fmt, 'y').Some? && MatchRun(fmt, 'y').value.len <= 4
    ensures var m := MatchRun(fmt, 'y').value;
      YearStep(fmt, t) == fmt[..m.start] + Digits4(t.fullYear)[4 - m.len..] + fmt[m.start + m.len..]
  {
    var m := MatchRun(fmt, 'y').value;
    NatDigitsFour(t.fullYear);
    ReplaceMatchedRun(fmt, 'y', Substr(IntToString(t.fullYear), 4 - m.len));
  }

  lemma NoLetterInDigits(s: string, c: char)
    requires AllDigits(s) && !IsDigit(c)
    ensures c !in s
  {
  }

  /** A two-letter token right after a run of digits is replaced by the value's two digits. */
  lemma {:induction false} PairedTokenStep(prefix: string, letter: char, tail: string, value: nat)
    requires AllDigits(prefix) && !IsDigit(letter) && value < 100
    requires |tail| == 0 || tail[0] != letter
    ensures FieldStep(prefix + [letter, letter] + tail, letter, value) == prefix + Digits2(value) + tail
  {
    var b := [letter, letter] + tail;
    assert RunLength(b, 0, letter) == 2 by {
      assert b[0] == letter && b[1] == letter;
      assert RunLength(b, 2, letter) == 0;
    }
    assert MatchRun(b, letter) == Some(Match(0, 2));
    NoLetterInDigits(prefix, letter);
    MatchRunAfter(prefix, b, letter);
    var s := prefix + b;
    assert prefix + [letter, letter] + tail == s;
    FieldStepReplaces(s, letter, value);
    assert s[..|prefix|] == prefix && s[|prefix| + 2..] == tail;
  }

  /** The clock format has no year, month or day token: the first two passes leave it as it is. */
  lemma ClockDate(t: LocalTime)
    ensures YearStep("hhiiss", t) == "hhiiss"
    ensures FieldsUpTo("hhiiss", t, 2) == "hhiiss"
  {
    var f0 := "hhiiss";
    assert 'y' !in f0 && 'm' !in f0 && 'd' !in f0;
    assert FieldsUpTo(f0, t, 1) == f0;
  }

  lemma {:induction false} HoursPass(fmt: string, t: LocalTime)
    requires ValidTime(t) && FieldsUpTo(fmt, t, 2) == "hhiiss"
    ensures FieldsUpTo(fmt, t, 3) == Digits2(t.hours) + "iiss"
  {
    assert "" + ['h', 'h'] + "iiss" == "hhiiss";
    assert "" + Digits2(t.hours) + "iiss" == Digits2(t.hours) + "iiss";
    var before := FieldsUpTo(fmt, t, 2);
    assert FieldStep(before, 'h', t.hours) == Digits2(t.hours) + "iiss" by {
      PairedTokenStep("", 'h', "iiss", t.hours);
    }
  }

  lemma {:induction false} MinutesPass(fmt: string, t: LocalTime)
    requires ValidTime(t) && FieldsUpTo(fmt, t, 3) == Digits2(t.hours) + "iiss"
    ensures FieldsUpTo(fmt, t, 4) == Digits2(t.hours) + Digits2(t.minutes) + "ss"
  {
    var h := Digits2(t.hours);
    assert h + ['i', 'i'] + "ss" == h + "iiss";
    var before := FieldsUpTo(fmt, t, 3);
    assert FieldStep(before, 'i', t.minutes) == h + Digits2(t.minutes) + "ss" by {
      PairedTokenStep(h, 'i', "ss", t.minutes);
    }
  }

  lemma {:induction false} SecondsPass(fmt: string, t: LocalTime)
    requires ValidTime(t) && FieldsUpTo(fmt, t, 4) == Digits2(t.hours) + Digits2(t.minutes) + "ss"
    ensures FieldsUpTo(fmt, t, 5) == Digits2(t.hours) + Digits2(t.minutes) + Digits2(t.seconds)
  {
    var hm := Digits2(t.hours) + Digits2(t.minutes);
    PairedTokenStep(hm, 's', "", t.seconds);
    assert hm + ['s', 's'] + "" == hm + "ss";
    assert hm + Digits2(t.seconds) + "" == hm + Digits2(t.seconds);
  }

  /** The clock face's format: `"hhiiss"` gives six digits, hours, minutes and seconds zero padded. */
  lemma {:induction false} FormatClock(t: LocalTime)
    requires ValidTime(t)
    ensures FormatDateOf(t, "hhiiss") == Digits2(t.hours) + Digits2(t.minutes) + Digits2(t.seconds)
  {
    ClockDate(t);
    HoursPass("hhiiss", t);
    MinutesPass("hhiiss", t);
    SecondsPass("hhiiss", t);
  }

  // ---------------------------------------------------------------------
  // The Flipper class
  // ---------------------------------------------------------------------

  datatype Direction = Down | Up

  /** The node class while idle after a flip in direction dir. */
  function FlipClass(dir: Direction): (r: string)
    ensures r == "flip down" <==> dir == Down
    ensures r == "flip up" <==> dir == Up
  {
    "flip" + if dir == Down then " down" else " up"
  }

  /** The class attribute of the front card showing `text`. */
  function FrontClass(text: string): (r: string)
    ensures |r| == 14 + |text| && r[..14] == "digital front " && r[14..] == text
  {
    "digital front " + text
  }

  /** The class attribute of the back card showing `text`. */
  function BackClass(text: string): (r: string)
    ensures |r| == 13 + |text| && r[..13] == "digital back " && r[13..] == text
  {
    "digital back " + text
  }

  /** The animation completion scheduled by a flip: the class to restore and the text to show in front. */
  datatype Pending = Pending(flipClass: string, back: string)

  /**
   * A flip card bound to one DOM node. The class attributes of the node and
   * of its front and back cards are fields; the timer callback a flip
   * schedules is the `pending` field, run by `AnimationEnd`.
   */
  class Flipper {
    const frontText: string
    const backText: string
    const duration: int
    var isFlipping: bool
    var nodeClass: string
    var frontClass: string
    var backClass: string
    var pending: Option<Pending>

    /** A completion is scheduled exactly while a flip is running. */
    predicate Valid()
      reads this
    {
      isFlipping <==> pending.Some?
    }

    /** The configuration defaults, then the initial card faces. */
    constructor (node: string, frontText0: Option<string>, backText0: Option<string>, duration0: Option<int>)
      ensures Valid() && !isFlipping
      ensures frontText == TextOr(frontText0, "number0") && backText == TextOr(backText0, "number1")
      ensures duration == if duration0.Some? && duration0.value != 0 then duration0.value else 600
      ensures nodeClass == node && frontClass == FrontClass(frontText) && backClass == BackClass(backText)
    {
      frontText := TextOr(frontText0, "number0");
      backText := TextOr(backText0, "number1");
      duration := if duration0.Some? && duration0.value != 0 then duration0.value else 600;
      isFlipping := false;
      pending := None;
      nodeClass := node;
      frontClass := FrontClass(TextOr(frontText0, "number0"));
      backClass := BackClass(TextOr(backText0, "number1"));
    }

    /** `_flip`: refused while a flip runs; otherwise shows the new faces and starts the animation. */
    method Flip(dir: Direction, front: string, back: string) returns (started: bool)
      requires Valid()
      modifies this
      ensures Valid()
      ensures started == !old(isFlipping)
      ensures !started ==> unchanged(this)
      ensures started ==> isFlipping && frontClass == FrontClass(front) && backClass == BackClass(back)
      ensures started ==> nodeClass == FlipClass(dir) + " go" && pending == Some(Pending(FlipClass(dir), back))
    {
      if isFlipping {
        return false;
      }
      isFlipping := true;
      frontClass := FrontClass(front);
      backClass := BackClass(back);
      var flipClass := FlipClass(dir);
      nodeClass := flipClass + " go";
      pending := Some(Pending(flipClass, back));
      return true;
    }

    /** `flipDown`. */
    method FlipDown(front: string, back: string) returns (started: bool)
      requires Valid()
      modifies this
      ensures Valid()
      ensures started == !old(isFlipping)
      ensures !started ==> unchanged(this)
      ensures started ==> isFlipping && frontClass == FrontClass(front) && backClass == BackClass(back)
      ensures started ==> nodeClass == "flip down go" && pending == Some(Pending("flip down", back))
    {
      started := Flip(Down, front, back);
    }

    /** `flipUp`. */
    method FlipUp(front: string, back: string) returns (started: bool)
      requires Valid()
      modifies this
      ensures Valid()
      ensures started == !old(isFlipping)
      ensures !started ==> unchanged(this)
      ensures started ==> isFlipping && frontClass == FrontClass(front) && backClass == BackClass(back)
      ensures started ==> nodeClass == "flip up go" && pending == Some(Pending("flip up", back))
    {
      started := Flip(Up, front, back);
    }

    /**
     * The timer callback, once `duration` has elapsed: the node drops `go`,
     * the card is idle again and the front shows the text that was flipped in.
     */
    method AnimationEnd()
      requires Valid() && pending.Some?
      modifies this
      ensures Valid() && !isFlipping && pending == None
      ensures nodeClass == old(pending.value.flipClass)
      ensures frontClass == FrontClass(old(pending.value.back))
      ensures backClass == old(backClass)
    {
      var p := pending.value;
      nodeClass := p.flipClass;
      isFlipping := false;
      frontClass := FrontClass(p.back);
      pending := None;
    }
  }
}
