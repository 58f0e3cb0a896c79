/**
 * Decimal digits, zero padding and the integer printing/parsing functions of
 * the JavaScript and Java runtimes that the source relies on.
 */
module Text {
  import opened Common

  predicate IsDigit(c: char)
  {
    '0' <= c <= '9'
  }

  predicate AllDigits(s: string)
  {
    forall i :: 0 <= i < |s| ==> IsDigit(s[i])
  }

  function DigitChar(d: int): (c: char)
    requires 0 <= d < 10
    ensures IsDigit(c) && DigitValue(c) == d
  {
    (('0' as int) + d) as char
  }

  function DigitValue(c: char): (d: int)
    requires IsDigit(c)
    ensures 0 <= d < 10
  {
    c as int - '0' as int
  }

  /** The value of a string of decimal digits, most significant first. */
  function DigitsValue(s: string): nat
    requires AllDigits(s)
  {
    if s == [] then 0 else DigitsValue(s[..|s| - 1]) * 10 + DigitValue(s[|s| - 1])
  }

  lemma {:induction false} DigitsValueAppend(a: string, c: char)
    requires AllDigits(a) && IsDigit(c)
    ensures AllDigits(a + [c]) && DigitsValue(a + [c]) == DigitsValue(a) * 10 + DigitValue(c)
  {
    assert (a + [c])[..|a|] == a;
  }

  /** The decimal representation of n: no leading zero, "0" for zero. */
  function NatDigits(n: nat): (s: string)
    ensures |s| >= 1 && AllDigits(s)
    ensures |s| == 1 || s[0] != '0'
  {
    if n < 10 then [DigitChar(n)] else NatDigits(n / 10) + [DigitChar(n % 10)]
  }

  lemma {:induction false} NatDigitsValue(n: nat)
    ensures DigitsValue(NatDigits(n)) == n
  {
    if n >= 10 {
      var s := NatDigits(n);
      assert s[..|s| - 1] == NatDigits(n / 10);
      NatDigitsValue(n / 10);
    }
  }

  /** `String(n)` in JavaScript and `Integer.toString(n)` in Java, for an integer n. */
  function IntToString(n: int): string
  {
    if n < 0 then "-" + NatDigits(-n) else NatDigits(n)
  }

  function Zeros(k: nat): (z: string)
    ensures |z| == k && forall i :: 0 <= i < k ==> z[i] == '0'
  {
    seq(k, _ => '0')
  }

  /** JavaScript's `s.padStart(width, "0")`. */
  function PadStart(s: string, width: nat): (r: string)
    ensures |r| == if |s| >= width then |s| else width
    ensures r[|r| - |s|..] == s
    ensures forall i :: 0 <= i < |r| - |s| ==> r[i] == '0'
  {
    if |s| >= width then s else Zeros(width - |s|) + s
  }

  /** Exactly two decimal digits of n, zero padded (n < 100). */
  function Digits2(n: nat): (s: string)
    requires n < 100
    ensures |s| == 2 && AllDigits(s) && DigitsValue(s) == n
  {
    DigitsValueAppend([], DigitChar(n / 10));
    DigitsValueAppend([DigitChar(n / 10)], DigitChar(n % 10));
    [DigitChar(n / 10)] + [DigitChar(n % 10)]
  }

  /** Exactly three decimal digits of n, zero padded (n < 1000). */
  function Digits3(n: nat): (s: string)
    requires n < 1000
    ensures |s| == 3 && AllDigits(s) && DigitsValue(s) == n
  {
    var t := Digits2(n % 100);
    DigitsValueAppend([], DigitChar(n / 100));
    DigitsValueAppend([DigitChar(n / 100)], t[0]);
    DigitsValueAppend([DigitChar(n / 100), t[0]], t[1]);
    assert [DigitChar(n / 100)] + t == [DigitChar(n / 100), t[0]] + [t[1]];
    assert t[..1] == [t[0]];
    [DigitChar(n / 100)] + t
  }

  /** Exactly four decimal digits of n, zero padded (n < 10000). */
  function Digits4(n: nat): (s: string)
    requires n < 10000
    ensures |s| == 4 && AllDigits(s) && DigitsValue(s) == n
  {
    var a, b := Digits2(n / 100), Digits2(n % 100);
    assert b[..1] == [b[0]];
    DigitsValueAppend(a, b[0]);
    DigitsValueAppend(a + [b[0]], b[1]);
    assert a + b == a + [b[0]] + [b[1]];
    a + b
  }

  /** Zero padding of a short decimal to width two is the fixed two-digit form. */
  lemma {:induction false} PadStartDigits2(n: nat)
    requires n < 100
    ensures PadStart(NatDigits(n), 2) == Digits2(n)
  {
    if n >= 10 {
      assert NatDigits(n / 10) == [DigitChar(n / 10)];
    }
  }

  /** Number of leading decimal digits of s. */
  function DigitRun(s: string): (k: nat)
    ensures k <= |s| && AllDigits(s[..k])
    ensures k < |s| ==> !IsDigit(s[k])
  {
    if s == [] || !IsDigit(s[0]) then 0
    else
      var k := 1 + DigitRun(s[1..]);
      assert s[..k] == [s[0]] + s[1..][..k - 1];
      k
  }

  lemma {:induction false} AllDigitsRun(s: string)
    requires AllDigits(s)
    ensures DigitRun(s) == |s| && s[..|s|] == s
  {
    if s != [] {
      AllDigitsRun(s[1..]);
    }
  }

  predicate IsJsSpace(c: char)
  {
    c == ' ' || c == '\t' || c == '\n' || c == '\r' || c == '\U{000B}' || c == '\U{000C}'
  }

  function TrimStart(s: string): (t: string)
    ensures |t| <= |s| && t == s[|s| - |t|..]
    ensures t == [] || !IsJsSpace(t[0])
  {
    if s != [] && IsJsSpace(s[0]) then TrimStart(s[1..]) else s
  }

  /**
   * JavaScript's `parseInt(s, 10)`: skips leading spaces, tabs, line feeds,
   * carriage returns, vertical tabs and form feeds (the further Unicode spaces
   * JavaScript also skips are not modelled), takes an optional sign and the
   * longest run of decimal digits after it; None stands for NaN.
   */
  function JsParseInt(s: string): Option<int>
  {
    var t := TrimStart(s);
    var negative := |t| > 0 && t[0] == '-';
    var body := if |t| > 0 && (t[0] == '-' || t[0] == '+') then t[1..] else t;
    var k := DigitRun(body);
    if k == 0 then None
    else if negative then Some(-(DigitsValue(body[..k]) as int))
    else Some(DigitsValue(body[..k]))
  }

  /** `parseInt(String(n), 10) === n`: an id written to storage reads back as itself. */
  lemma {:induction false} JsParseIntOfIntToString(n: int)
    ensures JsParseInt(IntToString(n)) == Some(n)
  {
    var m: nat := if n < 0 then -n else n;
    NatDigitsValue(m);
    if n < 0 {
      JsParseIntNegative(NatDigits(m));
    } else {
      JsParseIntDigits(NatDigits(m));
    }
  }

  lemma {:induction false} JsParseIntDigits(body: string)
    requires |body| >= 1 && AllDigits(body)
    ensures JsParseInt(body) == Some(DigitsValue(body))
  {
    AllDigitsRun(body);
    TrimStartKeeps(body);
  }

  lemma {:induction false} JsParseIntNegative(body: string)
    requires |body| >= 1 && AllDigits(body)
    ensures JsParseInt("-" + body) == Some(-(DigitsValue(body) as int))
  {
    AllDigitsRun(body);
    var s := "-" + body;
    TrimStartKeeps(s);
    assert s[1..] == body;
  }

  /** Text that does not open with white space is left as it is. */
  lemma TrimStartKeeps(s: string)
    requires s != [] && !IsJsSpace(s[0])
    ensures TrimStart(s) == s
  {
  }

  /** Java's `Integer.MIN_VALUE` and `Integer.MAX_VALUE`. */
  const IntMin: int := -0x8000_0000
  const IntMax: int := 0x7FFF_FFFF

  /**
   * The code point of the digit zero of the last run of Unicode 15.0 decimal
   * digits (general category Nd) in the Basic Multilingual Plane that starts
   * at or below x, or -1 when none does. Each run holds the digits 0 to 9 in
   * order, and the runs are at least ten code points apart. The runs above
   * U+FFFF are left out: a Java `String` holds such a character as two
   * surrogate `char`s, and neither is a digit.
   */
  function RunStart(x: int): (z: int)
    ensures z == -1 || 0x30 <= z <= x
  {
    if x >= 0xFF10 then 0xFF10
    else if x >= 0xABF0 then 0xABF0
    else if x >= 0xAA50 then 0xAA50
    else if x >= 0xA9F0 then 0xA9F0
    else if x >= 0xA9D0 then 0xA9D0
    else if x >= 0xA900 then 0xA900
    else if x >= 0xA8D0 then 0xA8D0
    else if x >= 0xA620 then 0xA620
    else if x >= 0x1C50 then 0x1C50
    else if x >= 0x1C40 then 0x1C40
    else if x >= 0x1BB0 then 0x1BB0
    else if x >= 0x1B50 then 0x1B50
    else if x >= 0x1A90 then 0x1A90
    else if x >= 0x1A80 then 0x1A80
    else if x >= 0x19D0 then 0x19D0
    else if x >= 0x1946 then 0x1946
    else if x >= 0x1810 then 0x1810
    else if x >= 0x17E0 then 0x17E0
    else if x >= 0x1090 then 0x1090
    else if x >= 0x1040 then 0x1040
    else if x >= 0xF20 then 0xF20
    else if x >= 0xED0 then 0xED0
    else if x >= 0xE50 then 0xE50
    else if x >= 0xDE6 then 0xDE6
    else if x >= 0xD66 then 0xD66
    else if x >= 0xCE6 then 0xCE6
    else if x >= 0xC66 then 0xC66
    else if x >= 0xBE6 then 0xBE6
    else if x >= 0xB66 then 0xB66
    else if x >= 0xAE6 then 0xAE6
    else if x >= 0xA66 then 0xA66
    else if x >= 0x9E6 then 0x9E6
    else if x >= 0x966 then 0x966
    else if x >= 0x7C0 then 0x7C0
    else if x >= 0x6F0 then 0x6F0
    else if x >= 0x660 then 0x660
    else if x >= 0x30 then 0x30
    else -1
  }

  /**
   * Java's `Character.digit(ch, 10)` as `Integer.parseInt` applies it to each
   * UTF-16 `char` of a string: the offset of c from the zero of the run it lies
   * in, for any decimal digit of the Basic Multilingual Plane; None for every
   * other character, and for every character above U+FFFF, whose surrogate
   * halves are no digits.
   */
  function JavaDigit(c: char): (d: Option<int>)
    ensures d.Some? ==> 0 <= d.value < 10 && RunStart(c as int) == c as int - d.value
    ensures c as int > 0xFFFF ==> d.None?
  {
    if c as int > 0xFFFF then None
    else
      var z := RunStart(c as int);
      if z >= 0 && c as int - z < 10 then Some(c as int - z) else None
  }

  /** An ASCII digit is a Java digit of the same value. */
  lemma JavaDigitOfAscii(c: char)
    requires IsDigit(c)
    ensures JavaDigit(c) == Some(DigitValue(c))
  {
  }

  predicate AllJavaDigits(s: string)
  {
    forall i :: 0 <= i < |s| ==> JavaDigit(s[i]).Some?
  }

  /** The value of a string of Java digits, most significant first. */
  function JavaDigitsValue(s: string): nat
    requires AllJavaDigits(s)
  {
    if s == [] then 0 else JavaDigitsValue(s[..|s| - 1]) * 10 + JavaDigit(s[|s| - 1]).value
  }

  /** A two-digit string reads as ten times its first digit plus its second. */
  lemma JavaDigitsPair(a: char, b: char)
    requires JavaDigit(a).Some? && JavaDigit(b).Some?
    ensures AllJavaDigits([a, b]) && JavaDigitsValue([a, b]) == JavaDigit(a).value * 10 + JavaDigit(b).value
  {
    var s := [a, b];
    assert s[..1] == [a] && [a][..0] == [];
    assert JavaDigitsValue([a]) == JavaDigit(a).value;
    assert JavaDigitsValue(s) == JavaDigitsValue(s[..1]) * 10 + JavaDigit(s[1]).value;
  }

  /** On ASCII digits the Java reading and the plain reading agree. */
  lemma {:induction false} JavaDigitsValueOfAscii(s: string)
    requires AllDigits(s)
    ensures AllJavaDigits(s) && JavaDigitsValue(s) == DigitsValue(s)
  {
    forall i | 0 <= i < |s| ensures JavaDigit(s[i]).Some? {
      JavaDigitOfAscii(s[i]);
    }
    if s != [] {
      JavaDigitsValueOfAscii(s[..|s| - 1]);
      JavaDigitOfAscii(s[|s| - 1]);
    }
  }

  /**
   * Java's `Integer.parseInt(s)`: an optional sign followed by at least one
   * decimal digit of any script (`Character.digit`) and nothing else, within
   * the 32-bit range; anything else is a NumberFormatException (None).
   */
  function JavaParseInt(s: string): (r: Option<int>)
    ensures r.Some? ==> IntMin <= r.value <= IntMax
  {
    var signed := |s| > 0 && (s[0] == '-' || s[0] == '+');
    var body := if signed then s[1..] else s;
    if body == [] || !AllJavaDigits(body) then None
    else
      var v: int := if signed && s[0] == '-' then -(JavaDigitsValue(body) as int) else JavaDigitsValue(body);
      if IntMin <= v <= IntMax then Some(v) else None
  }

  /** `Integer.parseInt(Integer.toString(n)) == n` for every 32-bit n. */
  lemma {:induction false} JavaParseIntOfIntToString(n: int)
    requires IntMin <= n <= IntMax
    ensures JavaParseInt(IntToString(n)) == Some(n)
  {
    var m: nat := if n < 0 then -n else n;
    NatDigitsValue(m);
    if n < 0 {
      JavaParseIntNegative(NatDigits(m));
    } else {
      JavaParseIntDigits(NatDigits(m));
    }
  }

  lemma {:induction false} JavaParseIntDigits(body: string)
    requires |body| >= 1 && AllDigits(body) && DigitsValue(body) <= IntMax
    ensures JavaParseInt(body) == Some(DigitsValue(body))
  {
    assert IsDigit(body[0]);
    JavaDigitsValueOfAscii(body);
  }

  lemma {:induction false} JavaParseIntNegative(body: string)
    requires |body| >= 1 && AllDigits(body) && -(DigitsValue(body) as int) >= IntMin
    ensures JavaParseInt("-" + body) == Some(-(DigitsValue(body) as int))
  {
    assert ("-" + body)[1..] == body;
    JavaDigitsValueOfAscii(body);
  }

  /** A character that Java's `String.trim` strips: every code point up to and including the space. */
  predicate IsJavaSpace(c: char)
  {
    c <= ' '
  }

  /** Bean validation's `@NotBlank`, which tests `trim().length() > 0`: present and holding a character above the space. */
  predicate NotBlank(s: Option<string>)
  {
    s.Some? && exists i :: 0 <= i < |s.value| && !IsJavaSpace(s.value[i])
  }

  /** The part of s before the first occurrence of c: `s.split(c)[0]`. */
  function Before(s: string, c: char): (r: string)
    ensures |r| <= |s| && r == s[..|r|]
    ensures c !in r
    ensures |r| < |s| ==> s[|r|] == c
  {
    if s == [] || s[0] == c then [] else [s[0]] + Before(s[1..], c)
  }
}
