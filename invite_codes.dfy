/**
 * The invite-code generator: eight characters drawn from an alphabet without
 * the look-alike letters and digits.
 */
module InviteCodes {
  /** The 32 characters a code is made of: no `I`, `O`, `0` or `1`. */
  const Alphabet: string := "ABCDEFGHJKLMNPQRSTUVWXYZ23456789"

  /** The number of characters in a code. */
  const CodeLength: nat := 8

  /** The draws of the random source: one index into the alphabet per character. */
  predicate ValidPicks(picks: seq<int>)
  {
    |picks| == CodeLength && forall i :: 0 <= i < |picks| ==> 0 <= picks[i] < |Alphabet|
  }

  /** The code a run with the given draws produces: character i is the alphabet's character at pick i. */
  function CodeOf(picks: seq<int>): (code: string)
    requires ValidPicks(picks)
    ensures WellFormed(code)
  {
    seq(CodeLength, i requires 0 <= i < CodeLength => Alphabet[picks[i]])
  }

  /**
   * `generateInviteCode`, with the random source's `nextInt(32)` results given
   * as `picks`: eight appends, one alphabet character per draw.
   */
  method Generate(picks: seq<int>) returns (code: string)
    requires ValidPicks(picks)
    ensures code == CodeOf(picks) && WellFormed(code)
  {
    code := [];
    for i := 0 to CodeLength
      invariant |code| == i
      invariant forall j :: 0 <= j < i ==> code[j] == Alphabet[picks[j]]
    {
      code := code + [Alphabet[picks[i]]];
    }
  }

  /** Every code the generator can produce is built from the alphabet and nothing else. */
  predicate WellFormed(code: string)
  {
    |code| == CodeLength && forall i :: 0 <= i < |code| ==> code[i] in Alphabet
  }

  /** The alphabet leaves out the characters that are easy to confuse. */
  lemma AlphabetAvoidsLookAlikes()
    ensures |Alphabet| == 32
    ensures 'I' !in Alphabet && 'O' !in Alphabet && '0' !in Alphabet && '1' !in Alphabet
  {
    assert forall i :: 0 <= i < |Alphabet| ==> Alphabet[i] != 'I' && Alphabet[i] != 'O' && Alphabet[i] != '0' && Alphabet[i] != '1';
  }

  /** A well-formed code never holds `I`, `O`, `0` or `1`. */
  lemma NoLookAlikes(code: string)
    requires WellFormed(code)
    ensures forall i :: 0 <= i < |code| ==> code[i] != 'I' && code[i] != 'O' && code[i] != '0' && code[i] != '1'
  {
    AlphabetAvoidsLookAlikes();
  }

  /** Every character of the alphabet can be drawn: each well-formed code is some run's output. */
  lemma EveryCodeReachable(code: string)
    requires WellFormed(code)
    ensures exists picks :: ValidPicks(picks) && CodeOf(picks) == code
  {
    var picks := seq(CodeLength, i requires 0 <= i < CodeLength => IndexOf(Alphabet, code[i]));
    assert ValidPicks(picks);
    assert CodeOf(picks) == code;
  }

  /** Where c sits in s. */
  function IndexOf(s: string, c: char): (i: nat)
    requires c in s
    ensures i < |s| && s[i] == c
  {
    if s[0] == c then 0 else 1 + IndexOf(s[1..], c)
  }
}
