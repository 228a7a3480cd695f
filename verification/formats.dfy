/**
 * The visa-code and passport-number checks. Both compile a pattern of `.`
 * and `-` and apply `re.match`, which anchors only at the start: the checks
 * look at a fixed-width prefix and ignore whatever follows it.
 */
module Formats {

  /** One atom of the compiled patterns: `.` or a literal character. */
  datatype Token = AnyChar | Lit(c: char)

  type Pattern = seq<Token>

  /** Without the DOTALL flag `.` matches every character except a newline. */
  predicate TokenMatches(t: Token, c: char) {
    match t
    case AnyChar => c != '\n'
    case Lit(l) => c == l
  }

  /**
   * `re.match` of a pattern built only from single-character atoms: the
   * pattern must match at the start of `s`; no backtracking is needed
   * because every atom consumes exactly one character.
   */
  predicate MatchesAtStart(p: Pattern, s: string)
    decreases |p|
  {
    |p| == 0 || (|s| > 0 && TokenMatches(p[0], s[0]) && MatchesAtStart(p[1..], s[1..]))
  }

  /** `.{n}` */
  function Dots(n: nat): Pattern {
    seq(n, _ => AnyChar)
  }

  /** `.{5}-.{5}` */
  const VisaPattern: Pattern := Dots(5) + [Lit('-')] + Dots(5)

  /** `.{5}-.{5}-.{5}-.{5}-.{5}` */
  const PassportPattern: Pattern :=
    Dots(5) + [Lit('-')] + Dots(5) + [Lit('-')] + Dots(5) + [Lit('-')] + Dots(5) + [Lit('-')] + Dots(5)

  /** A pattern matches at the start of `s` exactly when each atom accepts the character at its position. */
  lemma {:induction false} MatchesAtStartIff(p: Pattern, s: string)
    ensures MatchesAtStart(p, s) <==> |s| >= |p| && forall i :: 0 <= i < |p| ==> TokenMatches(p[i], s[i])
    decreases |p|
  {
    if |p| > 0 && |s| > 0 {
      MatchesAtStartIff(p[1..], s[1..]);
      if |s| >= |p| && forall i :: 0 <= i < |p| ==> TokenMatches(p[i], s[i]) {
        assert forall i :: 0 <= i < |p| - 1 ==> TokenMatches(p[1..][i], s[1..][i]) by {
          forall i | 0 <= i < |p| - 1
            ensures TokenMatches(p[1..][i], s[1..][i])
          {
            assert TokenMatches(p[i + 1], s[i + 1]);
          }
        }
      }
      if MatchesAtStart(p, s) {
        forall i | 0 <= i < |p|
          ensures TokenMatches(p[i], s[i])
        {
          if i > 0 {
            assert p[i] == p[1..][i - 1] && s[i] == s[1..][i - 1];
          }
        }
      }
    }
  }

  /** Appending text after a matching prefix never makes the match fail. */
  lemma MatchesAtStartExtends(p: Pattern, s: string, suffix: string)
    requires MatchesAtStart(p, s)
    ensures MatchesAtStart(p, s + suffix)
  {
    MatchesAtStartIff(p, s);
    MatchesAtStartIff(p, s + suffix);
    assert forall i :: 0 <= i < |s| ==> (s + suffix)[i] == s[i];
  }

  /**
   * `valid_visa_format`: eleven leading characters with a dash in the
   * middle; the ten others may be anything but a newline, and the text
   * may go on after them.
   */
  function ValidVisaFormat(code: string): (ok: bool)
    ensures ok <==>
      && |code| >= 11
      && code[5] == '-'
      && forall i :: 0 <= i < 11 && i != 5 ==> code[i] != '\n'
  {
    MatchesAtStartIff(VisaPattern, code);
    assert |VisaPattern| == 11;
    assert forall i :: 0 <= i < 11 ==> VisaPattern[i] == if i == 5 then Lit('-') else AnyChar;
    MatchesAtStart(VisaPattern, code)
  }

  /**
   * `valid_passport_format`: twenty-nine leading characters with dashes
   * at positions 5, 11, 17 and 23; the others may be anything but a
   * newline, and the text may go on after them.
   */
  function ValidPassportFormat(number: string): (ok: bool)
    ensures ok <==>
      && |number| >= 29
      && number[5] == '-' && number[11] == '-' && number[17] == '-' && number[23] == '-'
      && forall i :: 0 <= i < 29 && i % 6 != 5 ==> number[i] != '\n'
  {
    MatchesAtStartIff(PassportPattern, number);
    assert |PassportPattern| == 29;
    assert forall i :: 0 <= i < 29 ==> PassportPattern[i] == if i % 6 == 5 then Lit('-') else AnyChar;
    MatchesAtStart(PassportPattern, number)
  }

  /** Both checks test a prefix only: a code that passes still passes with text appended. */
  lemma ValidVisaFormatExtends(code: string, suffix: string)
    requires ValidVisaFormat(code)
    ensures ValidVisaFormat(code + suffix)
  {
    MatchesAtStartExtends(VisaPattern, code, suffix);
  }

  lemma ValidPassportFormatExtends(number: string, suffix: string)
    requires ValidPassportFormat(number)
    ensures ValidPassportFormat(number + suffix)
  {
    MatchesAtStartExtends(PassportPattern, number, suffix);
  }

  /** `.` is not `\w`: punctuation passes, and so does a code with trailing text. */
  lemma VisaFormatAcceptsPunctuation()
    ensures ValidVisaFormat("!!!!!-?????")
  {
  }

  lemma VisaFormatAcceptsTrailingText()
    ensures ValidVisaFormat("ABCDE-12345-and more")
  {
  }

  /** A code one character short, or with a newline in its first group, fails. */
  lemma VisaFormatRejectsShortOrNewline()
    ensures !ValidVisaFormat("ABCDE-1234")
    ensures !ValidVisaFormat("ABCD\n-12345")
  {
    assert "ABCD\n-12345"[4] == '\n';
  }
}
