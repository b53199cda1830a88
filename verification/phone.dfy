/**
 * The Armenian phone-number check shared by the game-management and the
 * hospital code: re.match(r"^(\+?374|0)(10|11|...|99)\d{6}$", number).
 * re.match anchors at the start; '$' matches at the end of the string and
 * also just before a final newline.
 */
module Phone {
  import opened Text

  /** The country or trunk prefixes of the first group. */
  const Prefixes: seq<string> := ["+374", "374", "0"]

  /** The operator codes of the second group. */
  const OperatorCodes: seq<string> :=
    ["10", "11", "33", "41", "43", "44", "46", "47", "49", "55", "77", "91", "93", "94", "95", "96", "98", "99"]

  /** What '$' lets follow the last digit. */
  const Endings: seq<string> := ["", "\n"]

  predicate AllDigits(d: string) {
    forall i | 0 <= i < |d| :: IsDigit(d[i])
  }

  /**
   * The number read as the pattern describes it: one of the prefixes, one of
   * the operator codes, six digits, then the end (or a final newline).
   */
  ghost predicate Matches(s: string) {
    exists p, c, e :: MatchesWith(s, p, c, e)
  }

  /** s is prefix p, operator code c, six digits and ending e, in that order. */
  predicate MatchesWith(s: string, p: string, c: string, e: string) {
    && p in Prefixes && c in OperatorCodes && e in Endings
    && |s| == |p| + |c| + 6 + |e|
    && s[..|p|] == p
    && s[|p|..|p| + 2] == c
    && AllDigits(s[|p| + 2..|p| + 8])
    && s[|p| + 8..] == e
  }

  /** The length of the prefix the first group matches, decided by the first character. */
  function PrefixLength(s: string): (k: int)
    ensures k >= 0 ==> k <= |s| && s[..k] in Prefixes
  {
    if StartsWith(s, "+374") then 4
    else if StartsWith(s, "374") then 3
    else if StartsWith(s, "0") then 1
    else -1
  }

  /** The check as the regular-expression engine runs it, left to right. */
  predicate IsValidPhone(s: string) {
    var k := PrefixLength(s);
    && k >= 0
    && |s| >= k + 8
    && s[k..k + 2] in OperatorCodes
    && AllDigits(s[k + 2..k + 8])
    && s[k + 8..] in Endings
  }

  /** No prefix is a prefix of a string starting with another one. */
  lemma PrefixDetermined(s: string, p: string)
    requires p in Prefixes && |s| >= |p| && s[..|p|] == p
    ensures PrefixLength(s) == |p|
  {
    assert s[0] == p[0];
  }

  lemma ValidMatches(s: string)
    requires IsValidPhone(s)
    ensures Matches(s)
  {
    var k := PrefixLength(s);
    var p, c, e := s[..k], s[k..k + 2], s[k + 8..];
    assert MatchesWith(s, p, c, e);
  }

  lemma MatchesValid(s: string)
    requires Matches(s)
    ensures IsValidPhone(s)
  {
    var p, c, e :| MatchesWith(s, p, c, e);
    PrefixDetermined(s, p);
  }

  /** The left-to-right check accepts exactly the strings the pattern describes. */
  lemma ValidIffMatches(s: string)
    ensures IsValidPhone(s) <==> Matches(s)
  {
    if IsValidPhone(s) {
      ValidMatches(s);
    }
    if Matches(s) {
      MatchesValid(s);
    }
  }

  /** An international number: "+374", operator code, six digits. */
  lemma AcceptedInternational(s: string)
    requires s == "+37499123456"
    ensures IsValidPhone(s)
  {
    assert s[..4] == "+374";
    assert s[4..6] == "99" && s[12..] == "";
    assert AllDigits(s[6..12]);
  }

  /** A national number: "0", operator code, six digits. */
  lemma AcceptedNational(s: string)
    requires s == "099123456"
    ensures IsValidPhone(s)
  {
    assert s[..4][0] == '0' && s[..3][0] == '0';
    assert s[..1] == "0";
    assert s[1..3] == "99" && s[9..] == "";
    assert AllDigits(s[3..9]);
  }

  /** '$' also matches just before a final newline. */
  lemma AcceptedWithNewline(s: string)
    requires s == "+37499123456\n"
    ensures IsValidPhone(s)
  {
    assert s[..4] == "+374";
    assert s[4..6] == "99" && s[12..] == "\n";
    assert AllDigits(s[6..12]);
  }

  /** The sample numbers: full numbers pass, with or without a final newline. */
  lemma AcceptedSamples()
    ensures IsValidPhone("+37499123456")
    ensures IsValidPhone("099123456")
    ensures IsValidPhone("+37499123456\n")
  {
    AcceptedInternational("+37499123456");
    AcceptedNational("099123456");
    AcceptedWithNewline("+37499123456\n");
  }

  /** A number two digits short, and one with an operator code not on the list, are refused. */
  lemma RefusedSamples()
    ensures !IsValidPhone("+37412345")
    ensures !IsValidPhone("+37412123456")
  {
    assert StartsWith("+37412345", "+374");
    assert StartsWith("+37412123456", "+374");
    assert "+37412123456"[4..6] == "12";
  }
}
