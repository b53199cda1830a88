/**
 * Character classes and string helpers shared by the tokenizer and the
 * validators: the regular-expression class \w, str.lower(), str.strip(),
 * str.split(), str.endswith() and list.count(), and the maximal runs of
 * characters of one class that both re.findall(r'\w+') and str.split()
 * cut a string into.
 */
module Text {

  /** \w, restricted to ASCII: letters, digits and the underscore. */
  predicate IsWordChar(c: char) {
    ('a' <= c <= 'z') || ('A' <= c <= 'Z') || ('0' <= c <= '9') || c == '_'
  }

  /** An ASCII decimal digit, the \d of the phone-number pattern. */
  predicate IsDigit(c: char) {
    '0' <= c <= '9'
  }

  /** str.lower() on one character, restricted to ASCII letters. */
  function LowerChar(c: char): char {
    if 'A' <= c <= 'Z' then (c as int + 32) as char else c
  }

  /** str.lower(). */
  function Lower(s: string): (r: string)
    ensures |r| == |s|
    ensures forall i | 0 <= i < |s| :: r[i] == LowerChar(s[i])
  {
    seq(|s|, i requires 0 <= i < |s| => LowerChar(s[i]))
  }

  /** A string that str.lower() leaves as it is. */
  predicate IsLower(s: string) {
    forall i | 0 <= i < |s| :: LowerChar(s[i]) == s[i]
  }

  lemma LowerIsLower(s: string)
    ensures IsLower(Lower(s))
  {
  }

  lemma LowerConcat(a: string, b: string)
    ensures Lower(a + b) == Lower(a) + Lower(b)
  {
  }

  /**
   * str.isspace() for one character: the characters Python's str.strip()
   * removes when called without arguments.
   */
  predicate IsSpace(c: char) {
    var n := c as int;
    (0x09 <= n <= 0x0D) || (0x1C <= n <= 0x20) || n == 0x85 || n == 0xA0 || n == 0x1680
    || (0x2000 <= n <= 0x200A) || n == 0x2028 || n == 0x2029 || n == 0x202F || n == 0x205F
    || n == 0x3000
  }

  predicate AllSpace(s: string) {
    forall k | 0 <= k < |s| :: IsSpace(s[k])
  }

  /** The first index at or after i that does not hold whitespace, or |s|. */
  function LeadingEnd(s: string, i: nat): (n: nat)
    requires i <= |s|
    ensures i <= n <= |s|
    ensures forall k | i <= k < n :: IsSpace(s[k])
    ensures n < |s| ==> !IsSpace(s[n])
    decreases |s| - i
  {
    if i < |s| && IsSpace(s[i]) then LeadingEnd(s, i + 1) else i
  }

  /** The start of the whitespace run that ends at j, going back no further than lo. */
  function TrailingStart(s: string, lo: nat, j: nat): (n: nat)
    requires lo <= j <= |s|
    ensures lo <= n <= j
    ensures forall k | n <= k < j :: IsSpace(s[k])
    ensures n > lo ==> !IsSpace(s[n - 1])
  {
    if j > lo && IsSpace(s[j - 1]) then TrailingStart(s, lo, j - 1) else j
  }

  /**
   * str.strip(): s without its leading and trailing whitespace. The result
   * is the infix of s left between an all-whitespace prefix and an
   * all-whitespace suffix, and it neither starts nor ends with whitespace,
   * which pins it down uniquely.
   */
  function Strip(s: string): (r: string)
    ensures |r| <= |s|
    ensures r == [] <==> AllSpace(s)
    ensures r != [] ==> !IsSpace(r[0]) && !IsSpace(r[|r| - 1])
    ensures exists i | 0 <= i <= |s| - |r| ::
              s[i..i + |r|] == r && AllSpace(s[..i]) && AllSpace(s[i + |r|..])
  {
    var i := LeadingEnd(s, 0);
    var j := TrailingStart(s, i, |s|);
    assert AllSpace(s[..i]) && AllSpace(s[j..]);
    assert AllSpace(s) ==> i == j;
    s[i..j]
  }

  /** Stripping twice strips nothing more. */
  lemma StripIdempotent(s: string)
    ensures Strip(Strip(s)) == Strip(s)
  {
    var r := Strip(s);
    if r != [] {
      assert LeadingEnd(r, 0) == 0;
      assert TrailingStart(r, 0, |r|) == |r|;
    }
  }

  /** A non-empty string all of whose characters satisfy inRun. */
  predicate IsRun(w: string, inRun: char -> bool) {
    |w| > 0 && forall i | 0 <= i < |w| :: inRun(w[i])
  }

  /** The length of the longest prefix of s whose characters satisfy inRun. */
  function RunPrefixLength(s: string, inRun: char -> bool): (n: nat)
    ensures n <= |s|
    ensures forall i | 0 <= i < n :: inRun(s[i])
    ensures n < |s| ==> !inRun(s[n])
  {
    if |s| > 0 && inRun(s[0]) then 1 + RunPrefixLength(s[1..], inRun) else 0
  }

  /**
   * The maximal runs of characters satisfying inRun, left to right. Every
   * run is non-empty, and every character of a run is a character of s.
   */
  function Runs(s: string, inRun: char -> bool): (ws: seq<string>)
    ensures forall k | 0 <= k < |ws| :: IsRun(ws[k], inRun)
    ensures forall k, i | 0 <= k < |ws| && 0 <= i < |ws[k]| :: ws[k][i] in s
    decreases |s|
  {
    if |s| == 0 then []
    else if !inRun(s[0]) then
      var ws := Runs(s[1..], inRun);
      assert forall k, i | 0 <= k < |ws| && 0 <= i < |ws[k]| :: ws[k][i] in s[1..];
      ws
    else
      var n := RunPrefixLength(s, inRun);
      var rest := Runs(s[n..], inRun);
      assert forall k, i | 0 <= k < |rest| && 0 <= i < |rest[k]| :: rest[k][i] in s[n..];
      assert forall i | 0 <= i < n :: s[..n][i] == s[i];
      [s[..n]] + rest
  }

  /** A run stops at the first character outside the class. */
  lemma {:induction false} RunPrefixOfSeparated(a: string, c: char, b: string, inRun: char -> bool)
    requires !inRun(c)
    ensures RunPrefixLength(a + [c] + b, inRun) == RunPrefixLength(a, inRun)
  {
    if |a| > 0 && inRun(a[0]) {
      assert (a + [c] + b)[1..] == a[1..] + [c] + b;
      RunPrefixOfSeparated(a[1..], c, b, inRun);
    }
  }

  /** A separator character splits the runs: no run spans it. */
  lemma {:induction false} RunsSplit(a: string, c: char, b: string, inRun: char -> bool)
    requires !inRun(c)
    ensures Runs(a + [c] + b, inRun) == Runs(a, inRun) + Runs(b, inRun)
    decreases |a|
  {
    var s := a + [c] + b;
    if |a| == 0 {
      assert s[1..] == b;
    } else if !inRun(a[0]) {
      assert s[1..] == a[1..] + [c] + b;
      RunsSplit(a[1..], c, b, inRun);
    } else {
      RunPrefixOfSeparated(a, c, b, inRun);
      var n := RunPrefixLength(a, inRun);
      assert s[..n] == a[..n];
      assert s[n..] == a[n..] + [c] + b;
      RunsSplit(a[n..], c, b, inRun);
    }
  }

  /** A single run is cut into itself. */
  lemma RunsOfRun(w: string, inRun: char -> bool)
    requires IsRun(w, inRun)
    ensures Runs(w, inRun) == [w]
  {
    assert RunPrefixLength(w, inRun) == |w|;
    assert w[..|w|] == w;
    assert w[|w|..] == [];
    assert Runs([], inRun) == [];
  }

  /** The strings joined by single spaces: " ".join(ws). */
  function JoinWords(ws: seq<string>): string {
    if |ws| == 0 then ""
    else if |ws| == 1 then ws[0]
    else ws[0] + " " + JoinWords(ws[1..])
  }

  /** Runs joined by a space, which is outside their class, are cut back into the same runs. */
  lemma {:induction false} RunsOfJoin(ws: seq<string>, inRun: char -> bool)
    requires !inRun(' ')
    requires forall k | 0 <= k < |ws| :: IsRun(ws[k], inRun)
    ensures Runs(JoinWords(ws), inRun) == ws
  {
    if |ws| == 1 {
      RunsOfRun(ws[0], inRun);
    } else if |ws| > 1 {
      RunsOfJoin(ws[1..], inRun);
      RunsSplit(ws[0], ' ', JoinWords(ws[1..]), inRun);
      RunsOfRun(ws[0], inRun);
      assert ws == [ws[0]] + ws[1..];
    }
  }

  predicate IsNonSpace(c: char) {
    !IsSpace(c)
  }

  /**
   * str.split() without arguments: the maximal runs of non-whitespace
   * characters. No piece is empty and no piece holds whitespace.
   */
  function Split(s: string): (ws: seq<string>)
    ensures forall k | 0 <= k < |ws| :: |ws[k]| > 0 && !exists i | 0 <= i < |ws[k]| :: IsSpace(ws[k][i])
  {
    Runs(s, IsNonSpace)
  }

  /** " ".join(ws).split() == ws for pieces that are non-empty and free of whitespace. */
  lemma SplitJoinRoundTrip(ws: seq<string>)
    requires forall k | 0 <= k < |ws| :: IsRun(ws[k], IsNonSpace)
    ensures Split(JoinWords(ws)) == ws
  {
    RunsOfJoin(ws, IsNonSpace);
  }

  /** A string that neither starts nor ends with whitespace is its own strip. */
  lemma StripUnchanged(s: string)
    requires s != [] ==> !IsSpace(s[0]) && !IsSpace(s[|s| - 1])
    ensures Strip(s) == s
  {
    if s != [] {
      assert LeadingEnd(s, 0) == 0;
      assert TrailingStart(s, 0, |s|) == |s|;
    }
  }

  /** s starts with the given prefix (str.startswith). */
  predicate StartsWith(s: string, prefix: string) {
    |prefix| <= |s| && s[..|prefix|] == prefix
  }

  /** s ends with the given suffix (str.endswith). */
  predicate EndsWith(s: string, suffix: string) {
    |suffix| <= |s| && s[|s| - |suffix|..] == suffix
  }

  /** list.count(x): how many elements of xs equal x. */
  function Occurrences<T(==)>(xs: seq<T>, x: T): (n: nat)
    ensures n == multiset(xs)[x]
    ensures n > 0 <==> x in xs
    ensures n <= |xs|
  {
    if |xs| == 0 then 0
    else
      assert xs == [xs[0]] + xs[1..];
      (if xs[0] == x then 1 else 0) + Occurrences(xs[1..], x)
  }
}
