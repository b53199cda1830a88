/**
 * The tokenizer shared by indexing and querying in both search-engine
 * variants: the text is lower-cased and then split into the maximal runs
 * of word characters, which is what re.findall(r'\b\w+\b', text.lower())
 * returns.
 */
module Tokenizer {
  import opened Text

  /** A non-empty run of word characters. */
  predicate IsWord(w: string) {
    IsRun(w, IsWordChar)
  }

  /** A token as the tokenizer produces it: a word that lower() leaves alone. */
  predicate IsTerm(w: string) {
    IsWord(w) && IsLower(w)
  }

  /** re.findall(r'\b\w+\b', text.lower()). Every token is a lower-case word. */
  function Tokenize(text: string): (ws: seq<string>)
    ensures forall k | 0 <= k < |ws| :: IsTerm(ws[k])
  {
    var low := Lower(text);
    var ws := Runs(low, IsWordChar);
    assert forall k, i | 0 <= k < |ws| && 0 <= i < |ws[k]| :: LowerChar(ws[k][i]) == ws[k][i] by {
      forall k, i | 0 <= k < |ws| && 0 <= i < |ws[k]| ensures LowerChar(ws[k][i]) == ws[k][i] {
        var j :| 0 <= j < |low| && low[j] == ws[k][i];
      }
    }
    ws
  }

  lemma {:induction false} JoinOfTermsIsLower(ws: seq<string>)
    requires forall k | 0 <= k < |ws| :: IsTerm(ws[k])
    ensures Lower(JoinWords(ws)) == JoinWords(ws)
  {
    if |ws| > 1 {
      JoinOfTermsIsLower(ws[1..]);
      LowerConcat(ws[0] + " ", JoinWords(ws[1..]));
      LowerConcat(ws[0], " ");
    }
  }

  /**
   * Tokenizing words typed back separated by spaces gives back the same
   * words: joining is a right inverse of the tokenizer on terms.
   */
  lemma TokenizeJoinRoundTrip(ws: seq<string>)
    requires forall k | 0 <= k < |ws| :: IsTerm(ws[k])
    ensures Tokenize(JoinWords(ws)) == ws
  {
    JoinOfTermsIsLower(ws);
    RunsOfJoin(ws, IsWordChar);
  }

  /**
   * A text that lower-cases to terms separated by single spaces, typed in
   * any letter case, tokenizes to exactly those terms: a query made of an
   * indexed document's words finds the very terms the index holds.
   */
  lemma TokenizeTypedWords(ws: seq<string>, typed: string)
    requires forall k | 0 <= k < |ws| :: IsTerm(ws[k])
    requires Lower(typed) == JoinWords(ws)
    ensures Tokenize(typed) == ws
  {
    RunsOfJoin(ws, IsWordChar);
  }
}
