/**
 * The in-memory inverted index shared by both search-engine variants: the
 * per-document posting update performed for each file by index_files, and
 * the ranked lookup performed by search.
 */
module InvertedIndex {
  import opened Python
  import opened Text
  import opened Tokenizer
  import opened Postings

  /** term -> postings, in the order the documents were indexed. */
  type Index = map<string, seq<WordInfo>>

  /** search() results: queried term -> ranked postings. */
  type Results = map<string, seq<WordInfo>>

  /** The file whose read raised, stopping an index_files batch, and what it raised. */
  datatype Failure = Failure(path: Path, error: Error)

  /**
   * What index_files reports: the folder is not a directory, the batch ran
   * through (with the number of ".txt" entries listed, skipped ones
   * included), or a read raised and the rest of the batch was abandoned.
   */
  datatype Report = NotADirectory | Indexed(listed: nat) | Aborted(path: Path, error: Error)

  /** The postings of a term, empty when the term is absent. */
  function PostingsOf(idx: Index, t: string): seq<WordInfo> {
    if t in idx then idx[t] else []
  }

  /** The distinct tokens of a document: set(content). */
  function DistinctTerms(words: seq<string>): set<string> {
    set w | w in words
  }

  /**
   * The index after the terms in done have each received the posting of
   * file: the state part-way through the loop over set(content).
   */
  function AddTerms(idx: Index, file: Path, words: seq<string>, done: set<string>): Index {
    map t | t in idx.Keys + done ::
      if t in done then PostingsOf(idx, t) + [WordInfo(file, Occurrences(words, t))] else idx[t]
  }

  /**
   * The index after one document with the given tokens has been added: each
   * distinct token gains exactly one posting for the file, carrying its
   * number of occurrences, appended after the postings it had; every other
   * term keeps its postings.
   */
  function AddDocument(idx: Index, file: Path, words: seq<string>): (r: Index)
    ensures r.Keys == idx.Keys + DistinctTerms(words)
    ensures forall t | t in r && t in words ::
              r[t] == PostingsOf(idx, t) + [WordInfo(file, Occurrences(words, t))]
    ensures forall t | t in idx && t !in words :: r[t] == idx[t]
  {
    AddTerms(idx, file, words, DistinctTerms(words))
  }

  /**
   * content.count(word), as a scan over the token list; the result is the
   * multiplicity of the word among the tokens.
   */
  method CountOccurrences(words: seq<string>, w: string) returns (n: nat)
    ensures n == multiset(words)[w]
  {
    n := 0;
    var i := 0;
    while i < |words|
      invariant 0 <= i <= |words|
      invariant n == multiset(words[..i])[w]
    {
      assert words[..i + 1] == words[..i] + [words[i]];
      if words[i] == w {
        n := n + 1;
      }
      i := i + 1;
    }
    assert words[..|words|] == words;
  }

  lemma AddTermsStep(idx: Index, file: Path, words: seq<string>, done: set<string>, w: string)
    requires w !in done
    ensures AddTerms(idx, file, words, done + {w})
            == AddTerms(idx, file, words, done)[w := PostingsOf(idx, w) + [WordInfo(file, Occurrences(words, w))]]
  {
  }

  /**
   * The body of the per-file step of index_files: tokenize the content, then
   * for each distinct token, in whatever order the set yields them, create
   * or extend its postings list with one WordInfo carrying content.count.
   * Whatever the iteration order, the result is AddDocument.
   */
  method IndexDocument(idx0: Index, file: Path, content: string) returns (idx: Index)
    ensures idx == AddDocument(idx0, file, Tokenize(content))
  {
    var words := Tokenize(content);
    var unique := DistinctTerms(words);
    ghost var done: set<string> := {};
    idx := idx0;
    assert idx0 == AddTerms(idx0, file, words, {});
    while unique != {}
      invariant unique + done == DistinctTerms(words) && unique !! done
      invariant idx == AddTerms(idx0, file, words, done)
      decreases unique
    {
      var w :| w in unique;
      var n := CountOccurrences(words, w);
      AddTermsStep(idx0, file, words, done, w);
      assert w in idx ==> idx[w] == PostingsOf(idx0, w);
      assert w !in idx ==> PostingsOf(idx0, w) == [];
      assert n == Occurrences(words, w);
      ghost var entry := PostingsOf(idx0, w) + [WordInfo(file, Occurrences(words, w))];
      if w !in idx {
        assert [WordInfo(file, n)] == entry;
        idx := idx[w := [WordInfo(file, n)]];
      } else {
        assert idx[w] + [WordInfo(file, n)] == entry;
        idx := idx[w := idx[w] + [WordInfo(file, n)]];
      }
      assert idx == AddTerms(idx0, file, words, done + {w});
      unique := unique - {w};
      done := done + {w};
    }
  }

  /**
   * search(query): the query is tokenized like a document; every query
   * term present in the index maps to its postings ranked by count, highest
   * first, equal counts in indexing order; absent terms are dropped.
   */
  function Search(idx: Index, query: string): (r: Results)
    ensures forall t :: t in r <==> t in Tokenize(query) && t in idx
    ensures forall t | t in r ::
              && NonIncreasing(r[t])
              && multiset(r[t]) == multiset(idx[t])
              && (forall c :: WithCount(r[t], c) == WithCount(idx[t], c))
  {
    map t | t in Tokenize(query) && t in idx :: SortByCount(idx[t])
  }

  /** The first pass of search(): every query word found in the index, with its postings as they are. */
  method CollectPostings(idx: Index, words: seq<string>) returns (found: Results)
    ensures found.Keys == set t | t in words && t in idx
    ensures forall t | t in found :: found[t] == idx[t]
  {
    found := map[];
    var i := 0;
    while i < |words|
      invariant 0 <= i <= |words|
      invariant found.Keys == set t | t in words[..i] && t in idx
      invariant forall t | t in found :: found[t] == idx[t]
    {
      assert words[..i + 1] == words[..i] + [words[i]];
      if words[i] in idx {
        found := found[words[i] := idx[words[i]]];
      }
      i := i + 1;
    }
    assert words[..|words|] == words;
  }

  /** The second pass: each collected list replaced by its ranking, the set of terms unchanged. */
  method RankAll(found: Results) returns (ranked: Results)
    ensures ranked.Keys == found.Keys
    ensures forall t | t in ranked :: ranked[t] == SortByCount(found[t])
  {
    ranked := found;
    var pending := found.Keys;
    while pending != {}
      invariant pending <= ranked.Keys && ranked.Keys == found.Keys
      invariant forall t | t in ranked && t !in pending :: ranked[t] == SortByCount(found[t])
      invariant forall t | t in pending :: ranked[t] == found[t]
      decreases pending
    {
      var t :| t in pending;
      ranked := ranked[t := SortByCount(ranked[t])];
      pending := pending - {t};
    }
  }

  /**
   * The two passes of search(): collect the postings of every query word
   * found in the index, then replace each collected list by its ranking.
   */
  method SearchInTwoPasses(idx: Index, query: string) returns (results: Results)
    ensures results == Search(idx, query)
  {
    var words := Tokenize(query);
    var found := CollectPostings(idx, words);
    results := RankAll(found);
    var expected := Search(idx, query);
    assert results.Keys == expected.Keys;
    assert forall t | t in results :: results[t] == expected[t];
  }

  /**
   * Indexing and querying share the tokenizer: querying a document's own
   * text, in any letter case, finds every one of its terms, each with the
   * document's posting among the results.
   */
  lemma QueryFindsDocument(idx: Index, file: Path, content: string, query: string)
    requires Lower(query) == Lower(content)
    ensures var words := Tokenize(content);
            var r := Search(AddDocument(idx, file, words), query);
            forall t | t in words :: t in r && WordInfo(file, Occurrences(words, t)) in r[t]
  {
    var words := Tokenize(content);
    var after := AddDocument(idx, file, words);
    var r := Search(after, query);
    forall t | t in words ensures t in r && WordInfo(file, Occurrences(words, t)) in r[t] {
      assert after[t][|after[t]| - 1] == WordInfo(file, Occurrences(words, t));
      assert WordInfo(file, Occurrences(words, t)) in multiset(after[t]);
    }
  }
}
