/**
 * A worked example of the search engine (GUI variant): a folder holding
 * a.txt = "dog dog cat" and b.txt = "cat cat cat", queried with "cat dog".
 */
module SearchScenario {
  import opened Wrappers
  import opened Text
  import opened Tokenizer
  import opened Postings
  import opened Files
  import opened InvertedIndex
  import opened GuiSearchEngine

  const Folder := FileSystem(
    map["docs" := ["a.txt", "notes.md", "b.txt"]],
    map["docs/a.txt" := Some(TextA), "docs/b.txt" := Some(TextB),
        "docs/notes.md" := Some("dog")])

  lemma ScenarioPaths()
    ensures TxtPaths("docs", Folder.dirs["docs"]) == ["docs/a.txt", "docs/b.txt"]
  {
    var names := ["a.txt", "notes.md", "b.txt"];
    assert EndsWith("a.txt", ".txt") && EndsWith("b.txt", ".txt") && !EndsWith("notes.md", ".txt");
    assert Join("docs", "a.txt") == "docs/a.txt";
    assert Join("docs", "b.txt") == "docs/b.txt";
    assert names[1..] == ["notes.md", "b.txt"];
    assert names[1..][1..] == ["b.txt"];
    assert ["b.txt"][1..] == [];
  }

  const TextA := "dog dog cat"
  const TextB := "Cat cat CAT"
  const DocA := "docs/a.txt"
  const DocB := "docs/b.txt"

  /** The engine after a.txt. */
  const AfterA := Engine(map["dog" := [WordInfo(DocA, 2)], "cat" := [WordInfo(DocA, 1)]], {DocA})

  /** The engine after a.txt and b.txt. */
  const AfterB := Engine(map["dog" := [WordInfo(DocA, 2)], "cat" := [WordInfo(DocA, 1), WordInfo(DocB, 3)]],
                         {DocA, DocB})

  lemma TokensOfA()
    ensures Tokenize(TextA) == ["dog", "dog", "cat"]
  {
    var ws := ["dog", "dog", "cat"];
    assert IsTerm("dog") && IsTerm("cat");
    forall i | 0 <= i < |"dog dog cat"| ensures Lower("dog dog cat")[i] == "dog dog cat"[i] {
      assert Lower("dog dog cat")[i] == LowerChar("dog dog cat"[i]);
    }
    assert JoinWords(ws) == "dog dog cat" by {
      assert ws[1..] == ["dog", "cat"] && ws[1..][1..] == ["cat"];
    }
    TokenizeTypedWords(ws, "dog dog cat");
  }

  lemma TokensOfB()
    ensures Tokenize(TextB) == ["cat", "cat", "cat"]
  {
    var ws := ["cat", "cat", "cat"];
    assert IsTerm("cat");
    forall i | 0 <= i < |"Cat cat CAT"| ensures Lower("Cat cat CAT")[i] == "cat cat cat"[i] {
      assert Lower("Cat cat CAT")[i] == LowerChar("Cat cat CAT"[i]);
    }
    assert JoinWords(ws) == "cat cat cat" by {
      assert ws[1..] == ["cat", "cat"] && ws[1..][1..] == ["cat"];
    }
    TokenizeTypedWords(ws, "Cat cat CAT");
  }

  const Query := "cat DOG"

  lemma TokensOfQuery()
    ensures Tokenize(Query) == ["cat", "dog"]
  {
    var ws := ["cat", "dog"];
    assert IsTerm("dog") && IsTerm("cat");
    forall i | 0 <= i < |"cat DOG"| ensures Lower("cat DOG")[i] == "cat dog"[i] {
      assert Lower("cat DOG")[i] == LowerChar("cat DOG"[i]);
    }
    assert JoinWords(ws) == "cat dog" by {
      assert ws[1..] == ["dog"];
    }
    TokenizeTypedWords(ws, "cat DOG");
  }

  lemma CountsOfA()
    ensures Occurrences(["dog", "dog", "cat"], "dog") == 2
    ensures Occurrences(["dog", "dog", "cat"], "cat") == 1
  {
    var ws := ["dog", "dog", "cat"];
    assert ws[1..] == ["dog", "cat"] && ws[2..] == ["cat"] && ws[3..] == [];
  }

  /** A first document with two distinct terms. */
  lemma AddTwoTermsToEmpty(file: Path, ws: seq<string>, a: string, b: string)
    requires a != b && DistinctTerms(ws) == {a, b}
    ensures AddDocument(map[], file, ws)
            == map[a := [WordInfo(file, Occurrences(ws, a))], b := [WordInfo(file, Occurrences(ws, b))]]
  {
    var r := AddDocument(map[], file, ws);
    MapOfTwo(r, a, b);
    FreshPosting(file, ws, a);
    FreshPosting(file, ws, b);
  }

  /** A map whose keys are exactly a and b is the display of its two entries. */
  lemma MapOfTwo<K, V>(r: map<K, V>, a: K, b: K)
    requires r.Keys == {a, b}
    ensures r == map[a := r[a], b := r[b]]
  {
  }

  /** Adding a document to the empty index gives each of its terms the document's posting alone. */
  lemma FreshPosting(file: Path, ws: seq<string>, t: string)
    requires t in DistinctTerms(ws)
    ensures t in AddDocument(map[], file, ws)
    ensures AddDocument(map[], file, ws)[t] == [WordInfo(file, Occurrences(ws, t))]
  {
    assert t in ws && PostingsOf(map[], t) == [];
  }

  /** A document with a single distinct term. */
  lemma AddOneTerm(idx: Index, file: Path, ws: seq<string>, a: string)
    requires DistinctTerms(ws) == {a}
    ensures AddDocument(idx, file, ws) == idx[a := PostingsOf(idx, a) + [WordInfo(file, Occurrences(ws, a))]]
  {
    var r := AddDocument(idx, file, ws);
    var m := idx[a := PostingsOf(idx, a) + [WordInfo(file, Occurrences(ws, a))]];
    assert a in ws;
    assert r.Keys == m.Keys;
    assert forall t | t in r :: r[t] == m[t];
  }

  lemma DocumentA()
    ensures AddDocument(map[], DocA, ["dog", "dog", "cat"]) == AfterA.index
  {
    var ws := ["dog", "dog", "cat"];
    CountsOfA();
    assert DistinctTerms(ws) == {"dog", "cat"};
    AddTwoTermsToEmpty(DocA, ws, "dog", "cat");
  }

  lemma IndexA()
    ensures AddFile(Fresh, DocA, TextA) == AfterA
  {
    TokensOfA();
    DocumentA();
  }

  lemma CountsOfB()
    ensures Occurrences(["cat", "cat", "cat"], "cat") == 3
  {
    var ws := ["cat", "cat", "cat"];
    assert ws[1..] == ["cat", "cat"] && ws[2..] == ["cat"] && ws[3..] == [];
  }

  lemma DocumentB()
    ensures AddDocument(AfterA.index, DocB, ["cat", "cat", "cat"]) == AfterB.index
  {
    var ws := ["cat", "cat", "cat"];
    CountsOfB();
    DistinctOfB();
    AddOneTerm(AfterA.index, DocB, ws, "cat");
    AfterBExtendsA();
  }

  lemma DistinctOfB()
    ensures DistinctTerms(["cat", "cat", "cat"]) == {"cat"}
  {
    assert "cat" in ["cat", "cat", "cat"];
  }

  /** b.txt adds its posting for "cat" after a.txt's. */
  lemma AfterBExtendsA()
    ensures AfterA.index["cat" := PostingsOf(AfterA.index, "cat") + [WordInfo(DocB, 3)]] == AfterB.index
  {
    var r := AfterA.index["cat" := [WordInfo(DocA, 1)] + [WordInfo(DocB, 3)]];
    assert r.Keys == AfterB.index.Keys;
    assert r["dog"] == AfterB.index["dog"] && r["cat"] == AfterB.index["cat"];
  }

  lemma IndexB()
    ensures AddFile(AfterA, DocB, TextB) == AfterB
  {
    TokensOfB();
    DocumentB();
  }

  lemma ScenarioIndex()
    ensures IndexFiles(Fresh, Folder, "docs").engine == AfterB
  {
    ScenarioPaths();
    IndexA();
    IndexB();
    assert Read(Folder, DocA) == Wrappers.Ok(TextA);
    assert Read(Folder, DocB) == Wrappers.Ok(TextB);
    assert [DocA, DocB][1..] == [DocB];
    assert IndexPaths(Fresh, Folder, [DocA, DocB]) == IndexPaths(AfterA, Folder, [DocB]);
    assert IndexPaths(AfterA, Folder, [DocB]) == IndexPaths(AfterB, Folder, []);
  }

  /** A single posting is its own ranking. */
  lemma RankOne(x: WordInfo)
    ensures SortByCount([x]) == [x]
  {
    StableRankingUnique([x], [x]);
  }

  /** Two postings out of order swap places. */
  lemma RankTwo(x: WordInfo, y: WordInfo)
    requires x.count < y.count
    ensures SortByCount([x, y]) == [y, x]
  {
    forall c ensures WithCount([y, x], c) == WithCount([x, y], c) {
      assert [y, x][1..] == [x] && [x, y][1..] == [y];
    }
    StableRankingUnique([x, y], [y, x]);
  }

  /** The rankings of two indexed terms, collected as search() collects them. */
  lemma RankingsOfTwoTerms(idx: Index, t1: string, t2: string)
    requires t1 != t2 && t1 in idx && t2 in idx
    ensures (map t | t in [t1, t2] && t in idx :: SortByCount(idx[t]))
            == map[t1 := SortByCount(idx[t1]), t2 := SortByCount(idx[t2])]
  {
    var r := map t | t in [t1, t2] && t in idx :: SortByCount(idx[t]);
    assert t1 in [t1, t2] && t2 in [t1, t2];
    assert r.Keys == {t1, t2};
  }

  /** A two-word query whose words are both indexed. */
  lemma SearchTwoTerms(idx: Index, query: string, t1: string, t2: string)
    requires Tokenize(query) == [t1, t2] && t1 != t2
    requires t1 in idx && t2 in idx
    ensures Search(idx, query) == map[t1 := SortByCount(idx[t1]), t2 := SortByCount(idx[t2])]
  {
    RankingsOfTwoTerms(idx, t1, t2);
  }

  lemma SearchAfterB()
    ensures Search(AfterB.index, Query) == map["cat" := [WordInfo(DocB, 3), WordInfo(DocA, 1)],
                                               "dog" := [WordInfo(DocA, 2)]]
  {
    TokensOfQuery();
    SearchTwoTerms(AfterB.index, Query, "cat", "dog");
    RankTwo(WordInfo(DocA, 1), WordInfo(DocB, 3));
    RankOne(WordInfo(DocA, 2));
  }

  /**
   * The ranking example: only the ".txt" entries are indexed, letter case
   * does not matter, and "cat" ranks b.txt (3 occurrences) ahead of a.txt
   * (1), while "dog" finds only a.txt (2).
   */
  lemma RankingScenario()
    ensures var e := IndexFiles(Fresh, Folder, "docs").engine;
            && e.indexedFiles == {"docs/a.txt", "docs/b.txt"}
            && Search(e.index, Query) == map["cat" := [WordInfo("docs/b.txt", 3), WordInfo("docs/a.txt", 1)],
                                                 "dog" := [WordInfo("docs/a.txt", 2)]]
  {
    ScenarioIndex();
    SearchAfterB();
  }

  /** get_file_content refuses a file that exists but was never indexed. */
  lemma UnindexedFileIsRefused()
    ensures var e := IndexFiles(Fresh, Folder, "docs").engine;
            GetFileContent(e, Folder, "docs/notes.md") == Err(Python.FileNotFoundError)
  {
    ScenarioIndex();
  }
}
