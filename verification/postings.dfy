/**
 * WordInfo, the posting record of both search-engine variants, and the
 * ranking applied by search(): sorted(postings, key=count, reverse=True),
 * which is a stable sort into non-increasing count order.
 */
module Postings {
  import opened Wrappers
  import opened Python

  /** The full path under which a document was indexed. */
  type Path = string

  /** One posting: the document and how often the term occurs in it. */
  datatype WordInfo = WordInfo(fileName: Path, count: int)

  /**
   * WordInfo.__lt__: compares counts only, and raises TypeError when the
   * other operand is not a WordInfo.
   */
  function Less(a: WordInfo, other: Arg<WordInfo>): (r: Outcome<bool>)
    ensures r.Err? <==> other.NotInstance?
    ensures r.Err? ==> r.error == TypeError
    ensures other.Instance? ==> (r.value <==> a.count < other.obj.count)
  {
    match other
    case Instance(b) => Ok(a.count < b.count)
    case NotInstance => Err(TypeError)
  }

  /** Counts never increase from left to right. */
  predicate NonIncreasing(ws: seq<WordInfo>) {
    forall i, j | 0 <= i < j < |ws| :: ws[i].count >= ws[j].count
  }

  /** The postings of ws with the given count, in their order in ws. */
  function WithCount(ws: seq<WordInfo>, c: int): seq<WordInfo> {
    if |ws| == 0 then []
    else (if ws[0].count == c then [ws[0]] else []) + WithCount(ws[1..], c)
  }

  lemma {:induction false} WithCountConcat(a: seq<WordInfo>, b: seq<WordInfo>, c: int)
    ensures WithCount(a + b, c) == WithCount(a, c) + WithCount(b, c)
  {
    if |a| > 0 {
      assert (a + b)[1..] == a[1..] + b;
      WithCountConcat(a[1..], b, c);
    } else {
      assert a + b == b;
    }
  }

  /**
   * Inserts x into a non-increasing ys ahead of every posting whose count
   * is not greater than x's, so x stays ahead of the equal-count postings
   * that followed it in the input.
   */
  function InsertByCount(x: WordInfo, ys: seq<WordInfo>): seq<WordInfo> {
    if |ys| == 0 || x.count >= ys[0].count then [x] + ys
    else [ys[0]] + InsertByCount(x, ys[1..])
  }

  lemma {:induction false} InsertByCountElements(x: WordInfo, ys: seq<WordInfo>)
    ensures multiset(InsertByCount(x, ys)) == multiset(ys) + multiset{x}
  {
    if |ys| > 0 && x.count < ys[0].count {
      InsertByCountElements(x, ys[1..]);
      assert ys == [ys[0]] + ys[1..];
    }
  }

  lemma {:induction false} InsertByCountOrdered(x: WordInfo, ys: seq<WordInfo>)
    requires NonIncreasing(ys)
    ensures NonIncreasing(InsertByCount(x, ys))
  {
    if |ys| > 0 && x.count < ys[0].count {
      var rest := InsertByCount(x, ys[1..]);
      InsertByCountOrdered(x, ys[1..]);
      InsertByCountElements(x, ys[1..]);
      forall k | 0 <= k < |rest| ensures ys[0].count >= rest[k].count {
        assert rest[k] in multiset(rest);
        if rest[k] != x {
          assert rest[k] in multiset(ys[1..]);
        }
      }
    }
  }

  lemma {:induction false} InsertByCountStable(x: WordInfo, ys: seq<WordInfo>, c: int)
    ensures WithCount(InsertByCount(x, ys), c) == WithCount([x], c) + WithCount(ys, c)
  {
    if |ys| == 0 || x.count >= ys[0].count {
      WithCountConcat([x], ys, c);
    } else {
      var rest := InsertByCount(x, ys[1..]);
      InsertByCountStable(x, ys[1..], c);
      WithCountConcat([ys[0]], rest, c);
      WithCountConcat([ys[0]], ys[1..], c);
      assert ys == [ys[0]] + ys[1..];
    }
  }

  /**
   * sorted(ws, key=lambda x: x.count, reverse=True): a permutation of ws in
   * non-increasing count order in which postings with equal counts keep
   * their original relative order.
   */
  function SortByCount(ws: seq<WordInfo>): (r: seq<WordInfo>)
    ensures |r| == |ws|
    ensures NonIncreasing(r)
    ensures multiset(r) == multiset(ws)
    ensures forall c :: WithCount(r, c) == WithCount(ws, c)
  {
    if |ws| == 0 then []
    else
      var sorted := SortByCount(ws[1..]);
      SortStep(ws, sorted);
      InsertByCount(ws[0], sorted)
  }

  /** One insertion step keeps order, elements and stability. */
  lemma SortStep(ws: seq<WordInfo>, sorted: seq<WordInfo>)
    requires |ws| > 0 && NonIncreasing(sorted) && multiset(sorted) == multiset(ws[1..])
    requires forall c :: WithCount(sorted, c) == WithCount(ws[1..], c)
    ensures |InsertByCount(ws[0], sorted)| == |ws|
    ensures NonIncreasing(InsertByCount(ws[0], sorted))
    ensures multiset(InsertByCount(ws[0], sorted)) == multiset(ws)
    ensures forall c :: WithCount(InsertByCount(ws[0], sorted), c) == WithCount(ws, c)
  {
    var r := InsertByCount(ws[0], sorted);
    InsertByCountElements(ws[0], sorted);
    InsertByCountOrdered(ws[0], sorted);
    assert ws == [ws[0]] + ws[1..];
    forall c ensures WithCount(r, c) == WithCount(ws, c) {
      InsertByCountStable(ws[0], sorted, c);
      WithCountConcat([ws[0]], ws[1..], c);
    }
    assert |r| == |multiset(r)|;
  }

  /** Under WordInfo.__lt__ no ranked posting is smaller than one ranked after it. */
  lemma RankingHasNoInversion(ws: seq<WordInfo>, i: int, j: int)
    requires 0 <= i < j < |ws|
    ensures Less(SortByCount(ws)[i], Instance(SortByCount(ws)[j])) == Ok(false)
  {
  }

  lemma {:induction false} WithCountMember(ws: seq<WordInfo>, c: int, k: int)
    requires 0 <= k < |WithCount(ws, c)|
    ensures WithCount(ws, c)[k] in ws && WithCount(ws, c)[k].count == c
  {
    if ws[0].count == c && k == 0 {
    } else {
      var d := if ws[0].count == c then 1 else 0;
      WithCountMember(ws[1..], c, k - d);
    }
  }

  lemma {:induction false} WithCountHead(ws: seq<WordInfo>)
    requires |ws| > 0
    ensures |WithCount(ws, ws[0].count)| > 0 && WithCount(ws, ws[0].count)[0] == ws[0]
  {
  }

  lemma {:induction false} WithCountTail(ws: seq<WordInfo>, c: int)
    requires |ws| > 0
    ensures WithCount(ws[1..], c) == if ws[0].count == c then WithCount(ws, c)[1..] else WithCount(ws, c)
  {
  }

  /**
   * Two non-increasing sequences with the same postings at every count are
   * equal: order and stability together determine the ranking.
   */
  lemma {:induction false} RankingIsDetermined(a: seq<WordInfo>, b: seq<WordInfo>)
    requires NonIncreasing(a) && NonIncreasing(b)
    requires forall c :: WithCount(a, c) == WithCount(b, c)
    ensures a == b
    decreases |a|
  {
    if |a| == 0 {
      if |b| > 0 {
        WithCountHead(b);
        assert false;
      }
    } else {
      WithCountHead(a);
      var m := a[0].count;
      assert |WithCount(b, m)| > 0;
      assert |b| > 0;
      WithCountHead(b);
      WithCountMember(a, b[0].count, 0);
      WithCountMember(b, m, 0);
      assert b[0].count <= m;
      assert m <= b[0].count;
      assert b[0] == WithCount(b, m)[0] == a[0];
      forall c ensures WithCount(a[1..], c) == WithCount(b[1..], c) {
        WithCountTail(a, c);
        WithCountTail(b, c);
      }
      RankingIsDetermined(a[1..], b[1..]);
      assert a == [a[0]] + a[1..];
      assert b == [b[0]] + b[1..];
    }
  }

  /**
   * The ranking is the only stable non-increasing arrangement of the
   * postings: any r that is ordered by count and keeps equal-count postings
   * in input order is exactly what search returns.
   */
  lemma StableRankingUnique(ws: seq<WordInfo>, r: seq<WordInfo>)
    requires NonIncreasing(r)
    requires forall c :: WithCount(r, c) == WithCount(ws, c)
    ensures r == SortByCount(ws)
  {
    RankingIsDetermined(r, SortByCount(ws));
  }
}
