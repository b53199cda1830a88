/**
 * The board shared by both memory-game front ends
 * (Game-Development-System/Memory-Game/memory_game.py and
 * memory_game_GUI.py): the size rule, the deal of value pairs, and the
 * bookkeeping that ties the number of face-up cards to win_case.
 *
 * The size x size grid is kept row-major in one sequence: the card in row x
 * and column y sits at x * size + y.
 */
module MemoryBoard {
  import opened Wrappers
  import opened Cells

  /**
   * The size rule of both front ends: a size is accepted iff it is even and
   * at least 2, and then win_case is size**2 // 2, the number of pairs.
   */
  function AcceptSize(size: int): (r: Option<nat>)
    ensures r.Some? <==> size % 2 == 0 && size >= 2
    ensures r.Some? ==> 2 * r.value == size * size && r.value >= 2
  {
    if size % 2 == 0 && size >= 2 then
      var half := size / 2;
      assert size * size == 2 * (2 * half * half);
      Some((size * size) / 2)
    else None
  }

  /** Cell(1) ... Cell(n), face down. */
  function Run(n: nat): (cs: seq<Cell>)
    ensures |cs| == n
    ensures forall i | 0 <= i < n :: cs[i] == NewCell(i + 1)
  {
    if n == 0 then [] else Run(n - 1) + [NewCell(n)]
  }

  /** The cards __init_board builds before shuffling: the values 1..n, twice. */
  function Deck(n: nat): (cs: seq<Cell>)
    ensures |cs| == 2 * n
  {
    Run(n) + Run(n)
  }

  lemma {:induction false} RunCounts(n: nat, c: Cell)
    ensures multiset(Run(n))[c] == if !c.founded && 1 <= c.value <= n then 1 else 0
  {
    if n > 0 {
      RunCounts(n - 1, c);
      var r := Run(n - 1);
      assert multiset(Run(n)) == multiset(r) + multiset{NewCell(n)};
      assert c == NewCell(n) <==> !c.founded && c.value == n;
    }
  }

  /** Each value 1..n lies in the deck exactly twice, face down, and nothing else does. */
  lemma DeckCounts(n: nat, c: Cell)
    ensures multiset(Deck(n))[c] == if !c.founded && 1 <= c.value <= n then 2 else 0
  {
    RunCounts(n, c);
  }

  /**
   * A board as dealt: the deck in some order (np.random.shuffle is not
   * modelled; any permutation is allowed).
   */
  predicate IsDeal(board: seq<Cell>, n: nat) {
    multiset(board) == multiset(Deck(n))
  }

  /** A dealt board has 2n cards, all face down, each value 1..n exactly twice. */
  lemma DealContents(board: seq<Cell>, n: nat)
    requires IsDeal(board, n)
    ensures |board| == 2 * n
    ensures forall i | 0 <= i < |board| :: !board[i].founded && 1 <= board[i].value <= n
    ensures forall v | 1 <= v <= n :: multiset(board)[NewCell(v)] == 2
    ensures FoundedCount(board) == 0
  {
    assert |multiset(board)| == |multiset(Deck(n))|;
    forall i | 0 <= i < |board| ensures !board[i].founded && 1 <= board[i].value <= n {
      assert board[i] in multiset(board);
      DeckCounts(n, board[i]);
    }
    forall v | 1 <= v <= n ensures multiset(board)[NewCell(v)] == 2 {
      DeckCounts(n, NewCell(v));
    }
    NoneFounded(board);
  }

  /** The cards with the face-up flag cleared. */
  function FaceDown(board: seq<Cell>): (r: seq<Cell>)
    ensures |r| == |board|
    ensures forall i | 0 <= i < |board| :: r[i] == board[i].(founded := false)
  {
    seq(|board|, i requires 0 <= i < |board| => board[i].(founded := false))
  }

  /** The number of face-up cards. */
  function FoundedCount(board: seq<Cell>): (k: nat)
    ensures k <= |board|
  {
    if |board| == 0 then 0
    else FoundedCount(board[..|board| - 1]) + (if board[|board| - 1].founded then 1 else 0)
  }

  /** Every card is face up exactly when the count is the number of cards. */
  lemma {:induction false} AllFounded(board: seq<Cell>)
    ensures FoundedCount(board) == |board| <==> forall i | 0 <= i < |board| :: board[i].founded
    decreases |board|
  {
    if |board| > 0 {
      var front := board[..|board| - 1];
      AllFounded(front);
      assert forall i | 0 <= i < |front| :: front[i] == board[i];
    }
  }

  /** No card is face up exactly when the count is zero. */
  lemma {:induction false} NoneFounded(board: seq<Cell>)
    ensures FoundedCount(board) == 0 <==> forall i | 0 <= i < |board| :: !board[i].founded
    decreases |board|
  {
    if |board| > 0 {
      var front := board[..|board| - 1];
      NoneFounded(front);
      assert forall i | 0 <= i < |front| :: front[i] == board[i];
    }
  }

  /** Replacing one card changes the face-up count only by that card's flag. */
  lemma {:induction false} FoundedCountUpdate(board: seq<Cell>, i: nat, c: Cell)
    requires i < |board|
    ensures FoundedCount(board[i := c])
            == FoundedCount(board) - (if board[i].founded then 1 else 0) + (if c.founded then 1 else 0)
    decreases |board|
  {
    var b := board[i := c];
    var last := |board| - 1;
    if i < last {
      var front := board[..last];
      assert forall k | 0 <= k < last :: b[..last][k] == front[i := c][k];
      assert b[..last] == front[i := c];
      FoundedCountUpdate(front, i, c);
    } else {
      assert b[..last] == board[..last];
    }
  }

  /**
   * The bookkeeping both front ends keep between moves: a board of size x
   * size cards that is still a deal of the pairs (face up or not), with
   * exactly two face-up cards for every pair already matched.
   */
  predicate BoardInv(size: nat, board: seq<Cell>, winCase: int) {
    && AcceptSize(size).Some?
    && |board| == size * size
    && IsDeal(FaceDown(board), AcceptSize(size).value)
    && 0 <= winCase <= AcceptSize(size).value
    && FoundedCount(board) == 2 * (AcceptSize(size).value - winCase)
  }

  /** A freshly dealt board of an accepted size satisfies the bookkeeping with win_case at its start value. */
  lemma DealIsInitial(size: nat, board: seq<Cell>)
    requires AcceptSize(size).Some?
    requires IsDeal(board, AcceptSize(size).value)
    ensures BoardInv(size, board, AcceptSize(size).value)
  {
    var n := AcceptSize(size).value;
    DealContents(board, n);
    assert FaceDown(board) == board;
  }

  /** The game is won (win_case == 0) exactly when every card is face up. */
  lemma WinMeansAllFounded(size: nat, board: seq<Cell>, winCase: int)
    requires BoardInv(size, board, winCase)
    ensures winCase == 0 <==> forall i | 0 <= i < |board| :: board[i].founded
  {
    AllFounded(board);
  }

  /** Turning a card face up or down keeps the board a deal of the same pairs. */
  lemma FlipKeepsDeal(board: seq<Cell>, i: nat, f: bool)
    requires i < |board|
    ensures FaceDown(board[i := board[i].(founded := f)]) == FaceDown(board)
  {
  }

  /** row x, column y of the row-major grid. */
  function Pos(size: nat, x: nat, y: nat): (p: nat)
    requires x < size && y < size
    ensures p < size * size
  {
    assert x * size + y < (x + 1) * size <= size * size;
    x * size + y
  }

  /** Positions grow with the row: every cell of an earlier row comes first. */
  lemma PosOrder(size: nat, x1: nat, y1: nat, x2: nat, y2: nat)
    requires x1 < x2 < size && y1 < size && y2 < size
    ensures Pos(size, x1, y1) < Pos(size, x2, y2)
  {
    assert (x1 + 1) * size <= x2 * size by {
      var d := x2 - (x1 + 1);
      assert x2 * size == (x1 + 1) * size + d * size;
    }
  }

  /** Two cells of the grid share a position exactly when they are the same cell. */
  lemma PosInjective(size: nat, x1: nat, y1: nat, x2: nat, y2: nat)
    requires x1 < size && y1 < size && x2 < size && y2 < size
    ensures Pos(size, x1, y1) == Pos(size, x2, y2) <==> x1 == x2 && y1 == y2
  {
    if x1 < x2 {
      PosOrder(size, x1, y1, x2, y2);
    } else if x2 < x1 {
      PosOrder(size, x2, y2, x1, y1);
    }
  }
}
