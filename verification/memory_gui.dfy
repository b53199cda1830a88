/**
 * The click-driven memory game of the window front end
 * (Game-Development-System/Memory-Game/memory_game_GUI.py): clicks select
 * up to two cards, and the check scheduled after the second click either
 * keeps a matching pair face up or hides both again. Buttons, timers and
 * colours are not modelled; the board is the same row-major grid as in
 * MemoryBoard, and a clicked card is shown on its button without being
 * marked founded.
 */
module MemoryGui {
  import opened Wrappers
  import opened Python
  import opened Cells
  import opened MemoryBoard
  import opened Numerals
  import opened Text

  datatype Coord = Coord(row: nat, col: nat)

  datatype Gui = Gui(size: nat, board: seq<Cell>, winCase: int,
                     first: Option<Coord>, second: Option<Coord>, moves: nat)

  /** The size used until the size dialog accepts another one. */
  const DefaultSize: nat := 4

  /**
   * The size dialog: the entry text goes through int(); a number that is even
   * and at least 2 replaces the current size and sets win_case, while text
   * int() refuses or a refused size leaves both as they were.
   */
  function ChooseSize(current: nat, currentWinCase: int, entered: string): (r: (nat, int))
    ensures ParseInt(entered, 10).Err? ==> r == (current, currentWinCase)
    ensures ParseInt(entered, 10).Ok? && AcceptSize(ParseInt(entered, 10).value).None? ==>
              r == (current, currentWinCase)
    ensures ParseInt(entered, 10).Ok? && AcceptSize(ParseInt(entered, 10).value).Some? ==>
              r.0 == ParseInt(entered, 10).value && 2 * r.1 == r.0 * r.0
  {
    match ParseInt(entered, 10)
    case Err(_) => (current, currentWinCase)
    case Ok(n) =>
      match AcceptSize(n)
      case Some(w) => (n, w)
      case None => (current, currentWinCase)
  }

  /** Text that int() refuses leaves the size alone. */
  lemma ChooseSizeRefusesWords()
    ensures ChooseSize(4, 8, "six") == (4, 8)
  {
    assert ParseInt("six", 10).Err? by {
      assert !IsDigitIn("six"[0], 10);
    }
  }

  /** An odd number leaves the size alone. */
  lemma ChooseSizeRefusesOdd()
    ensures ChooseSize(4, 8, "5") == (4, 8)
  {
    ParseUnsigned("5", 10);
  }

  /** The entry text is stripped before it is read: " 6 " sets the size to 6. */
  lemma ChooseSizeStripsSpaces()
    ensures ChooseSize(4, 8, " 6 ") == (6, 18)
  {
    SpacedSix();
  }

  lemma SpacedSix()
    ensures ParseInt(" 6 ", 10) == Ok(6)
  {
    var s := " 6 ";
    assert !HasInfoSeparator(s) by {
      forall k | 0 <= k < |s| ensures !IsInfoSeparator(s[k]) {
        assert s[k] == ' ' || s[k] == '6';
      }
    }
    assert Strip(s) == "6" by {
      assert LeadingEnd(s, 0) == 1;
      assert TrailingStart(s, 1, 3) == 2;
    }
    ParseUnsigned("6", 10);
  }

  predicate InGrid(g: Gui, c: Coord) {
    c.row < g.size && c.col < g.size
  }

  function CellAt(g: Gui, c: Coord): Cell
    requires |g.board| == g.size * g.size && InGrid(g, c)
  {
    g.board[Pos(g.size, c.row, c.col)]
  }

  /**
   * Between events: the board bookkeeping holds, a second selection only
   * exists beside a first one, and selections are distinct face-down cards
   * inside the grid.
   */
  predicate GuiInv(g: Gui) {
    && BoardInv(g.size, g.board, g.winCase)
    && (g.second.Some? ==> g.first.Some?)
    && (g.first.Some? ==> InGrid(g, g.first.value) && !CellAt(g, g.first.value).founded)
    && (g.second.Some? ==> InGrid(g, g.second.value) && !CellAt(g, g.second.value).founded)
    && (g.first.Some? && g.second.Some? ==> g.first.value != g.second.value)
  }

  /** The window right after the board is dealt. */
  function NewGui(size: nat, board: seq<Cell>): (g: Gui)
    requires AcceptSize(size).Some? && IsDeal(board, AcceptSize(size).value)
    ensures GuiInv(g) && g.moves == 0 && g.first.None? && g.second.None?
  {
    DealIsInitial(size, board);
    DealContents(board, AcceptSize(size).value);
    Gui(size, board, AcceptSize(size).value, None, None, 0)
  }

  /**
   * __on_button_click: a founded card or the card already held as first
   * selection is ignored; otherwise the click becomes the first selection,
   * else the second one; with both held, the click is ignored. The board,
   * win_case and the move count never change on a click.
   */
  function Click(g: Gui, c: Coord): (h: Gui)
    requires |g.board| == g.size * g.size && InGrid(g, c)
    ensures h.board == g.board && h.winCase == g.winCase && h.moves == g.moves && h.size == g.size
    ensures CellAt(g, c).founded || g.first == Some(c) ==> h == g
    ensures g.first.Some? && g.second.Some? ==> h == g
    ensures !CellAt(g, c).founded && g.first.None? ==> h.first == Some(c) && h.second == g.second
    ensures !CellAt(g, c).founded && g.first.Some? && g.first != Some(c) && g.second.None?
            ==> h.first == g.first && h.second == Some(c)
  {
    if CellAt(g, c).founded || g.first == Some(c) then g
    else if g.first.None? then g.(first := Some(c))
    else if g.second.None? then g.(second := Some(c))
    else g
  }

  /** A click keeps the invariant. */
  lemma ClickKeepsInv(g: Gui, c: Coord)
    requires GuiInv(g) && InGrid(g, c)
    ensures GuiInv(Click(g, c))
  {
  }

  /**
   * __check_match, run once both cards are selected: equal cards are marked
   * founded and win_case loses one; in every case one move is counted and
   * both selections are cleared.
   */
  function CheckMatch(g: Gui): (h: Gui)
    requires GuiInv(g) && g.first.Some? && g.second.Some?
    ensures GuiInv(h) && h.size == g.size
    ensures h.moves == g.moves + 1 && h.first.None? && h.second.None?
    ensures CellAt(g, g.first.value).value == CellAt(g, g.second.value).value
            ==> h.winCase == g.winCase - 1
                && h.board == g.board[Pos(g.size, g.first.value.row, g.first.value.col) := CellAt(g, g.first.value).(founded := true)]
                                     [Pos(g.size, g.second.value.row, g.second.value.col) := CellAt(g, g.second.value).(founded := true)]
    ensures CellAt(g, g.first.value).value != CellAt(g, g.second.value).value
            ==> h.winCase == g.winCase && h.board == g.board
  {
    var a := g.first.value;
    var b := g.second.value;
    var i := Pos(g.size, a.row, a.col);
    var j := Pos(g.size, b.row, b.col);
    PosInjective(g.size, a.row, a.col, b.row, b.col);
    if Equals(g.board[i], Instance(g.board[j])) == Ok(true) then
      var b1 := g.board[i := g.board[i].(founded := true)];
      var b2 := b1[j := b1[j].(founded := true)];
      FoundedCountUpdate(g.board, i, g.board[i].(founded := true));
      FoundedCountUpdate(b1, j, b1[j].(founded := true));
      FlipKeepsDeal(g.board, i, true);
      FlipKeepsDeal(b1, j, true);
      Gui(g.size, b2, g.winCase - 1, None, None, g.moves + 1)
    else
      Gui(g.size, g.board, g.winCase, None, None, g.moves + 1)
  }

  /** __check_win. */
  predicate CheckWin(g: Gui) {
    g.winCase == 0
  }

  /** The window reports a win exactly when every card is face up. */
  lemma CheckWinMeansAllFounded(g: Gui)
    requires GuiInv(g)
    ensures CheckWin(g) <==> forall i | 0 <= i < |g.board| :: g.board[i].founded
  {
    WinMeansAllFounded(g.size, g.board, g.winCase);
  }
}
