/**
 * The console memory game (Game-Development-System/Memory-Game/memory_game.py).
 * What the player types is a sequence of lines; input() past the last one
 * raises EOFError. The board is a size x size grid (see MemoryBoard).
 */
module MemoryGame {
  import opened Wrappers
  import opened Python
  import opened Text
  import opened Numerals
  import opened Cells
  import opened MemoryBoard

  datatype Game = Game(size: nat, board: seq<Cell>, winCase: int)

  /** The size chosen by __input_size and the lines still unread. */
  datatype SizeChoice = SizeChoice(size: nat, winCase: nat, rest: seq<string>)

  /**
   * __input_size: each line is read with int(); a line that does not parse
   * (ValueError) or a size the rule refuses asks again.
   */
  function InputSize(lines: seq<string>): (r: Outcome<SizeChoice>)
    ensures r.Ok? ==> AcceptSize(r.value.size) == Some(r.value.winCase)
    ensures r.Ok? ==> |r.value.rest| < |lines| && r.value.rest == lines[|lines| - |r.value.rest|..]
    ensures r.Err? ==> r.error == EOFError
  {
    if |lines| == 0 then Err(EOFError)
    else if !RefusedSize(lines[0]) then
      var size := ParseInt(lines[0], 10).value;
      Ok(SizeChoice(size, AcceptSize(size).value, lines[1..]))
    else
      var r := InputSize(lines[1..]);
      if r.Ok? then
        SuffixOfSuffix(lines, lines[1..], r.value.rest);
        r
      else r
  }

  /** A line __input_size turns down: not an integer, or a size the rule refuses. */
  predicate RefusedSize(line: string) {
    ParseInt(line, 10).Err? || AcceptSize(ParseInt(line, 10).value).None?
  }

  /**
   * The size chosen is the value of the line that was accepted, and every
   * line before it was turned down.
   */
  lemma {:induction false} InputSizeReadsChosenLine(lines: seq<string>)
    requires InputSize(lines).Ok?
    ensures var c := InputSize(lines).value;
            var k := |lines| - |c.rest| - 1;
            && ParseInt(lines[k], 10) == Ok(c.size as int)
            && forall i | 0 <= i < k :: RefusedSize(lines[i])
  {
    var c := InputSize(lines).value;
    if !RefusedSize(lines[0]) {
      assert c.rest == lines[1..];
    } else {
      var tail := lines[1..];
      InputSizeReadsChosenLine(tail);
      assert InputSize(tail).value == c;
      var k := |lines| - |c.rest| - 1;
      assert tail[k - 1] == lines[k];
      forall i | 0 <= i < k ensures RefusedSize(lines[i]) {
        if i > 0 {
          assert lines[i] == tail[i - 1];
        }
      }
    }
  }

  /** A game right after __init_board: a deal of the pairs, win_case at its start value. */
  predicate IsNewGame(g: Game) {
    && AcceptSize(g.size).Some?
    && |g.board| == g.size * g.size
    && IsDeal(g.board, AcceptSize(g.size).value)
    && g.winCase == AcceptSize(g.size).value
  }

  predicate Inv(g: Game) {
    BoardInv(g.size, g.board, g.winCase)
  }

  /** An index into one axis of the numpy grid: -size..size-1 are valid, negative ones count from the end. */
  function AxisIndex(size: nat, i: int): (r: Option<nat>)
    ensures r.Some? <==> -(size as int) <= i < size
    ensures r.Some? ==> r.value < size && (i >= 0 ==> r.value == i)
  {
    if 0 <= i < size then Some(i)
    else if -(size as int) <= i < 0 then Some(i + size)
    else None
  }

  /** Coordinates accepted by __check_cords and the lines still unread. */
  datatype Pick = Pick(x: int, y: int, rest: seq<string>)

  /** How one line of __check_cords is judged. */
  datatype Verdict = Accept(x: int, y: int) | Retry | Raise(error: Error)

  /** The two whitespace-separated fields of a line read with int(); None when there are not two or one raises ValueError. */
  function ReadPair(line: string): Option<(int, int)> {
    var cords := Split(line);
    if |cords| != 2 then None
    else
      match (ParseInt(cords[0], 10), ParseInt(cords[1], 10))
      case (Ok(x), Ok(y)) => Some((x, y))
      case _ => None
  }

  /**
   * The probe board[x][y] (raising IndexError outside -size..size-1) and
   * the test that follows it: both coordinates non-negative and the card
   * face down.
   */
  function Probe(g: Game, x: int, y: int): (v: Verdict)
    requires |g.board| == g.size * g.size
    ensures !(-(g.size as int) <= x < g.size && -(g.size as int) <= y < g.size) ==> v == Raise(IndexError)
    ensures 0 <= x < g.size && 0 <= y < g.size
            ==> v == if g.board[Pos(g.size, x, y)].founded then Retry else Accept(x, y)
    ensures -(g.size as int) <= x < g.size && -(g.size as int) <= y < g.size && (x < 0 || y < 0)
            ==> v == Retry
    ensures v.Accept? ==> v == Accept(x, y) && 0 <= x < g.size && 0 <= y < g.size
  {
    var ix := AxisIndex(g.size, x);
    var iy := AxisIndex(g.size, y);
    if ix.None? || iy.None? then Raise(IndexError)
    else if x >= 0 && y >= 0 && !g.board[Pos(g.size, ix.value, iy.value)].founded then Accept(x, y)
    else Retry
  }

  /**
   * One line of __check_cords as written. Only ValueError is caught, so a
   * coordinate outside the grid lets IndexError escape.
   */
  function JudgeAsWritten(g: Game, line: string): (v: Verdict)
    requires |g.board| == g.size * g.size
  {
    match ReadPair(line)
    case None => Retry
    case Some((x, y)) => Probe(g, x, y)
  }

  /** __check_cords as written: reads lines until one is accepted or an exception escapes. */
  function CheckCordsAsWritten(g: Game, lines: seq<string>): (r: Outcome<Pick>)
    requires |g.board| == g.size * g.size
  {
    if |lines| == 0 then Err(EOFError)
    else
      match JudgeAsWritten(g, lines[0])
      case Accept(x, y) => Ok(Pick(x, y, lines[1..]))
      case Retry => CheckCordsAsWritten(g, lines[1..])
      case Raise(e) => Err(e)
  }

  /**
   * One line of __check_cords as evidently intended: the probe board[x][y]
   * is there to reject bad coordinates, so IndexError asks again like
   * ValueError does.
   */
  function Judge(g: Game, line: string): (v: Verdict)
    requires |g.board| == g.size * g.size
    ensures v.Accept? ==> 0 <= v.x < g.size && 0 <= v.y < g.size && !g.board[Pos(g.size, v.x, v.y)].founded
    ensures !v.Raise?
  {
    match JudgeAsWritten(g, line)
    case Raise(_) => Retry
    case v => v
  }

  /** __check_cords as intended: only a face-down card inside the grid is ever picked. */
  function CheckCords(g: Game, lines: seq<string>): (r: Outcome<Pick>)
    requires |g.board| == g.size * g.size
    ensures r.Ok? ==> 0 <= r.value.x < g.size && 0 <= r.value.y < g.size
    ensures r.Ok? ==> !g.board[Pos(g.size, r.value.x, r.value.y)].founded
    ensures r.Ok? ==> |r.value.rest| < |lines| && r.value.rest == lines[|lines| - |r.value.rest|..]
    ensures r.Err? ==> r.error == EOFError
  {
    if |lines| == 0 then Err(EOFError)
    else
      var v := Judge(g, lines[0]);
      if v.Accept? then Ok(Pick(v.x, v.y, lines[1..]))
      else
        var r := CheckCords(g, lines[1..]);
        if r.Ok? then
          assert lines[1..][|lines| - 1 - |r.value.rest|..] == lines[|lines| - |r.value.rest|..];
          r
        else r
  }

  /** The line "x y" as a player would type it. */
  function CordsLine(x: int, y: int): string {
    Decimal(x) + " " + Decimal(y)
  }

  lemma DecimalHasNoSpace(n: int)
    ensures IsRun(Decimal(n), IsNonSpace)
  {
    var d := Digits(if n < 0 then -n else n, 10);
    assert forall i | 0 <= i < |d| :: IsDigitIn(d[i], 10);
  }

  lemma {:induction false} SplitCords(x: int, y: int)
    ensures Split(CordsLine(x, y)) == [Decimal(x), Decimal(y)]
  {
    DecimalHasNoSpace(x);
    DecimalHasNoSpace(y);
    var ws := [Decimal(x), Decimal(y)];
    assert JoinWords(ws) == CordsLine(x, y) by {
      assert ws[1..] == [Decimal(y)];
    }
    SplitJoinRoundTrip(ws);
  }

  /** The typed line "x y" reads back as the two coordinates. */
  lemma ReadCords(x: int, y: int)
    ensures ReadPair(CordsLine(x, y)) == Some((x, y))
  {
    SplitCords(x, y);
    DecimalRoundTrip(x);
    DecimalRoundTrip(y);
  }

  /** The line naming a face-down card inside the grid is accepted as it stands. */
  lemma JudgeAcceptsValid(g: Game, x: nat, y: nat)
    requires |g.board| == g.size * g.size
    requires x < g.size && y < g.size && !g.board[Pos(g.size, x, y)].founded
    ensures Judge(g, CordsLine(x, y)) == Accept(x, y)
  {
    ReadCords(x, y);
    JudgeReadPair(g, CordsLine(x, y), x, y);
  }

  /** A line that reads as a face-down card inside the grid is accepted. */
  lemma JudgeReadPair(g: Game, line: string, x: nat, y: nat)
    requires |g.board| == g.size * g.size
    requires x < g.size && y < g.size && !g.board[Pos(g.size, x, y)].founded
    requires ReadPair(line) == Some((x, y))
    ensures Judge(g, line) == Accept(x, y)
  {
    assert JudgeAsWritten(g, line) == Probe(g, x, y);
  }

  /** Typing the coordinates of a face-down card inside the grid picks that card. */
  lemma CheckCordsAcceptsValid(g: Game, x: nat, y: nat, rest: seq<string>)
    requires |g.board| == g.size * g.size
    requires x < g.size && y < g.size && !g.board[Pos(g.size, x, y)].founded
    ensures CheckCords(g, [CordsLine(x, y)] + rest) == Ok(Pick(x, y, rest))
  {
    var lines := [CordsLine(x, y)] + rest;
    assert lines[0] == CordsLine(x, y) && lines[1..] == rest;
    JudgeAcceptsValid(g, x, y);
  }

  /** The smallest board, all face down. */
  const Pairs2 := [NewCell(1), NewCell(2), NewCell(1), NewCell(2)]

  /**
   * As written, a row number one past the grid ends the game with IndexError
   * instead of asking again.
   */
  lemma OutOfGridEscapes()
    ensures CheckCordsAsWritten(Game(2, Pairs2, 2), [CordsLine(2, 0), CordsLine(0, 0)]) == Err(IndexError)
  {
    ReadCords(2, 0);
  }

  /** As intended, the same input is refused and the next line is read. */
  lemma OutOfGridAsksAgain()
    ensures CheckCords(Game(2, Pairs2, 2), [CordsLine(2, 0), CordsLine(0, 0)]) == Ok(Pick(0, 0, []))
  {
    var g := Game(2, Pairs2, 2);
    var lines := [CordsLine(2, 0), CordsLine(0, 0)];
    assert Judge(g, CordsLine(2, 0)) == Retry by {
      ReadCords(2, 0);
    }
    assert lines[1..] == [CordsLine(0, 0)] + [];
    CheckCordsAcceptsValid(g, 0, 0, []);
  }

  /** __init_board after __input_size: the shuffled deck laid out, win_case at its start value. */
  function NewGame(choice: SizeChoice, board: seq<Cell>): (g: Game)
    requires AcceptSize(choice.size) == Some(choice.winCase)
    requires IsDeal(board, choice.winCase)
    ensures Inv(g) && g.winCase == choice.winCase
    ensures forall i | 0 <= i < |g.board| :: !g.board[i].founded
  {
    DealIsInitial(choice.size, board);
    DealContents(board, choice.winCase);
    Game(choice.size, board, choice.winCase)
  }

  /** board[x][y].founded = f. */
  function Flip(g: Game, x: nat, y: nat, f: bool): (h: Game)
    requires |g.board| == g.size * g.size && x < g.size && y < g.size
    ensures h.size == g.size && h.winCase == g.winCase && |h.board| == |g.board|
  {
    var p := Pos(g.size, x, y);
    g.(board := g.board[p := g.board[p].(founded := f)])
  }

  /** Turning a face-down card up adds one to the face-up count and keeps the deal. */
  lemma FlipUp(g: Game, x: nat, y: nat)
    requires |g.board| == g.size * g.size && x < g.size && y < g.size
    requires !g.board[Pos(g.size, x, y)].founded
    ensures FoundedCount(Flip(g, x, y, true).board) == FoundedCount(g.board) + 1
    ensures FaceDown(Flip(g, x, y, true).board) == FaceDown(g.board)
  {
    var p := Pos(g.size, x, y);
    FoundedCountUpdate(g.board, p, g.board[p].(founded := true));
    FlipKeepsDeal(g.board, p, true);
  }

  /** A card still face down after another was turned up is another card, and was face down before. */
  lemma FlipLeavesOthers(g: Game, x1: nat, y1: nat, x2: nat, y2: nat)
    requires |g.board| == g.size * g.size
    requires x1 < g.size && y1 < g.size && x2 < g.size && y2 < g.size
    requires !Flip(g, x1, y1, true).board[Pos(g.size, x2, y2)].founded
    ensures Pos(g.size, x1, y1) != Pos(g.size, x2, y2)
    ensures !g.board[Pos(g.size, x2, y2)].founded
  {
  }

  /** A suffix of a suffix of lines is a suffix of lines. */
  lemma SuffixOfSuffix(lines: seq<string>, mid: seq<string>, rest: seq<string>)
    requires |mid| <= |lines| && mid == lines[|lines| - |mid|..]
    requires |rest| <= |mid| && rest == mid[|mid| - |rest|..]
    ensures rest == lines[|lines| - |rest|..]
  {
  }

  /** What one pass of the game loop leaves: the game, the unread lines, and whether the two cards matched. */
  datatype Turn = Turn(game: Game, rest: seq<string>, matched: bool)

  /**
   * The two picks turned face up, then __reveal_and_check_match: equal
   * cards stay up and win_case loses one; otherwise both are turned down
   * again, which puts the board back as it was before the round.
   */
  function Reveal(g: Game, x1: nat, y1: nat, x2: nat, y2: nat): (r: (Game, bool))
    requires Inv(g)
    requires x1 < g.size && y1 < g.size && x2 < g.size && y2 < g.size
    requires Pos(g.size, x1, y1) != Pos(g.size, x2, y2)
    requires !g.board[Pos(g.size, x1, y1)].founded && !g.board[Pos(g.size, x2, y2)].founded
    ensures Inv(r.0) && r.0.size == g.size
    ensures r.1 <==> g.board[Pos(g.size, x1, y1)].value == g.board[Pos(g.size, x2, y2)].value
    ensures r.1 ==> r.0.winCase == g.winCase - 1
    ensures r.1 ==> r.0.board[Pos(g.size, x1, y1)].founded && r.0.board[Pos(g.size, x2, y2)].founded
    ensures !r.1 ==> r.0 == g
  {
    var g1 := Flip(g, x1, y1, true);
    FlipUp(g, x1, y1);
    var g2 := Flip(g1, x2, y2, true);
    FlipUp(g1, x2, y2);
    var i := Pos(g.size, x1, y1);
    var j := Pos(g.size, x2, y2);
    if Equals(g2.board[i], Instance(g2.board[j])) == Ok(true) then
      (g2.(winCase := g2.winCase - 1), true)
    else
      var g3 := Flip(Flip(g2, x1, y1, false), x2, y2, false);
      assert g3.board == g.board;
      (g3, false)
  }

  /**
   * One pass of the loop in run(), with the intended CheckCords: the first
   * pick is turned face up before the second is asked for, so the second
   * pick is another card; then the two are revealed.
   */
  function PlayRound(g: Game, lines: seq<string>): (r: Outcome<Turn>)
    requires Inv(g)
    ensures r.Err? ==> r.error == EOFError
    ensures r.Ok? ==> Inv(r.value.game) && r.value.game.size == g.size
    ensures r.Ok? ==> |r.value.rest| + 2 <= |lines| && r.value.rest == lines[|lines| - |r.value.rest|..]
    ensures r.Ok? && r.value.matched ==> r.value.game.winCase == g.winCase - 1
    ensures r.Ok? && !r.value.matched ==> r.value.game == g
  {
    var p1 :- CheckCords(g, lines);
    var g1 := Flip(g, p1.x, p1.y, true);
    var p2 :- CheckCords(g1, p1.rest);
    FlipLeavesOthers(g, p1.x, p1.y, p2.x, p2.y);
    SuffixOfSuffix(lines, p1.rest, p2.rest);
    var (h, matched) := Reveal(g, p1.x, p1.y, p2.x, p2.y);
    Ok(Turn(h, p2.rest, matched))
  }

  /**
   * run() after the board is dealt, with the intended CheckCords: rounds are
   * played until win_case is 0, and the only way out is running out of input.
   * A finished game has every card face up.
   */
  function Play(g: Game, lines: seq<string>): (r: Outcome<Game>)
    requires Inv(g)
    ensures r.Ok? ==> Inv(r.value) && r.value.winCase == 0 && r.value.size == g.size
    ensures r.Ok? ==> forall i | 0 <= i < |r.value.board| :: r.value.board[i].founded
    ensures r.Err? ==> r.error == EOFError
    decreases |lines|
  {
    if g.winCase == 0 then
      WinMeansAllFounded(g.size, g.board, g.winCase);
      Ok(g)
    else
      var t :- PlayRound(g, lines);
      Play(t.game, t.rest)
  }
}
