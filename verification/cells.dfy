/**
 * One card of the memory game (Game-Development-System/Memory-Game/cell.py):
 * a value and whether the card is face up ("founded"). Cards compare by
 * value only.
 */
module Cells {
  import opened Wrappers
  import opened Python
  import opened Numerals

  datatype Cell = Cell(value: int, founded: bool)

  /** Cell(value): a new card starts face down. */
  function NewCell(value: int): (c: Cell)
    ensures c.value == value && !c.founded
  {
    Cell(value, false)
  }

  /**
   * The founded setter: only a bool is accepted (isinstance(v, bool), so an
   * int such as 1 is refused); anything else raises TypeError and the card
   * keeps its previous state.
   */
  function SetFounded(c: Cell, v: Value): (r: Outcome<Cell>)
    ensures r.Ok? <==> v.BoolValue?
    ensures r.Ok? ==> r.value.value == c.value && r.value.founded == v.b
    ensures r.Err? ==> r.error == TypeError
  {
    if v.BoolValue? then Ok(c.(founded := v.b)) else Err(TypeError)
  }

  /** Cell.__eq__: TypeError against anything but a Cell, otherwise the values decide. */
  function Equals(c: Cell, other: Arg<Cell>): (r: Outcome<bool>)
    ensures other.NotInstance? ==> r == Err(TypeError)
    ensures other.Instance? ==> r.Ok? && (r.value <==> c.value == other.obj.value)
  {
    match other
    case NotInstance => Err(TypeError)
    case Instance(d) => Ok(c.value == d.value)
  }

  /** Equality of cards is an equivalence relation, and whether a card is face up plays no part in it. */
  lemma EqualsIsEquivalence(a: Cell, b: Cell, c: Cell, f: bool, g: bool)
    ensures Equals(a, Instance(a)) == Ok(true)
    ensures Equals(a, Instance(b)) == Equals(b, Instance(a))
    ensures Equals(a, Instance(b)) == Ok(true) && Equals(b, Instance(c)) == Ok(true)
            ==> Equals(a, Instance(c)) == Ok(true)
    ensures Equals(a.(founded := f), Instance(b.(founded := g))) == Equals(a, Instance(b))
  {
  }

  /** str(cell) and repr(cell): the value written in decimal, which reads back as the value. */
  function Str(c: Cell): (s: string)
    ensures ParseInt(s, 10) == Ok(c.value)
  {
    DecimalRoundTrip(c.value);
    Decimal(c.value)
  }

  /** Two cards print alike exactly when they are equal. */
  lemma StrMatchesEquals(a: Cell, b: Cell)
    ensures Str(a) == Str(b) <==> Equals(a, Instance(b)) == Ok(true)
  {
  }
}
