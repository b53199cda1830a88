/**
 * The few pieces of the Python object model the modelled code leans on:
 * the exception classes it raises, values whose type is checked at run
 * time with isinstance, and arguments that may or may not be an instance
 * of the expected class.
 */
module Python {
  import opened Wrappers

  /** The exception classes raised (or let through) by the modelled code. */
  datatype Error =
    | TypeError
    | ValueError
    | AttributeError
    | IndexError
    | FileNotFoundError
    | OSError
    | EOFError
    | AssertionError
    | Exception

  /** The outcome of a call that either returns a value or raises. */
  type Outcome<T> = Result<T, Error>

  /** A dynamically typed argument handed to a validating setter. */
  datatype Value =
    | NoneValue
    | BoolValue(b: bool)
    | IntValue(i: int)
    | FloatValue(r: real)
    | StrValue(s: string)
    | OtherValue

  /** isinstance(v, int): bool is a subclass of int, so True and False pass. */
  predicate IsInt(v: Value) {
    v.BoolValue? || v.IntValue?
  }

  /** The integer a value passing isinstance(v, int) stands for. */
  function AsInt(v: Value): int
    requires IsInt(v)
  {
    match v
    case BoolValue(b) => if b then 1 else 0
    case IntValue(i) => i
  }

  /** isinstance(v, (float, int)). */
  predicate IsNumber(v: Value) {
    IsInt(v) || v.FloatValue?
  }

  /** float(v) for a value passing isinstance(v, (float, int)). */
  function AsReal(v: Value): real
    requires IsNumber(v)
  {
    if v.FloatValue? then v.r else AsInt(v) as real
  }

  /** An argument that is either an instance of the expected class or some other object. */
  datatype Arg<T> = Instance(obj: T) | NotInstance
}
