/** Types shared by every component. */
module Wrappers {

  type Byte = x: int | 0 <= x < 256

  const U32_MAX: nat := 0xFFFF_FFFF
  const USIZE_MAX: nat := 0xFFFF_FFFF_FFFF_FFFF

  datatype Option<+T> = None | Some(value: T) {
    function GetOr(default: T): T {
      match this
      case Some(v) => v
      case None => default
    }

    /** Keeps the value there is, or takes the other. */
    function Else(other: Option<T>): Option<T> {
      if Some? then this else other
    }
  }

  datatype Result<+R, +E> = Ok(value: R) | Err(error: E) {
    predicate IsFailure() { Err? }

    function PropagateFailure<U>(): Result<U, E>
      requires Err?
    {
      Err(error)
    }

    function Extract(): R
      requires Ok?
    {
      value
    }
  }

  /** What is done before what comes after it, or the error met there. */
  function Extended<T, E>(done: seq<T>, rest: Result<seq<T>, E>): Result<seq<T>, E> {
    match rest
    case Ok(more) => Ok(done + more)
    case Err(e) => Err(e)
  }

  lemma ExtendedMore<T, E>(done: seq<T>, item: T, rest: Result<seq<T>, E>)
    ensures Extended(done, Extended([item], rest)) == Extended(done + [item], rest)
    ensures Extended([], rest) == rest
  {
    if rest.Ok? {
      assert done + ([item] + rest.value) == done + [item] + rest.value;
      assert [] + rest.value == rest.value;
    }
  }

  lemma ExtendedNone<T, E>(done: seq<T>)
    ensures Extended<T, E>(done, Ok([])) == Ok(done)
  {
    assert done + [] == done;
  }
}
