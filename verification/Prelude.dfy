/** Small datatypes and facts shared by every module. */
module Prelude {

  /** A nullable database column, or a JavaScript value that may be `undefined`. */
  datatype Option<+T> = None | Some(value: T)

  /** A call that either returns or throws. */
  datatype Result<+T, +E> = Ok(value: T) | Err(error: E)

  datatype Broker = Kis | Toss

  datatype Market = Domestic | Overseas

  datatype Side = Buy | Sell

  function Max(a: int, b: int): int {
    if a < b then b else a
  }

  function Min(a: int, b: int): int {
    if b < a then b else a
  }

  function Abs(a: int): nat {
    if a < 0 then -a else a
  }

  function MaxReal(a: real, b: real): real {
    if a < b then b else a
  }

  function AbsReal(a: real): real {
    if a < 0.0 then -a else a
  }

  lemma TimesPositive(q: real, y: real)
    requires y > 0.0
    ensures q > 1.0 ==> q * y > y
    ensures q < 0.0 ==> q * y < 0.0
  {
  }
}
