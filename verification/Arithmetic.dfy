/** Small arithmetic shared by the models. */
module Arithmetic {

  function Min(x: real, y: real): real {
    if x <= y then x else y
  }

  function Max(x: real, y: real): real {
    if x >= y then x else y
  }

  function Abs(x: real): real {
    if x >= 0.0 then x else -x
  }

  lemma AtLeastOnce(n: int, size: nat)
    requires n >= 1
    ensures n * size >= size
  {
  }
}
