/** Real arithmetic shared by the modules. */
module Reals {

  function Max(x: real, y: real): real { if x < y then y else x }

  function Min(x: real, y: real): real { if x < y then x else y }

  lemma DivideBack(x: real, y: real)
    requires y != 0.0
    ensures y * (x / y) == x && (x / y) * y == x
  {
  }

  lemma NegateBoth(x: real, y: real)
    requires y != 0.0
    ensures (-x) / (-y) == x / y
  {
    DivideBack(x, y);
    assert -x == (x / y) * (-y);
  }
}
