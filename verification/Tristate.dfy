// The three-valued logic n < m < y of expr.h.
module Tristate {

  type Tri = t: int | 0 <= t <= 2

  const NO: Tri := 0
  const MOD: Tri := 1
  const YES: Tri := 2

  function Min(a: Tri, b: Tri): Tri {
    if a < b then a else b
  }

  function Max(a: Tri, b: Tri): Tri {
    if a > b then a else b
  }

  function Negate(a: Tri): Tri {
    2 - a
  }

  function FromBool(b: bool): Tri {
    if b then YES else NO
  }

  // The one-letter spelling of a value.
  function Letter(t: Tri): string {
    if t == NO then "n" else if t == MOD then "m" else "y"
  }

  datatype Option<+T> = None | Some(value: T)
}
