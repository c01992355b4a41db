// Values that may be absent, and floating-point results that may be undefined.

module Options {

  datatype Option<+T> = None | Some(value: T)
}

module Floats {

  /** A floating-point result: an exact value, or infinity or not-a-number after a division by zero. */
  datatype Number = Finite(value: real) | NotFinite

  function Div(a: Number, b: Number): Number {
    if a.Finite? && b.Finite? && b.value != 0.0 then Finite(a.value / b.value) else NotFinite
  }

  function Mul(a: Number, b: Number): Number {
    if a.Finite? && b.Finite? then Finite(a.value * b.value) else NotFinite
  }

  function Plus(a: Number, b: Number): Number {
    if a.Finite? && b.Finite? then Finite(a.value + b.value) else NotFinite
  }
}
