/** Small datatypes shared by the other modules. */
module Prelude {

  datatype Option<+T> = None | Some(value: T)

  /** A float64 without rounding: a real number, an infinity or not a number. */
  datatype Float = NaN | PosInf | NegInf | Fin(x: real)

  newtype byte = x: int | 0 <= x < 256
}
