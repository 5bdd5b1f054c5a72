/**
 * The nine heavy metals the system knows about, and the numeric values the
 * JavaScript and Python sources compute with.
 */
module Metals {

  /** The closed set of metal symbols: a name outside the limit tables cannot occur. */
  datatype Metal = CD | CR | PB | FE | MN | CO | NI | ZN | CU

  /** A floating-point number as far as the model needs it: a real or NaN. */
  datatype Num = Finite(value: real) | NaN
}
