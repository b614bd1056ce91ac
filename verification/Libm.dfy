/** The device math functions, left uninterpreted. Whatever a result needs of
    them appears as a hypothesis of that result. */
module Libm {

  datatype Libm = Libm(
    exp: real -> real,
    tanh: real -> real,
    sqrt: real -> real,
    cos: real -> real,
    sin: real -> real,
    div: (real, real) -> real)
}
