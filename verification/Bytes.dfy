/** Types shared by the models: C's unsigned char, and C's integer division. */
module Bytes {
  type Byte = x: int | 0 <= x < 256

  datatype Option<T> = None | Some(value: T)

  function Zeros(n: nat): (r: seq<Byte>)
    ensures |r| == n
  {
    seq(n, _ => 0)
  }

  /** C's "/" on signed operands: the quotient is truncated toward zero. */
  function CDiv(a: int, b: int): (q: int)
    requires b > 0
  {
    if a >= 0 then a / b else -((-a) / b)
  }
}
