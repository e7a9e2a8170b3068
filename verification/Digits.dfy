/** Decimal digits as characters. */
module Digits {
  function Digit(d: int): (c: char)
    requires 0 <= d < 10
    ensures c as int == 48 + d
  {
    "0123456789"[d]
  }
}
