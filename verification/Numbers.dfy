/** JavaScript numbers as callers pass them in options: a finite value, or NaN, an infinity or nothing. */
module Numbers {
  datatype Number = Finite(value: real) | NotFinite

  /** `Math.ceil(n / 4)` */
  function CeilQuarter(n: nat): nat { (n + 3) / 4 }
}
