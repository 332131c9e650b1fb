/** Integer helpers shared by the limiter and the copier. */
module Numbers {

  /** `Math.Min` on integers. */
  function Min(a: int, b: int): int { if a <= b then a else b }
}
