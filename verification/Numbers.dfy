/** Integer arithmetic as Go has it. */
module Numbers {

  function Min(a: int, b: int): int { if a < b then a else b }

  /** Go's integer division, which truncates toward zero. */
  function Quotient(a: int, b: int): int
    requires b > 0
  {
    if a >= 0 then a / b else -(-a / b)
  }

  lemma MultiplesGrow(a: int, b: int, w: nat)
    ensures a <= b ==> a * w <= b * w
    ensures (a + 1) * w == a * w + w
  {
    if a <= b { assert (b - a) * w >= 0 && b * w == a * w + (b - a) * w; }
  }
}
