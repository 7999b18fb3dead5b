/** The 64-bit integers of the program's platform: sums wrap around, silently. */
module Machine {

  const MAX: int := 0x7FFF_FFFF_FFFF_FFFF
  const MIN: int := -0x8000_0000_0000_0000
  const RANGE: int := 0x1_0000_0000_0000_0000

  type Int64 = n: int | MIN <= n <= MAX

  function Wrap(n: int): (w: Int64)
    ensures MIN <= n <= MAX ==> w == n
    decreases if n > MAX then n - MAX else if n < MIN then MIN - n else 0
  {
    if n > MAX then Wrap(n - RANGE) else if n < MIN then Wrap(n + RANGE) else n
  }

  function Min(a: int, b: int): int {
    if a <= b then a else b
  }

  /** One turn of the circle changes nothing. */
  lemma {:induction false} WrapTurns(n: int)
    ensures Wrap(n + RANGE) == Wrap(n)
    decreases if n >= MIN then 0 else MIN - n
  {
    if n < MIN {
      WrapTurns(n + RANGE);
    }
  }

  /** Wrapping after every addition is wrapping the exact sum once. */
  lemma {:induction false} WrapAdds(a: int, b: int)
    ensures Wrap(Wrap(a) + b) == Wrap(a + b)
    decreases if a > MAX then a - MAX else if a < MIN then MIN - a else 0
  {
    if a > MAX {
      WrapAdds(a - RANGE, b);
      WrapTurns(a - RANGE + b);
    } else if a < MIN {
      WrapAdds(a + RANGE, b);
      WrapTurns(a + b);
    }
  }

  /** A sum of nonnegative terms never wraps to more than itself. */
  lemma {:induction false} WrapNeverRaises(n: nat)
    ensures Wrap(n) <= Min(n, MAX)
  {
    if n > MAX && n - RANGE >= 0 {
      WrapNeverRaises(n - RANGE);
    }
  }
}
