/** The parts of Python's integer and string semantics that the modelled code relies on. */
module PyBuiltins {

  /** `range(n)` runs max(n, 0) times; `c * n` for a string `c` repeats it max(n, 0) times. */
  function Count(n: int): (c: nat)
    ensures n >= 0 ==> c == n
    ensures n < 0 ==> c == 0
  {
    if n > 0 then n else 0
  }

  /** `int(n / 2)`: true division followed by truncation toward zero (exact while |n| < 2^53). */
  function TruncHalf(n: int): (h: int)
    ensures n >= 0 ==> 0 <= 2 * h <= n < 2 * h + 2
    ensures n < 0 ==> 2 * h - 2 < n <= 2 * h <= 0
  {
    if n >= 0 then n / 2 else -((-n) / 2)
  }

  /** `c * m` for a one-character string `c`. */
  function Repeat(c: char, m: int): (s: string)
    ensures |s| == Count(m)
    ensures forall i :: 0 <= i < |s| ==> s[i] == c
  {
    seq(Count(m), _ => c)
  }
}
