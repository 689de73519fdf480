/** Integer facts several modules need. */
module Arithmetic {
  function Abs(x: int): nat { if x >= 0 then x else -x }

  /** The value in lo .. hi nearest to v. */
  function Clip(v: int, lo: int, hi: int): int
  {
    if v > hi then hi else if v < lo then lo else v
  }

  lemma MulMono(a: int, b: int, s: int)
    requires a <= b && s >= 0
    ensures a * s <= b * s
  {
  }

  /** Quotient and remainder are unique. */
  lemma DivisionUnique(v: int, a: nat, q: int, r: int)
    requires a > 0 && v == a * q + r && 0 <= r < a
    ensures v / a == q && v % a == r
  {
    var d := v / a - q;
    assert a * d == r - v % a;
    if d >= 1 { MulMono(1, d, a); } else if d <= -1 { MulMono(d, -1, a); }
  }

  lemma DivMod(a: nat, b: nat)
    requires b > 0
    ensures a / b * b + a % b == a
  {
  }

  /** Quotient and remainder of the next number. */
  lemma DivNext(a: nat, n: nat)
    requires n > 0
    ensures if a % n < n - 1 then (a + 1) / n == a / n && (a + 1) % n == a % n + 1
      else (a + 1) / n == a / n + 1 && (a + 1) % n == 0
  {
    DivMod(a, n);
    DivNextFrom(n, a, a / n, a % n);
  }

  lemma DivNextFrom(n: nat, a: nat, q: nat, s: nat)
    requires n > 0 && a == q * n + s && s < n
    ensures s < n - 1 ==> (a + 1) / n == q && (a + 1) % n == s + 1
    ensures s == n - 1 ==> (a + 1) / n == q + 1 && (a + 1) % n == 0
  {
    if s < n - 1 {
      DivisionUnique(a + 1, n, q, s + 1);
    } else {
      DivisionUnique(a + 1, n, q + 1, 0);
    }
  }
}
