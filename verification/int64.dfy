/** Arithmetic of 64-bit integers: it wraps around. */
module Int64 {
  const M64 := 0x1_0000_0000_0000_0000

  const MAX64 := 0x7FFF_FFFF_FFFF_FFFF

  predicate Fits(x: int) {
    -0x8000_0000_0000_0000 <= x <= MAX64
  }

  /** Two's-complement wrap-around of time.Duration. */
  function Wrap(x: int): int {
    (x + 0x8000_0000_0000_0000) % M64 - 0x8000_0000_0000_0000
  }

  ghost predicate Congruent(x: int, y: int) {
    (x - y) % M64 == 0
  }

  lemma WrapLaws(x: int, y: int)
    ensures Congruent(Wrap(x), x)
    ensures Congruent(x, y) ==> Wrap(x) == Wrap(y)
    ensures Fits(x) <==> Wrap(x) == x
  {
    if Congruent(x, y) {
      SameRemainder(x + 0x8000_0000_0000_0000, y + 0x8000_0000_0000_0000, (x - y) / M64);
    }
  }

  lemma SameRemainder(a: int, b: int, q: int)
    requires a == b + q * 0x1_0000_0000_0000_0000
    ensures a % M64 == b % M64
  {
  }

  lemma CongruentTimes(x: int, y: int, k: int)
    requires Congruent(x, y)
    ensures Congruent(x * k, y * k)
  {
    var q := (x - y) / M64;
    assert x * k - y * k == (q * k) * M64;
    MultipleIsZero(q * k);
  }

  lemma MultipleIsZero(n: int)
    ensures n * M64 % M64 == 0
  {
  }

  lemma WrapOfSum(a: int, b: int)
    ensures Wrap(Wrap(a) + Wrap(b)) == Wrap(a + b)
  {
    WrapLaws(a, 0);
    WrapLaws(b, 0);
    CongruentPlus(Wrap(a), a, Wrap(b), b);
    WrapLaws(Wrap(a) + Wrap(b), a + b);
  }

  lemma CongruentPlus(x: int, y: int, u: int, v: int)
    requires Congruent(x, y) && Congruent(u, v)
    ensures Congruent(x + u, y + v)
  {
  }

  lemma WrapOfProduct(a: int, k: int)
    ensures Wrap(Wrap(a) * k) == Wrap(a * k)
  {
    WrapLaws(a, 0);
    CongruentTimes(Wrap(a), a, k);
    WrapLaws(Wrap(a) * k, a * k);
  }

  lemma WrapExact(n: int)
    ensures Wrap(n) == n <==> Fits(n)
  {
    WrapLaws(n, 0);
  }
}
