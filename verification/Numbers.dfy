/** Small arithmetic used by several modules. */
module Numbers {
  function Min(a: nat, b: nat): nat { if a < b then a else b }

  function Max(a: nat, b: nat): nat { if a < b then b else a }

  lemma ProductGrows(a: nat, b: nat, c: nat)
    requires a <= b
    ensures a * c <= b * c
  {
  }

  /** The next multiple of a number is at least that number further. */
  lemma NextMultiple(x: nat, y: nat, n: nat)
    requires x < y
    ensures x * n + n <= y * n
  {
    ProductGrows(x + 1, y, n);
    assert (x + 1) * n == x * n + n;
  }

  lemma ProductOfDifference(x: nat, y: nat, n: nat)
    requires y <= x
    ensures (x - y) * n == x * n - y * n
  {
  }

  lemma DoubledProduct(x: nat, n: nat)
    ensures 2 * x * n == 2 * (x * n)
  {
  }

  lemma HalfOfDouble(x: nat)
    ensures (2 * x) % 2 == 0 && (2 * x) / 2 == x
  {
  }
}
