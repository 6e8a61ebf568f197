/** Facts about products and remainders that the layout and the hash table need. */
module Division {
  lemma Times(a: nat, b: nat, c: nat)
    requires a <= b
    ensures a * c <= b * c
  {
  }

  /** Quotient and remainder are determined by their equation. */
  lemma DivModUnique(x: nat, q: nat, d: nat, r: nat)
    requires x == q * d + r && r < d
    ensures x / d == q && x % d == r
  {
    var a := x / d;
    assert x == a * d + x % d;
    if a < q {
      Times(a + 1, q, d);
    } else if a > q {
      Times(q + 1, a, d);
    }
  }
}
