/** Facts about products and quotients that the solver needs spelled out. */
module Arithmetic {
  lemma MulMono(d: nat, a: nat, b: nat)
    requires a <= b
    ensures d * a <= d * b
  {}

  lemma DivUnique(x: nat, d: nat, q: nat, r: nat)
    requires r < d && x == d * q + r
    ensures x / d == q && x % d == r
  {
    var q', r' := x / d, x % d;
    assert x == d * q' + r';
    if q' >= q + 1 { MulMono(d, q + 1, q'); }
    if q >= q' + 1 { MulMono(d, q' + 1, q); }
  }

  lemma DivBounds(x: nat, d: nat, q: nat)
    requires d > 0
    ensures q <= x / d <==> q * d <= x
  {
    assert x == d * (x / d) + x % d;
    if q <= x / d { MulMono(d, q, x / d); } else { MulMono(d, x / d + 1, q); }
  }

  lemma PairBelow(g: nat, k: nat, tiles: nat, groups: nat)
    requires g < groups && k < tiles
    ensures g * tiles + k < groups * tiles
  {
    MulMono(tiles, g + 1, groups);
    assert tiles * (g + 1) == g * tiles + tiles && tiles * groups == groups * tiles;
  }
}
