/** Where the rows of a grid start when its cells are numbered row by row. */
module Offsets {

  function Start(i: nat, cols: nat): nat {
    if i == 0 then 0 else Start(i - 1, cols) + cols
  }

  lemma Product(d: int, c: nat)
    ensures d >= 1 ==> d * c >= c
    ensures d <= -1 ==> d * c + c <= 0
  {
    if d >= 1 {
      assert (d - 1) * c >= 0;
    } else if d <= -1 {
      assert (d + 1) * c <= 0;
    }
  }

  lemma {:induction false} StartIsProduct(i: nat, c: nat)
    ensures Start(i, c) == i * c
  {
    if i > 0 {
      StartIsProduct(i - 1, c);
    }
  }

  lemma Position(n: nat, c: nat)
    requires c > 0
    ensures n == Start(n / c, c) + n % c && n % c < c
  {
    StartIsProduct(n / c, c);
  }

  lemma DivMod(x: nat, c: nat, q: nat, r: nat)
    requires r < c && x == Start(q, c) + r
    ensures x / c == q && x % c == r
  {
    StartIsProduct(q, c);
    var d := x / c - q;
    assert x == (x / c) * c + x % c;
    assert d * c == (x / c) * c - q * c == r - x % c;
    Product(d, c);
  }

  lemma {:induction false} LineStart(i: nat, j: nat, c: nat)
    requires i < j
    ensures Start(i, c) + c <= Start(j, c)
  {
    if i + 1 < j {
      LineStart(i, j - 1, c);
    }
  }
}
