/** Unsigned machine words as naturals, with the bit operations the program uses. */
module Bits {

  /** `1 << k` */
  function Bit(k: nat): (p: nat)
    ensures p > 0
  {
    if k == 0 then 1 else 2 * Bit(k - 1)
  }

  /** `b & (1 << k) != 0` */
  predicate TestBit(b: nat, k: nat) {
    if k == 0 then b % 2 == 1 else TestBit(b / 2, k - 1)
  }

  /** `b | (1 << k)`: the bit is added only where it is not there yet. */
  function SetBit(b: nat, k: nat): nat {
    if TestBit(b, k) then b else b + Bit(k)
  }

  /** `bits` with its low `n` bits set. */
  function SetLow(bits: nat, n: nat): nat {
    if n == 0 then bits else SetBit(SetLow(bits, n - 1), n - 1)
  }

  /** Setting one of the low `n` bits of an `n`-bit number keeps it an `n`-bit number. */
  lemma {:induction false} SetBitRange(b: nat, k: nat, n: nat)
    requires k < n && b < Bit(n)
    ensures SetBit(b, k) < Bit(n)
  {
    var half, top := b / 2, Bit(n - 1);
    assert Bit(n) == 2 * top && half < top;
    if k > 0 {
      SetBitRange(half, k - 1, n - 1);
      assert SetBit(b, k) == 2 * SetBit(half, k - 1) + b % 2;
    } else {
      assert SetBit(b, k) == 2 * half + 1;
    }
  }

  lemma {:induction false} SetBitTests(b: nat, k: nat, j: nat)
    ensures TestBit(SetBit(b, k), j) == (j == k || TestBit(b, j))
  {
    if k > 0 && j > 0 {
      SetBitTests(b / 2, k - 1, j - 1);
    }
  }

  lemma {:induction false} ZeroHasNoBits(j: nat)
    ensures !TestBit(0, j)
  {
    if j > 0 {
      ZeroHasNoBits(j - 1);
    }
  }

  lemma {:induction false} SetLowTests(bits: nat, n: nat, j: nat)
    ensures TestBit(SetLow(bits, n), j) == (j < n || TestBit(bits, j))
  {
    if n > 0 {
      SetLowTests(bits, n - 1, j);
      SetBitTests(SetLow(bits, n - 1), n - 1, j);
    }
  }

  /** `x & y`, digit by digit. */
  function And(x: nat, y: nat): nat {
    if x == 0 then 0 else (if x % 2 == 1 && y % 2 == 1 then 1 else 0) + 2 * And(x / 2, y / 2)
  }

  function TrailingZeros(x: nat): nat
    requires x > 0
  {
    if x % 2 == 1 then 0 else 1 + TrailingZeros(x / 2)
  }

  lemma {:induction false} AndSelf(x: nat)
    ensures And(x, x) == x
  {
    if x > 0 {
      AndSelf(x / 2);
    }
  }

  /** `x & (x - 1)` drops the lowest set bit and no other. */
  lemma {:induction false} DropLowest(x: nat)
    requires x > 0
    ensures And(x, x - 1) == x - Bit(TrailingZeros(x)) && Bit(TrailingZeros(x)) <= x
  {
    if x % 2 == 1 {
      AndSelf(x / 2);
    } else {
      DropLowest(x / 2);
      assert (x - 1) / 2 == x / 2 - 1;
    }
  }

  lemma {:induction false} LowestSetBit(x: nat, j: nat)
    requires x > 0
    ensures TestBit(x, TrailingZeros(x))
    ensures j < TrailingZeros(x) ==> !TestBit(x, j)
    ensures TestBit(And(x, x - 1), j) == (j != TrailingZeros(x) && TestBit(x, j))
    decreases x, j
  {
    DropLowest(x);
    if x % 2 == 1 {
      AndSelf(x / 2);
      assert j > 0 ==> And(x, x - 1) / 2 == x / 2;
    } else {
      assert (x - 1) / 2 == x / 2 - 1;
      LowestSetBit(x / 2, if j > 0 then j - 1 else 0);
    }
  }
}
