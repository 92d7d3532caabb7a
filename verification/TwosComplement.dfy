/**
 C's bitwise operators on signed integers, read as infinite two's complement:
 every integer is 0 or -1 after enough arithmetic right shifts.
 */
module TwosComplement {

  newtype int64 = x: int | -0x8000_0000_0000_0000 <= x < 0x8000_0000_0000_0000

  newtype uint8 = x: int | 0 <= x < 256

  function Abs(x: int): nat {
    if x < 0 then -x else x
  }

  predicate AllSign(x: int) {
    x == 0 || x == -1
  }

  function BitDiffers(x: int, y: int): int {
    if x % 2 == y % 2 then 0 else 1
  }

  function Xor(x: int, y: int): int
    decreases Abs(x) + Abs(y)
  {
    if AllSign(x) && AllSign(y) then (if x == y then 0 else -1)
    else BitDiffers(x, y) + 2 * Xor(x / 2, y / 2)
  }

  function BothOdd(x: int, y: int): int {
    if x % 2 == 1 && y % 2 == 1 then 1 else 0
  }

  function And(x: int, y: int): int
    decreases Abs(x) + Abs(y)
  {
    if AllSign(x) && AllSign(y) then (if x == y then x else 0)
    else BothOdd(x, y) + 2 * And(x / 2, y / 2)
  }

  function Not(x: int): int {
    -x - 1
  }

  lemma {:induction false} XorZero(x: int)
    ensures Xor(x, 0) == x
    decreases Abs(x)
  {
    if !AllSign(x) { XorZero(x / 2); }
  }

  lemma {:induction false} XorUnfold(x: int, y: int)
    ensures Xor(x, y) == BitDiffers(x, y) + 2 * Xor(x / 2, y / 2)
  {
  }

  lemma {:induction false} XorCommutes(x: int, y: int)
    ensures Xor(x, y) == Xor(y, x)
    decreases Abs(x) + Abs(y)
  {
    if !(AllSign(x) && AllSign(y)) { XorCommutes(x / 2, y / 2); }
  }

  lemma {:induction false} XorCancels(x: int, y: int)
    ensures Xor(x, Xor(x, y)) == y
    decreases Abs(x) + Abs(y)
  {
    var z := Xor(x, y);
    if !(AllSign(x) && AllSign(y)) {
      XorCancels(x / 2, y / 2);
      HalvesOfXor(x, y);
      XorUnfold(x, z);
      assert Xor(x / 2, z / 2) == y / 2;
    }
  }

  lemma {:induction false} HalvesOfXor(x: int, y: int)
    ensures Xor(x, y) / 2 == Xor(x / 2, y / 2)
    ensures Xor(x, y) % 2 == BitDiffers(x, y)
  {
    XorUnfold(x, y);
  }

  lemma {:induction false} AndMask(c: int, z: int)
    requires AllSign(c)
    ensures And(c, z) == if c == 0 then 0 else z
    decreases Abs(z)
  {
    if !AllSign(z) { AndMask(c, z / 2); }
  }

  function Or(x: int, y: int): int {
    Not(And(Not(x), Not(y)))
  }

  function Pow2(n: nat): (p: int)
    ensures p > 0
  {
    if n == 0 then 1 else 2 * Pow2(n - 1)
  }

  lemma {:induction false} AndUnfold(x: int, y: int)
    ensures And(x, y) == BothOdd(x, y) + 2 * And(x / 2, y / 2)
  {
  }

  lemma {:induction false} HalvesOfAnd(x: int, y: int)
    ensures And(x, y) / 2 == And(x / 2, y / 2)
    ensures And(x, y) % 2 == BothOdd(x, y)
  {
    AndUnfold(x, y);
  }

  /** A conjunction is negative exactly when both operands are. */
  lemma {:induction false} AndSign(x: int, y: int)
    ensures And(x, y) < 0 <==> x < 0 && y < 0
    decreases Abs(x) + Abs(y)
  {
    if !(AllSign(x) && AllSign(y)) {
      AndSign(x / 2, y / 2);
      HalvesOfAnd(x, y);
    }
  }

  /** Operands of k bits and a sign give a result of k bits and a sign. */
  lemma {:induction false} AndRange(x: int, y: int, k: nat)
    requires -Pow2(k) <= x < Pow2(k) && -Pow2(k) <= y < Pow2(k)
    ensures -Pow2(k) <= And(x, y) < Pow2(k)
    decreases k
  {
    if k > 0 {
      AndRange(x / 2, y / 2, k - 1);
      HalvesOfAnd(x, y);
    }
  }

  /** y has its k low bits set and x only those. */
  lemma {:induction false} AndCovers(x: int, y: int, k: nat)
    requires 0 <= x < Pow2(k) && y % Pow2(k) == Pow2(k) - 1
    ensures And(x, y) == x
    decreases k
  {
    if k == 0 {
      AndZero(y);
    } else {
      LowBitsOfHalf(y, k);
      AndCovers(x / 2, y / 2, k - 1);
      AndUnfold(x, y);
    }
  }

  lemma {:induction false} AndZero(y: int)
    ensures And(0, y) == 0
    decreases Abs(y)
  {
    if !AllSign(y) { AndZero(y / 2); }
  }

  lemma LowBitsOfHalf(y: int, k: nat)
    requires k > 0 && y % Pow2(k) == Pow2(k) - 1
    ensures y % 2 == 1 && (y / 2) % Pow2(k - 1) == Pow2(k - 1) - 1
  {
    var p := Pow2(k - 1);
    var q := y / Pow2(k);
    assert y == 2 * (p * q) + 2 * p - 1;
    assert y / 2 == p * q + (p - 1);
    Quotient(y / 2, p, q, p - 1);
  }

  /** Division has one answer. */
  lemma Quotient(v: int, d: int, q: int, r: int)
    requires d > 0 && v == d * q + r && 0 <= r < d
    ensures v / d == q && v % d == r
  {
    var q' := v / d;
    var e := q' - q;
    assert d * e == r - v % d;
    assert e >= 1 ==> d * e >= d;
    assert e <= -1 ==> d * e <= -d;
  }

  lemma ModOfHalf(x: int, p: int)
    requires p > 0
    ensures x % (2 * p) == 2 * ((x / 2) % p) + x % 2
  {
    var q, r := (x / 2) / p, (x / 2) % p;
    assert x / 2 == p * q + r;
    assert (2 * p) * q == 2 * (p * q);
    Quotient(x, 2 * p, q, 2 * r + x % 2);
  }

  lemma {:induction false} AndLowMask(x: int, k: nat)
    ensures And(x, Pow2(k) - 1) == x % Pow2(k)
    decreases k
  {
    if k == 0 {
      AndCommutes(x, 0);
      AndZero(x);
    } else {
      AndLowMask(x / 2, k - 1);
      AndUnfold(x, Pow2(k) - 1);
      ModOfHalf(x, Pow2(k - 1));
    }
  }

  lemma {:induction false} AndCommutes(x: int, y: int)
    ensures And(x, y) == And(y, x)
    decreases Abs(x) + Abs(y)
  {
    if !(AllSign(x) && AllSign(y)) { AndCommutes(x / 2, y / 2); }
  }

  lemma OrCommutes(x: int, y: int)
    ensures Or(x, y) == Or(y, x)
  {
    AndCommutes(Not(x), Not(y));
  }

  /** A disjunction is negative when either operand is. */
  lemma OrSign(x: int, y: int)
    ensures Or(x, y) < 0 <==> x < 0 || y < 0
  {
    AndSign(Not(x), Not(y));
  }

  lemma {:induction false} AndAllOnes(x: int, y: int)
    ensures And(x, y) == -1 <==> x == -1 && y == -1
    decreases Abs(x) + Abs(y)
  {
    if !(AllSign(x) && AllSign(y)) {
      AndAllOnes(x / 2, y / 2);
      HalvesOfAnd(x, y);
    }
  }

  lemma OrZero(x: int, y: int)
    ensures Or(x, y) == 0 <==> x == 0 && y == 0
  {
    AndAllOnes(Not(x), Not(y));
  }

  lemma OrRange(x: int, y: int, k: nat)
    requires -Pow2(k) <= x < Pow2(k) && -Pow2(k) <= y < Pow2(k)
    ensures -Pow2(k) <= Or(x, y) < Pow2(k)
  {
    AndRange(Not(x), Not(y), k);
  }

  lemma {:induction false} OrUnfold(x: int, y: int)
    ensures Or(x, y) == (if x % 2 == 1 || y % 2 == 1 then 1 else 0) + 2 * Or(x / 2, y / 2)
  {
    AndUnfold(Not(x), Not(y));
    assert Not(x) / 2 == Not(x / 2) && Not(y) / 2 == Not(y / 2);
  }

  /** Operands without a common bit add up. */
  lemma {:induction false} OrDisjoint(x: int, y: int, k: nat)
    requires x % Pow2(k) == 0 && 0 <= y < Pow2(k)
    ensures Or(x, y) == x + y
    decreases k
  {
    if k == 0 {
      AndCommutes(Not(x), -1);
      AndMask(-1, Not(x));
    } else {
      var p := Pow2(k - 1);
      var q := x / (2 * p);
      assert x == 2 * (p * q);
      Quotient(x / 2, p, q, 0);
      OrDisjoint(x / 2, y / 2, k - 1);
      OrUnfold(x, y);
    }
  }

  lemma XorDouble(x: int, y: int, b: int)
    requires 0 <= b <= 1
    ensures Xor(2 * x + b, 2 * y) == 2 * Xor(x, y) + b
  {
    hide Xor;
    XorUnfold(2 * x + b, 2 * y);
    assert (2 * x + b) / 2 == x && (2 * y) / 2 == y;
  }

  /** Xor with a multiple of 16 leaves the low four bits alone. */
  lemma XorHighNibble(x: int, y: int, l: int)
    requires 0 <= l < 16
    ensures Xor(16 * x + l, 16 * y) == 16 * Xor(x, y) + l
  {
    hide Xor;
    XorDouble(8 * x + l / 2, 8 * y, l % 2);
    XorDouble(4 * x + l / 4, 4 * y, l / 2 % 2);
    XorDouble(2 * x + l / 8, 2 * y, l / 4 % 2);
    XorDouble(x, y, l / 8);
  }

  lemma AndDouble(x: int, y: int, b: int, d: int)
    requires 0 <= b <= 1 && 0 <= d <= 1
    ensures And(2 * x + b, 2 * y + d) == 2 * And(x, y) + (if d == 1 then b else 0)
  {
    hide And;
    AndUnfold(2 * x + b, 2 * y + d);
    assert (2 * x + b) / 2 == x && (2 * y + d) / 2 == y;
  }

  /** And with a mask whose low five bits are set leaves the low five bits alone. */
  lemma AndLowFive(x: int, y: int, l: int)
    requires 0 <= l < 32
    ensures And(32 * x + l, 32 * y + 31) == 32 * And(x, y) + l
  {
    hide And;
    var l1, l2, l3, l4 := l / 2, l / 4, l / 8, l / 16;
    AndDouble(16 * x + l1, 16 * y + 15, l - 2 * l1, 1);
    AndDouble(8 * x + l2, 8 * y + 7, l1 - 2 * l2, 1);
    AndDouble(4 * x + l3, 4 * y + 3, l2 - 2 * l3, 1);
    AndDouble(2 * x + l4, 2 * y + 1, l3 - 2 * l4, 1);
    AndDouble(x, y, l4, 1);
  }

  lemma {:induction false} XorSelf(x: int)
    ensures Xor(x, x) == 0
    decreases Abs(x)
  {
    if !AllSign(x) { XorSelf(x / 2); }
  }
}
