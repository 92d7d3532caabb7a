/**
 Field elements of x25519.c: 16 signed 64-bit limbs, radix 2^16, read modulo
 2^255-19. `int64` arithmetic makes the verifier show that no C addition,
 subtraction or multiplication overflows. `x >> 16` is floor division and
 `x & 0xffff` the matching remainder, as on two's-complement machines.
 */
module Limbs {
  import opened TwosComplement

  const PRIME: int := 0x7fffffff_ffffffff_ffffffff_ffffffff_ffffffff_ffffffff_ffffffff_ffffffed

  /** The integer a limb sequence stands for. */
  ghost function Val(s: seq<int64>): int {
    if |s| == 0 then 0 else s[0] as int + 65536 * Val(s[1..])
  }

  ghost function Weight(i: nat): int {
    if i == 0 then 1 else 65536 * Weight(i - 1)
  }

  /** A limb (or a change to one) at its position; a name so that proofs can treat products as atoms. */
  ghost function Scaled(d: int, w: int): int {
    d * w
  }

  /** Congruence modulo 2^255-19. */
  ghost predicate Cong(x: int, y: int) {
    (x - y) % PRIME == 0
  }

  lemma CongBy(x: int, y: int, k: int)
    requires x - y == k * PRIME
    ensures Cong(x, y)
  {
  }

  lemma CongRefl(x: int)
    ensures Cong(x, x)
  {
  }

  lemma Representative(x: int, v: int)
    requires Cong(x, v) && 0 <= x < PRIME
    ensures x == v % PRIME
  {
  }

  lemma CongTrans(x: int, y: int, z: int)
    requires Cong(x, y) && Cong(y, z)
    ensures Cong(x, z)
  {
  }

  lemma CongSym(x: int, y: int)
    requires Cong(x, y)
    ensures Cong(y, x)
  {
  }

  lemma CongAdd(x: int, x': int, y: int, y': int)
    requires Cong(x, x') && Cong(y, y')
    ensures Cong(x + y, x' + y')
  {
  }

  lemma CongSub(x: int, x': int, y: int, y': int)
    requires Cong(x, x') && Cong(y, y')
    ensures Cong(x - y, x' - y')
  {
  }

  lemma CongMul(x: int, x': int, y: int, y': int)
    requires Cong(x, x') && Cong(y, y')
    ensures Cong(x * y, x' * y')
  {
    var k, l := (x - x') / PRIME, (y - y') / PRIME;
    assert x == x' + k * PRIME && y == y' + l * PRIME;
    calc {
      x * y - x' * y';
      (x' + k * PRIME) * y - x' * y';
      x' * (y - y') + k * PRIME * y;
      x' * (l * PRIME) + k * PRIME * y;
      (x' * l + k * y) * PRIME;
    }
    CongBy(x * y, x' * y', x' * l + k * y);
  }

  // ----- positional value -----

  lemma {:induction false} ValSnoc(s: seq<int64>, v: int64)
    ensures Val(s + [v]) == Val(s) + Scaled(v as int, Weight(|s|))
  {
    if |s| == 0 {
      assert [v][1..] == [];
    } else {
      ValSnoc(s[1..], v);
      assert (s + [v])[1..] == s[1..] + [v];
      var w := Weight(|s| - 1);
      assert 65536 * (v as int * w) == v as int * (65536 * w);
    }
  }

  lemma {:induction false} ValSplit(s: seq<int64>, k: nat)
    requires k <= |s|
    ensures Val(s) == Val(s[..k]) + Weight(k) * Val(s[k..])
  {
    if k == 0 {
      assert s[0..] == s;
    } else {
      ValSplit(s[1..], k - 1);
      assert s[1..][..k - 1] == s[..k][1..] && s[1..][k - 1..] == s[k..];
      var w, v := Weight(k - 1), Val(s[k..]);
      assert 65536 * (w * v) == (65536 * w) * v;
    }
  }

  lemma {:induction false} ValUpdate(s: seq<int64>, i: nat, v: int64)
    requires i < |s|
    ensures Val(s[i := v]) == Val(s) + Scaled(v as int - s[i] as int, Weight(i))
  {
    if i == 0 {
      assert s[0 := v][1..] == s[1..];
    } else {
      ValUpdate(s[1..], i - 1, v);
      assert s[i := v][1..] == s[1..][i - 1 := v];
      var d, w := v as int - s[i] as int, Weight(i - 1);
      assert 65536 * (d * w) == d * (65536 * w);
    }
  }

  lemma {:induction false} WeightAdd(i: nat, j: nat)
    ensures Weight(i + j) == Weight(i) * Weight(j)
  {
    if i > 0 {
      WeightAdd(i - 1, j);
      var w, v := Weight(i - 1), Weight(j);
      assert 65536 * (w * v) == (65536 * w) * v;
    }
  }

  lemma WeightUp(i: nat)
    ensures Weight(i + 1) == 65536 * Weight(i)
  {
  }

  /** Two to the 256 exceeds twice the prime by the 38 that `carry` and `multmod` fold back. */
  lemma WeightWraps()
    ensures Weight(16) == 2 * PRIME + 38
  {
    assert Weight(4) == 0x1_0000_0000_0000_0000;
    WeightAdd(4, 4);
    WeightAdd(8, 8);
  }

  lemma {:induction false} ValZero(s: seq<int64>)
    requires forall i :: 0 <= i < |s| ==> s[i] == 0
    ensures Val(s) == 0
  {
    if |s| > 0 { ValZero(s[1..]); }
  }

  predicate Digits(s: seq<int64>) {
    forall i :: 0 <= i < |s| ==> 0 <= s[i] <= 65535
  }

  lemma {:induction false} ValDigits(s: seq<int64>)
    requires Digits(s)
    ensures 0 <= Val(s) < Weight(|s|)
  {
    if |s| > 0 { ValDigits(s[1..]); }
  }

  // ----- limb ranges -----

  /** What every `multmod` returns. */
  predicate Reduced(s: seq<int64>) {
    && |s| == 16
    && -38 <= s[0] <= 65573
    && forall i :: 1 <= i < 16 ==> 0 <= s[i] <= 65535
  }

  /** What one addition or subtraction of reduced elements can reach. */
  predicate Loose(s: seq<int64>) {
    && |s| == 16
    && forall i :: 0 <= i < 16 ==> -131146 <= s[i] <= 131146
  }

  predicate Within(s: seq<int64>, bound: int) {
    forall i :: 0 <= i < |s| ==> -bound <= s[i] as int <= bound
  }

  /** The carry that enters limb i when limbs are normalised upwards from limb 0. */
  ghost function CarryIn(s: seq<int64>, i: nat): int
    requires i <= |s|
  {
    if i == 0 then 0 else (s[i - 1] as int + CarryIn(s, i - 1)) / 65536
  }

  lemma {:induction false} CarryInBound(s: seq<int64>, i: nat, bound: int, c: int)
    requires i <= |s| && Within(s, bound) && 0 <= bound <= 65535 * c
    ensures -c <= CarryIn(s, i) <= c
  {
    if i > 0 { CarryInBound(s, i - 1, bound, c); }
  }

  /** Limb i once its carry has come in and its own carry has gone up. */
  ghost function SettledLimb(s: seq<int64>, i: nat): int
    requires i < |s|
  {
    (s[i] as int + CarryIn(s, i)) % 65536
  }

  /** One pass of `carry`: limbs become digits, and the top carry returns to limb 0 times 38. */
  ghost predicate IsCarried(s: seq<int64>, r: seq<int64>) {
    && |s| == |r| == 16
    && (forall i :: 1 <= i < 16 ==> r[i] as int == SettledLimb(s, i))
    && r[0] as int == SettledLimb(s, 0) + 38 * CarryIn(s, 16)
  }

  /** The state of `carry` before limb i is normalised. */
  ghost predicate PartlyCarried(s: seq<int64>, r: seq<int64>, i: nat) {
    && |s| == |r| == 16 && i <= 16
    && (forall j :: 1 <= j < 16 && j < i ==> r[j] as int == SettledLimb(s, j))
    && (0 < i < 16 ==> r[0] as int == SettledLimb(s, 0))
    && (i == 16 ==> r[0] as int == SettledLimb(s, 0) + 38 * CarryIn(s, 16))
    && (i < 16 ==> r[i] as int == s[i] as int + CarryIn(s, i))
    && (forall j :: i < j < 16 ==> r[j] == s[j])
  }

  const CARRY_LIMIT: int := 0x3fff_ffff_ffff_ffff
  const CARRY_QUOTIENT: int := 0x1_0000_0000_0000

  method Carry(o: array<int64>)
    requires o.Length == 16 && Within(o[..], CARRY_LIMIT)
    modifies o
    ensures IsCarried(old(o[..]), o[..])
    ensures Cong(Val(o[..]), Val(old(o[..])))
  {
    ghost var s := o[..];
    var i := 0;
    while i < 16
      invariant 0 <= i <= 16
      invariant PartlyCarried(s, o[..], i)
      invariant Cong(Val(o[..]), Val(s))
    {
      ghost var before := o[..];
      CarryInBound(s, i, CARRY_LIMIT, CARRY_QUOTIENT);
      CarryInBound(s, i + 1, CARRY_LIMIT, CARRY_QUOTIENT);
      CarryLimb(o, i);
      CarryLimbValue(before, o[..], i);
      CongTrans(Val(o[..]), Val(before), Val(s));
      CarryLimbExtends(s, before, o[..], i);
      i := i + 1;
    }
  }

  /** The effect of one iteration of `carry`. */
  ghost predicate IsLimbCarried(s: seq<int64>, r: seq<int64>, i: nat) {
    && |s| == |r| == 16 && i < 16
    && r[i] as int == s[i] as int % 65536
    && (forall j :: 0 <= j < 16 && j != i && j != (if i == 15 then 0 else i + 1) ==> r[j] == s[j])
    && (i < 15 ==> r[i + 1] as int == s[i + 1] as int + s[i] as int / 65536)
    && (i == 15 ==> r[0] as int == s[0] as int + 38 * (s[15] as int / 65536))
  }

  method CarryLimb(o: array<int64>, i: nat)
    requires o.Length == 16 && i < 16
    requires forall j :: 0 <= j < 16 ==> -2 * CARRY_LIMIT <= o[j] as int <= 2 * CARRY_LIMIT
    requires -CARRY_LIMIT <= o[(i + 1) % 16] as int <= CARRY_LIMIT
    modifies o
    ensures IsLimbCarried(old(o[..]), o[..], i)
  {
    o[(i + 1) % 16] := o[(i + 1) % 16] + (if i == 15 then 38 else 1) * (o[i] / 65536);
    o[i] := o[i] % 65536;
  }

  lemma CarryLimbExtends(s: seq<int64>, r: seq<int64>, r': seq<int64>, i: nat)
    requires i < 16 && PartlyCarried(s, r, i) && IsLimbCarried(r, r', i)
    ensures PartlyCarried(s, r', i + 1)
  {
    assert CarryIn(s, i + 1) == r[i] as int / 65536;
    assert i > 0 ==> r'[i] as int == SettledLimb(s, i);
    forall j | 1 <= j < 16 && j < i ensures r'[j] == r[j] {}
    forall j | i + 1 < j < 16 ensures r'[j] == s[j] {}
    if i == 15 {
      assert r'[0] as int == SettledLimb(s, 0) + 38 * CarryIn(s, 16);
    } else if i > 0 {
      assert r'[0] == r[0];
    }
  }

  lemma CarryLimbValue(s: seq<int64>, r: seq<int64>, i: nat)
    requires IsLimbCarried(s, r, i)
    ensures Cong(Val(r), Val(s))
  {
    var q := s[i] / 65536;
    if i < 15 {
      assert r == s[i := r[i]][i + 1 := r[i + 1]];
      CarryUp(s, i, q, r);
    } else {
      assert r == s[15 := r[15]][0 := r[0]];
      CarryAround(s, q, r);
    }
  }

  lemma CarryUp(s: seq<int64>, i: nat, q: int64, r: seq<int64>)
    requires i + 1 < |s| == |r|
    requires s[i] as int == 65536 * q as int + r[i] as int
    requires r[i + 1] as int == s[i + 1] as int + q as int
    requires r == s[i := r[i]][i + 1 := r[i + 1]]
    ensures Val(r) == Val(s)
  {
    hide Val, Weight, Scaled;
    WeightUp(i);
    var mid := s[i := r[i]];
    ValUpdate(s, i, r[i]);
    ValUpdate(mid, i + 1, r[i + 1]);
    MovedUp(r[i] as int - s[i] as int, r[i + 1] as int - mid[i + 1] as int, q as int, Weight(i), Weight(i + 1));
  }

  /** Taking 65536*q out of one limb and putting q into the next changes nothing. */
  lemma MovedUp(d: int, d': int, q: int, w: int, w': int)
    requires d == -65536 * q && d' == q && w' == 65536 * w
    ensures Scaled(d, w) + Scaled(d', w') == 0
  {
    assert (-65536 * q) * w == -(q * (65536 * w));
  }

  lemma CarryAround(s: seq<int64>, q: int64, r: seq<int64>)
    requires |s| == |r| == 16
    requires s[15] as int == 65536 * q as int + r[15] as int
    requires r[0] as int == s[0] as int + 38 * q as int
    requires r == s[15 := r[15]][0 := r[0]]
    ensures Cong(Val(r), Val(s))
  {
    hide Cong, Val, Scaled;
    WeightUp(15);
    var mid := s[15 := r[15]];
    ValUpdate(s, 15, r[15]);
    ValUpdate(mid, 0, r[0]);
    MovedUp(r[15] as int - s[15] as int, q as int, q as int, Weight(15), Weight(16));
    ScaledByOne(38 * q as int);
    FoldTop(Val(s), q as int, Val(r));
  }

  lemma ScaledByOne(d: int)
    ensures Scaled(d, Weight(0)) == d
  {
  }

  lemma FoldTop(v: int, q: int, r: int)
    requires r == v - Scaled(q, Weight(16)) + 38 * q
    ensures Cong(r, v)
  {
    WeightWraps();
    assert q * (2 * PRIME + 38) == 2 * q * PRIME + 38 * q;
    CongBy(r, v, -2 * q);
  }

  // ----- what repeated carries do to limb ranges -----

  const PRODUCT_LIMIT: int := 14_000_000_000_000

  predicate DigitsAboveZero(s: seq<int64>) {
    |s| == 16 && forall i :: 1 <= i < 16 ==> 0 <= s[i] <= 65535
  }

  lemma FirstCarryRange(s: seq<int64>, r: seq<int64>)
    requires IsCarried(s, r) && Within(s, PRODUCT_LIMIT)
    ensures DigitsAboveZero(r) && -0x2_0000_0000 <= r[0] <= 0x2_0000_0000
  {
    CarryInBound(s, 16, PRODUCT_LIMIT, 213_700_000);
  }

  lemma {:induction false} SmallCarries(s: seq<int64>, i: nat)
    requires DigitsAboveZero(s) && -0x2_0000_0000 <= s[0] <= 0x2_0000_0000
    requires 1 <= i <= 16
    ensures i == 1 ==> -131072 <= CarryIn(s, i) <= 131072
    ensures i == 2 ==> -2 <= CarryIn(s, i) <= 2
    ensures i >= 3 ==> -1 <= CarryIn(s, i) <= 1
  {
    if i > 1 { SmallCarries(s, i - 1); }
  }

  lemma SecondCarryRange(s: seq<int64>, r: seq<int64>)
    requires IsCarried(s, r)
    requires DigitsAboveZero(s) && -0x2_0000_0000 <= s[0] <= 0x2_0000_0000
    ensures Reduced(r)
  {
    SmallCarries(s, 16);
  }

  /** In a reduced element the carry never changes sign on its way up. */
  lemma {:induction false} ReducedCarries(s: seq<int64>, i: nat)
    requires Reduced(s) && 1 <= i <= 16
    ensures s[0] < 0 ==> -1 <= CarryIn(s, i) <= 0
    ensures 0 <= s[0] <= 65535 ==> CarryIn(s, i) == 0
    ensures s[0] > 65535 ==> 0 <= CarryIn(s, i) <= 1
  {
    if i > 1 { ReducedCarries(s, i - 1); } else { assert CarryIn(s, 0) == 0; }
  }

  lemma ThirdCarryRange(s: seq<int64>, r: seq<int64>)
    requires IsCarried(s, r) && Reduced(s)
    ensures Digits(r)
  {
    ReducedCarries(s, 16);
  }

  lemma {:induction false} DigitsAreSettled(s: seq<int64>, i: nat)
    requires Digits(s) && i <= |s|
    ensures CarryIn(s, i) == 0
  {
    if i > 0 { DigitsAreSettled(s, i - 1); }
  }

  // ----- addition, subtraction, multiplication -----

  method Add(o: array<int64>, a: array<int64>, b: array<int64>)
    requires o.Length == a.Length == b.Length == 16
    requires Reduced(a[..]) && Reduced(b[..])
    modifies o
    ensures Loose(o[..])
    ensures Val(o[..]) == old(Val(a[..])) + old(Val(b[..]))
  {
    ghost var s, t := a[..], b[..];
    var i := 0;
    while i < 16
      invariant 0 <= i <= 16
      invariant forall j :: 0 <= j < i ==> o[j] == s[j] + t[j]
      invariant forall j :: i <= j < 16 ==> a[j] == s[j] && b[j] == t[j]
    {
      o[i] := a[i] + b[i];
      i := i + 1;
    }
    ValAdd(s, t, o[..]);
  }

  method Subtract(o: array<int64>, a: array<int64>, b: array<int64>)
    requires o.Length == a.Length == b.Length == 16
    requires Reduced(a[..]) && Reduced(b[..])
    modifies o
    ensures Loose(o[..])
    ensures Val(o[..]) == old(Val(a[..])) - old(Val(b[..]))
  {
    ghost var s, t := a[..], b[..];
    var i := 0;
    while i < 16
      invariant 0 <= i <= 16
      invariant forall j :: 0 <= j < i ==> o[j] == s[j] - t[j]
      invariant forall j :: i <= j < 16 ==> a[j] == s[j] && b[j] == t[j]
    {
      o[i] := a[i] - b[i];
      i := i + 1;
    }
    ValAdd(o[..], t, s);
  }

  lemma {:induction false} ValAdd(s: seq<int64>, t: seq<int64>, r: seq<int64>)
    requires |s| == |t| == |r|
    requires forall j :: 0 <= j < |s| ==> r[j] as int == s[j] as int + t[j] as int
    ensures Val(r) == Val(s) + Val(t)
  {
    if |s| > 0 { ValAdd(s[1..], t[1..], r[1..]); }
  }

  /** The largest magnitude `rows` products of loose limbs can add up to. */
  function RowLimit(rows: int): int {
    17_199_273_316 * rows
  }

  lemma ProductRange(x: int, y: int, m: int)
    requires -m <= x <= m && -m <= y <= m
    ensures -(m * m) <= x * y <= m * m
  {
    var ax, ay := Abs(x), Abs(y);
    MulMonotone(ax, m, ay);
    MulMonotone(ay, m, m);
    if x < 0 {
      assert x * y == -(ax * y);
    }
    if y < 0 {
      assert ax * y == -(ax * ay);
    }
  }

  lemma MulMonotone(x: nat, y: nat, z: nat)
    requires x <= y
    ensures x * z <= y * z
  {
    assert (y - x) * z >= 0;
  }

  lemma LooseProduct(x: int, y: int)
    requires -131146 <= x <= 131146 && -131146 <= y <= 131146
    ensures -RowLimit(1) <= x * y <= RowLimit(1)
  {
    ProductRange(x, y, 131146);
  }

  /** Limb k of the running product has received at most one term from each row so far. */
  ghost predicate RowBound(t: seq<int64>, i: int, j: int) {
    && (forall k :: 0 <= k < |t| && i <= k < i + j ==> -RowLimit(i + 1) <= t[k] as int <= RowLimit(i + 1))
    && (forall k :: 0 <= k < |t| && !(i <= k < i + j) ==> -RowLimit(i) <= t[k] as int <= RowLimit(i))
  }

  /** One row of the schoolbook product: t += a[i] * b, shifted by i limbs. */
  method MultiplyRow(t: array<int64>, a: array<int64>, b: array<int64>, i: nat)
    requires t.Length == 31 && a.Length == b.Length == 16 && i < 16
    requires t != a && t != b
    requires Loose(a[..]) && Loose(b[..]) && RowBound(t[..], i, 0)
    modifies t
    ensures RowBound(t[..], i + 1, 0)
    ensures Val(t[..]) == old(Val(t[..])) + a[i] as int * Weight(i) * Val(b[..])
  {
    ghost var v := Val(t[..]);
    var j := 0;
    assert b[..0] == [];
    while j < 16
      invariant 0 <= j <= 16
      invariant RowBound(t[..], i, j)
      invariant Val(t[..]) == v + a[i] as int * Weight(i) * Val(b[..j])
    {
      LooseProduct(a[i] as int, b[j] as int);
      ghost var before := t[..];
      assert -RowLimit(i) <= before[i + j] as int <= RowLimit(i);
      t[i + j] := t[i + j] + a[i] * b[j];
      assert t[..] == before[i + j := t[i + j]];
      RowTerm(before, a[i] as int, i, b[..], j, t[i + j]);
      j := j + 1;
    }
    assert b[..16] == b[..];
  }

  lemma RowTerm(t: seq<int64>, x: int, i: nat, b: seq<int64>, j: nat, v: int64)
    requires j < |b| && i + j < |t|
    requires v as int == t[i + j] as int + x * b[j] as int
    ensures Val(t[i + j := v]) - Val(t) == x * Weight(i) * Val(b[..j + 1]) - x * Weight(i) * Val(b[..j])
  {
    ValUpdate(t, i + j, v);
    WeightAdd(i, j);
    assert b[..j + 1] == b[..j] + [b[j]];
    ValSnoc(b[..j], b[j]);
    Distribute(x, Weight(i), Val(b[..j]), b[j] as int, Weight(j));
  }

  lemma Distribute(x: int, w: int, u: int, y: int, z: int)
    ensures x * w * (u + y * z) - x * w * u == (x * y) * (w * z)
  {
  }
}
