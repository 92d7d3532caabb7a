/**
 The field operations of x25519.c that work on whole elements: product,
 branch-free swap, canonical packing, unpacking and inversion.
 */
module FieldElement {
  import opened TwosComplement
  import opened Limbs

  /** Little-endian value of a byte string. */
  ghost function LittleEndian(s: seq<uint8>): int {
    if |s| == 0 then 0 else s[0] as int + 256 * LittleEndian(s[1..])
  }

  ghost function ByteAt(v: int, i: nat): uint8
    decreases i
  {
    if i == 0 then (v % 256) as uint8 else ByteAt(v / 256, i - 1)
  }

  /** The n lowest little-endian bytes of v. */
  ghost function ToBytes(v: int, n: nat): seq<uint8> {
    seq(n, i requires 0 <= i < n => ByteAt(v, i))
  }

  lemma BytesAreUnique(s: seq<uint8>)
    ensures s == ToBytes(LittleEndian(s), |s|)
  {
    forall i | 0 <= i < |s| ensures s[i] == ByteAt(LittleEndian(s), i) {
      ByteOfValue(s, i);
    }
  }

  lemma {:induction false} ByteOfValue(s: seq<uint8>, i: nat)
    requires i < |s|
    ensures s[i] == ByteAt(LittleEndian(s), i)
  {
    assert LittleEndian(s) % 256 == s[0] as int;
    assert LittleEndian(s) / 256 == LittleEndian(s[1..]);
    if i > 0 { ByteOfValue(s[1..], i - 1); }
  }

  /** 256^n. */
  ghost function Bytes(n: nat): int {
    if n == 0 then 1 else 256 * Bytes(n - 1)
  }

  lemma {:induction false} BytesAdd(a: nat, b: nat)
    ensures Bytes(a + b) == Bytes(a) * Bytes(b)
  {
    if a > 0 {
      BytesAdd(a - 1, b);
      Regroup(256, Bytes(a - 1), Bytes(b));
    }
  }

  lemma Regroup(x: int, y: int, z: int)
    ensures x * (y * z) == x * y * z
  {
  }

  lemma OneByte()
    ensures Bytes(1) == 256
  {
  }

  lemma ThirtyOneBytes()
    ensures Bytes(31) == 0x100000000000000_0000000000000000_0000000000000000_0000000000000000
  {
    hide Bytes;
    OneByte();
    BytesAdd(1, 1);
    BytesAdd(2, 2);
    BytesAdd(4, 4);
    BytesAdd(8, 8);
    BytesAdd(16, 8);
    BytesAdd(24, 4);
    BytesAdd(28, 2);
    BytesAdd(30, 1);
  }

  lemma {:induction false} BytesReadBack(v: int, n: nat)
    requires 0 <= v < Bytes(n)
    ensures LittleEndian(ToBytes(v, n)) == v
    decreases n
  {
    if n > 0 {
      assert ToBytes(v, n)[1..] == ToBytes(v / 256, n - 1);
      BytesReadBack(v / 256, n - 1);
    }
  }

  lemma {:induction false} TopByte(s: seq<uint8>)
    requires |s| > 0
    ensures LittleEndian(s) >= s[|s| - 1] as int * Bytes(|s| - 1)
    ensures LittleEndian(s) >= 0
    decreases |s|
  {
    if |s| == 1 {
      assert s[1..] == [];
    } else {
      TopByte(s[1..]);
      Regroup(256, s[|s| - 1] as int, Bytes(|s| - 2));
    }
  }

  lemma TopByteAtLeast(x: int, w: int)
    requires w >= 0
    ensures x >= 128 ==> x * w >= 128 * w
  {
  }

  /** What `pack` writes, `unpack` reads as the same representative: the masked top bit is already clear. */
  lemma PackedReadsBack(v: int, n: nat)
    requires 0 <= v < PRIME && n == 32
    ensures var s := ToBytes(v, n); LittleEndian(s[31 := s[31] % 128]) == v
  {
    hide Bytes, LittleEndian;
    var s := ToBytes(v, n);
    ThirtyOneBytes();
    OneByte();
    BytesAdd(31, 1);
    BytesReadBack(v, n);
    TopByte(s);
    TopByteAtLeast(s[31] as int, Bytes(31));
    assert s[31 := s[31] % 128] == s;
  }

  /** memcpy of one element. */
  method Copy(o: array<int64>, a: array<int64>)
    requires o.Length == 16 <= a.Length
    modifies o
    ensures o[..] == old(a[..16])
  {
    var k := 0;
    while k < 16
      invariant 0 <= k <= 16
      invariant forall j :: 0 <= j < k ==> o[j] == old(a[j])
      invariant forall j :: k <= j < 16 ==> a[j] == old(a[j])
    {
      o[k] := a[k];
      k := k + 1;
    }
  }

  // ----- multmod -----

  method MultMod(o: array<int64>, a: array<int64>, b: array<int64>)
    requires o.Length == a.Length == b.Length == 16
    requires Loose(a[..]) && Loose(b[..])
    modifies o
    ensures Reduced(o[..])
    ensures Cong(Val(o[..]), old(Val(a[..])) * old(Val(b[..])))
  {
    ghost var va, vb := Val(a[..]), Val(b[..]);
    var t := new int64[31](_ => 0);
    ValZero(t[..]);
    var i := 0;
    assert a[..0] == [];
    while i < 16
      invariant 0 <= i <= 16
      invariant Loose(a[..]) && Loose(b[..]) && Val(b[..]) == vb && a[..] == old(a[..])
      invariant RowBound(t[..], i, 0)
      invariant Val(t[..]) == Val(a[..i]) * vb
      invariant o[..] == old(o[..])
    {
      MultiplyRow(t, a, b, i);
      RowsSoFar(a[..], i, vb);
      i := i + 1;
    }
    assert a[..16] == a[..];
    FoldHigh(t);
    ghost var folded := t[..16];
    Copy(o, t);
    assert o[..] == folded;
    assert Within(o[..], PRODUCT_LIMIT);
    Carry(o);
    ghost var once := o[..];
    FirstCarryRange(folded, once);
    Carry(o);
    SecondCarryRange(once, o[..]);
    CongTrans(Val(o[..]), Val(once), Val(folded));
    CongTrans(Val(o[..]), Val(folded), va * vb);
  }

  lemma RowsSoFar(a: seq<int64>, i: nat, vb: int)
    requires i < |a|
    ensures Val(a[..i + 1]) * vb == Val(a[..i]) * vb + a[i] as int * Weight(i) * vb
  {
    assert a[..i + 1] == a[..i] + [a[i]];
    ValSnoc(a[..i], a[i]);
  }

  /** The second loop of `multmod`: limbs 16..30 return to limbs 0..14 times 38. */
  method FoldHigh(t: array<int64>)
    requires t.Length == 31 && RowBound(t[..], 16, 0)
    modifies t
    ensures Within(t[..16], PRODUCT_LIMIT)
    ensures Cong(Val(t[..16]), old(Val(t[..])))
  {
    hide Cong;
    ghost var s := t[..];
    var i := 0;
    while i < 15
      invariant 0 <= i <= 15
      invariant forall k :: 0 <= k < i ==> t[k] as int == s[k] as int + 38 * s[k + 16] as int
      invariant forall k :: i <= k < 31 ==> t[k] == s[k]
    {
      t[i] := t[i] + 38 * t[i + 16];
      i := i + 1;
    }
    FoldedValue(s, t[..16]);
    forall k | 0 <= k < 16 ensures -PRODUCT_LIMIT <= t[..16][k] as int <= PRODUCT_LIMIT {
      assert -RowLimit(16) <= s[k] as int <= RowLimit(16);
      assert k < 15 ==> -RowLimit(16) <= s[k + 16] as int <= RowLimit(16);
    }
  }

  lemma FoldedValue(s: seq<int64>, r: seq<int64>)
    requires |s| == 31 && |r| == 16
    requires forall k :: 0 <= k < 15 ==> r[k] as int == s[k] as int + 38 * s[k + 16] as int
    requires r[15] == s[15]
    ensures Cong(Val(r), Val(s))
  {
    hide Cong, Val, Weight;
    ValSplit(s, 16);
    ValFold(s[..16], s[16..], r);
    FoldTop(Val(s), Val(s[16..]), Val(r));
  }

  lemma {:induction false} ValFold(lo: seq<int64>, hi: seq<int64>, r: seq<int64>)
    requires |hi| <= |lo| == |r|
    requires forall k :: 0 <= k < |hi| ==> r[k] as int == lo[k] as int + 38 * hi[k] as int
    requires forall k :: |hi| <= k < |lo| ==> r[k] == lo[k]
    ensures Val(r) == Val(lo) + 38 * Val(hi)
  {
    if |hi| == 0 {
      assert r == lo;
    } else {
      ValFold(lo[1..], hi[1..], r[1..]);
    }
  }

  // ----- cswap -----

  method Cswap(p: array<int64>, q: array<int64>, b: int)
    requires p.Length == q.Length == 16 && p != q && 0 <= b <= 1
    modifies p, q
    ensures p[..] == if b == 1 then old(q[..]) else old(p[..])
    ensures q[..] == if b == 1 then old(p[..]) else old(q[..])
  {
    var c := Not(b - 1);
    ghost var s, r := p[..], q[..];
    var i := 0;
    while i < 16
      invariant 0 <= i <= 16
      invariant forall j :: 0 <= j < i ==> p[j] == (if b == 1 then r[j] else s[j])
      invariant forall j :: 0 <= j < i ==> q[j] == (if b == 1 then s[j] else r[j])
      invariant forall j :: i <= j < 16 ==> p[j] == s[j] && q[j] == r[j]
    {
      SwapByMask(p[i] as int, q[i] as int, c);
      var t := And(c, Xor(p[i] as int, q[i] as int));
      p[i] := Xor(p[i] as int, t) as int64;
      q[i] := Xor(q[i] as int, t) as int64;
      i := i + 1;
    }
  }

  /** The xor-mask idiom exchanges two words under an all-ones mask and keeps them under 0. */
  lemma SwapByMask(x: int, y: int, c: int)
    requires AllSign(c)
    ensures Xor(x, And(c, Xor(x, y))) == if c == -1 then y else x
    ensures Xor(y, And(c, Xor(x, y))) == if c == -1 then x else y
  {
    AndMask(c, Xor(x, y));
    if c == -1 {
      XorCancels(x, y);
      XorCommutes(x, y);
      XorCancels(y, x);
    } else {
      XorZero(x);
      XorZero(y);
    }
  }

  // ----- pack and unpack -----

  lemma {:induction false} BytePairs(bytes: seq<uint8>, limbs: seq<int64>)
    requires |bytes| == 2 * |limbs|
    requires forall i :: 0 <= i < |limbs| ==> limbs[i] as int == bytes[2 * i] as int + 256 * bytes[2 * i + 1] as int
    ensures LittleEndian(bytes) == Val(limbs)
  {
    if |limbs| > 0 {
      forall i | 0 <= i < |limbs| - 1
        ensures limbs[1..][i] as int == bytes[2..][2 * i] as int + 256 * bytes[2..][2 * i + 1] as int
      {
        assert bytes[2..][2 * i] == bytes[2 * (i + 1)];
        assert bytes[2..][2 * i + 1] == bytes[2 * (i + 1) + 1];
      }
      BytePairs(bytes[2..], limbs[1..]);
      assert bytes[1..][1..] == bytes[2..];
      assert limbs[0] as int == bytes[2 * 0] as int + 256 * bytes[2 * 0 + 1] as int;
    }
  }

  method Unpack(o: array<int64>, n: array<uint8>)
    requires o.Length == 16 && n.Length == 32
    modifies o
    ensures Digits(o[..])
    ensures Val(o[..]) == LittleEndian(n[..][31 := n[31] % 128])
  {
    var i := 0;
    while i < 16
      invariant 0 <= i <= 16
      invariant forall j :: 0 <= j < i ==> o[j] as int == n[2 * j] as int + 256 * n[2 * j + 1] as int
    {
      o[i] := n[2 * i] as int64 + n[2 * i + 1] as int64 * 256;
      i := i + 1;
    }
    o[15] := o[15] % 32768;
    ghost var masked := n[..][31 := n[31] % 128];
    assert o[15] as int == masked[30] as int + 256 * masked[31] as int;
    BytePairs(masked, o[..]);
  }

  /**
   One round of `pack`'s conditional subtraction: m := t - (2^255-19) with borrows
   propagated, and b the sign of the difference.
   */
  method TrySubtract(m: array<int64>, t: array<int64>) returns (b: int)
    requires m.Length == t.Length == 16 && m != t && Digits(t[..])
    modifies m
    ensures Val(m[..]) == Val(t[..]) - PRIME
    ensures b == if Val(t[..]) < PRIME then 1 else 0
    ensures b == 0 ==> Digits(m[..])
  {
    hide Val;
    m[0] := t[0] - 0xffed;
    ValOne(m[0]);
    ValOne(t[0]);
    assert m[..1] == [m[0]] && t[..1] == [t[0]];
    var i := 1;
    while i < 15
      invariant 1 <= i <= 15
      invariant Digits(m[..i - 1])
      invariant -65536 <= m[i - 1] <= 65535
      invariant Val(m[..i]) == Val(t[..i]) - (Weight(i) - 19)
    {
      SubtractLimb(m, t, i, 0xffff);
      i := i + 1;
    }
    SubtractLimb(m, t, 15, 0x7fff);
    b := ((m[15] / 65536) % 2) as int;
    assert m[..16] == m[..] && t[..16] == t[..];
    WeightWraps();
    SignOfTop(m[..]);
  }

  lemma ValOne(v: int64)
    ensures Val([v]) == v as int
  {
    assert [v][1..] == [];
  }

  method SubtractLimb(m: array<int64>, t: array<int64>, i: int, p: int64)
    requires m.Length == t.Length == 16 && m != t && Digits(t[..])
    requires 1 <= i < 16 && 0 <= p <= 0xffff
    requires Digits(m[..i - 1]) && -65536 <= m[i - 1] <= 65535
    modifies m
    ensures Digits(m[..i])
    ensures -p - 1 <= m[i] <= 65535 - p
    ensures Val(m[..i + 1]) - Val(t[..i + 1]) == old(Val(m[..i])) - Val(t[..i]) - Scaled(p as int, Weight(i))
  {
    hide Val;
    ghost var before := m[..i];
    var borrow := (m[i - 1] / 65536) % 2;
    m[i] := t[i] - p - borrow;
    m[i - 1] := m[i - 1] % 65536;
    assert m[..i] == before[i - 1 := m[i - 1]];
    assert m[..i + 1] == m[..i] + [m[i]];
    assert t[..i + 1] == t[..i] + [t[i]];
    Borrow(before, m[i - 1], m[i], t[..i], t[i], borrow as int, p as int);
  }

  lemma Borrow(s: seq<int64>, x: int64, y: int64, t: seq<int64>, z: int64, borrow: int, p: int)
    requires |s| == |t| > 0
    requires x as int == s[|s| - 1] as int + 65536 * borrow
    requires y as int == z as int - p - borrow
    ensures Val(s[|s| - 1 := x] + [y]) - Val(t + [z]) == Val(s) - Val(t) - Scaled(p, Weight(|s|))
  {
    hide Val, Weight, Scaled;
    var i := |s|;
    WeightUp(i - 1);
    ValUpdate(s, i - 1, x);
    ValSnoc(s[i - 1 := x], y);
    ValSnoc(t, z);
    BorrowSum(x as int - s[i - 1] as int, borrow, Weight(i - 1), Weight(i), y as int, z as int, p);
  }

  lemma BorrowSum(d: int, borrow: int, w: int, w': int, r: int, t: int, p: int)
    requires d == 65536 * borrow && w' == 65536 * w && r == t - p - borrow
    ensures Scaled(d, w) + Scaled(r, w') == Scaled(t, w') - Scaled(p, w')
  {
    assert (65536 * borrow) * w == borrow * (65536 * w);
    assert (t - p - borrow) * w' == t * w' - p * w' - borrow * w';
  }

  /** A digit string with a signed top limb has the sign of that limb. */
  lemma SignOfTop(m: seq<int64>)
    requires |m| == 16 && Digits(m[..15])
    ensures Val(m) < 0 <==> m[15] < 0
  {
    assert m == m[..15] + [m[15]];
    ValSnoc(m[..15], m[15]);
    ValDigits(m[..15]);
    var w := Weight(15);
    if m[15] < 0 {
      assert m[15] as int * w <= -w;
    } else {
      assert m[15] as int * w >= 0;
    }
  }

  /**
   `pack`: three carries and two conditional subtractions leave the representative in
   [0, 2^255-19), and the bytes written are its little-endian form.
   */
  method Pack(o: array<uint8>, n: array<int64>)
    requires o.Length == 32 && n.Length == 16 && Within(n[..], PRODUCT_LIMIT)
    modifies o
    ensures o[..] == ToBytes(Val(n[..]) % PRIME, 32)
  {
    hide Cong;
    ghost var v := Val(n[..]);
    var m, t := new int64[16], new int64[16];
    Copy(t, n);
    assert n[..16] == n[..];
    Normalize(t);
    ghost var high := Val(t[..]);
    WeightWraps();
    ValDigits(t[..]);
    var j := 0;
    while j < 2
      invariant 0 <= j <= 2
      invariant Digits(t[..]) && Cong(Val(t[..]), v)
      invariant 0 <= Val(t[..]) < (if j == 0 then 2 * PRIME + 38 else if j == 1 then PRIME + 38 else PRIME)
    {
      ghost var before := Val(t[..]);
      var b := TrySubtract(m, t);
      ghost var tried := Val(m[..]);
      Cswap(t, m, 1 - b);
      assert Val(t[..]) == if before < PRIME then before else tried;
      CongBy(Val(t[..]), before, if before < PRIME then 0 else -1);
      CongTrans(Val(t[..]), before, v);
      j := j + 1;
    }
    Representative(Val(t[..]), v);
    WriteBytes(o, t);
  }

  method Normalize(t: array<int64>)
    requires t.Length == 16 && Within(t[..], PRODUCT_LIMIT)
    modifies t
    ensures Digits(t[..]) && Cong(Val(t[..]), old(Val(t[..])))
  {
    ghost var s0 := t[..];
    Carry(t);
    ghost var s1 := t[..];
    FirstCarryRange(s0, s1);
    Carry(t);
    ghost var s2 := t[..];
    SecondCarryRange(s1, s2);
    Carry(t);
    ThirdCarryRange(s2, t[..]);
    CongTrans(Val(s2), Val(s1), Val(s0));
    CongTrans(Val(t[..]), Val(s2), Val(s0));
  }

  method WriteBytes(o: array<uint8>, t: array<int64>)
    requires o.Length == 32 && t.Length == 16 && Digits(t[..])
    modifies o
    ensures o[..] == ToBytes(Val(t[..]), 32)
  {
    var i := 0;
    while i < 16
      invariant 0 <= i <= 16
      invariant forall j :: 0 <= j < i ==> t[j] as int == o[2 * j] as int + 256 * o[2 * j + 1] as int
    {
      o[2 * i] := (t[i] % 256) as uint8;
      o[2 * i + 1] := (t[i] / 256) as uint8;
      i := i + 1;
    }
    BytePairs(o[..], t[..]);
    BytesAreUnique(o[..]);
  }

  // ----- invert -----

  ghost function Pow(x: int, e: nat): int {
    if e == 0 then 1 else x * Pow(x, e - 1)
  }

  lemma {:induction false} PowAdd(x: int, d: nat, e: nat)
    ensures Pow(x, d + e) == Pow(x, d) * Pow(x, e)
  {
    if d > 0 {
      PowAdd(x, d - 1, e);
      var p, q := Pow(x, d - 1), Pow(x, e);
      assert x * (p * q) == (x * p) * q;
    }
  }

  lemma {:induction false} CongPow(x: int, y: int, e: nat)
    requires Cong(x, y)
    ensures Cong(Pow(x, e), Pow(y, e))
  {
    if e > 0 {
      CongPow(x, y, e - 1);
      CongMul(x, y, Pow(x, e - 1), Pow(y, e - 1));
    }
  }

  /** The exponent `invert` has reached after n of its 254 rounds. */
  ghost function InvertExponent(n: nat): nat {
    if n == 0 then 1
    else 2 * InvertExponent(n - 1) + (if n == 250 || n == 252 then 0 else 1)
  }

  lemma {:induction false} Pow2OfLimbs(k: nat)
    ensures Pow2(16 * k) == Weight(k)
  {
    if k > 0 {
      Pow2OfLimbs(k - 1);
      Pow2By16(16 * (k - 1));
    }
  }

  lemma Pow2By4(n: nat)
    ensures Pow2(n + 4) == 16 * Pow2(n)
  {
    assert Pow2(n + 2) == 4 * Pow2(n);
    assert Pow2(n + 2 + 2) == 4 * Pow2(n + 2);
  }

  lemma Pow2By16(n: nat)
    ensures Pow2(n + 16) == 65536 * Pow2(n)
  {
    Pow2By4(n);
    Pow2By4(n + 4);
    Pow2By4(n + 8);
    Pow2By4(n + 12);
  }

  lemma Pow2Of250(n: nat)
    requires n == 250
    ensures Pow2(n) * 32 == PRIME + 19
  {
    Pow2OfLimbs(16);
    WeightWraps();
    Pow2By4(n);
    assert Pow2(n + 4 + 2) == 4 * Pow2(n + 4);
  }

  lemma {:induction false} AllOnes(n: nat)
    requires n <= 249
    ensures InvertExponent(n) == Pow2(n + 1) - 1
  {
    if n > 0 { AllOnes(n - 1); }
  }

  /** `invert` raises to the power p-2, whose only zero bits below bit 254 are bits 2 and 4. */
  lemma InvertExponentIsPrimeMinus2(n: nat)
    requires n == 254
    ensures InvertExponent(n) == PRIME - 2
  {
    AllOnes(n - 5);
    Pow2Of250(n - 4);
    assert InvertExponent(n - 4) == 2 * InvertExponent(n - 5);
    assert InvertExponent(n - 3) == 2 * InvertExponent(n - 4) + 1;
    assert InvertExponent(n - 2) == 2 * InvertExponent(n - 3);
    assert InvertExponent(n - 1) == 2 * InvertExponent(n - 2) + 1;
    assert InvertExponent(n) == 2 * InvertExponent(n - 1) + 1;
  }

  lemma InvertExponentStart()
    ensures InvertExponent(0) == 1
  {
  }

  method Invert(o: array<int64>, i: array<int64>)
    requires o.Length == i.Length == 16 && Loose(i[..])
    modifies o
    ensures Reduced(o[..])
    ensures Cong(Val(o[..]), Pow(old(Val(i[..])), PRIME - 2))
  {
    hide Cong, Pow, Val, InvertExponent;
    ghost var v := Val(i[..]);
    var c := new int64[16];
    Copy(c, i);
    assert i[..16] == i[..];
    PowOne(v);
    ghost var n := 0;
    assert InvertExponent(n) == 1 by { InvertExponentStart(); }
    var a := 253;
    while a >= 0
      invariant -1 <= a <= 253 && n == 253 - a
      invariant Loose(c[..]) && (a < 253 ==> Reduced(c[..]))
      invariant Loose(i[..]) && Val(i[..]) == v
      invariant Cong(Val(c[..]), Pow(v, InvertExponent(n)))
    {
      InvertRound(c, i, a, n, v);
      n := n + 1;
      a := a - 1;
    }
    InvertExponentIsPrimeMinus2(n);
    Copy(o, c);
    assert c[..16] == c[..];
  }

  method InvertRound(c: array<int64>, i: array<int64>, a: int, ghost n: nat, ghost v: int)
    requires c.Length == i.Length == 16 && c != i && n == 253 - a
    requires Loose(c[..]) && Loose(i[..]) && Val(i[..]) == v
    requires Cong(Val(c[..]), Pow(v, InvertExponent(n)))
    modifies c
    ensures Reduced(c[..]) && Cong(Val(c[..]), Pow(v, InvertExponent(n + 1)))
  {
    hide Cong, Pow, Val;
    ghost var e := InvertExponent(n);
    ghost var vc := Val(c[..]);
    MultMod(c, c, c);
    PowSquare(Val(c[..]), vc, v, e);
    if a != 2 && a != 4 {
      vc := Val(c[..]);
      MultMod(c, c, i);
      PowTimes(Val(c[..]), vc, v, e + e);
    }
  }

  lemma PowOne(v: int)
    ensures Cong(v, Pow(v, 1))
  {
    assert Pow(v, 1) == v * Pow(v, 0);
  }

  lemma PowSquare(x: int, y: int, v: int, e: nat)
    requires Cong(y, Pow(v, e)) && Cong(x, y * y)
    ensures Cong(x, Pow(v, e + e))
  {
    hide Cong, Pow;
    PowAdd(v, e, e);
    CongMul(y, Pow(v, e), y, Pow(v, e));
    CongTrans(x, y * y, Pow(v, e + e));
  }

  lemma PowTimes(x: int, y: int, v: int, e: nat)
    requires Cong(y, Pow(v, e)) && Cong(x, y * v)
    ensures Cong(x, Pow(v, e + 1))
  {
    hide Cong;
    CongRefl(v);
    CongMul(y, Pow(v, e), v, v);
    CongTrans(x, y * v, Pow(v, e) * v);
  }
}
