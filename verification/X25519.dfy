/**
 curve25519_shared_secret of x25519.c, proved to write the bytes of the RFC 7748
 function. The program swaps before and after every ladder step; the RFC defers
 the second swap to the next bit.
 */
module X25519 {
  import opened TwosComplement
  import opened Limbs
  import opened FieldElement
  import opened Rfc7748

  /** a holds v, with the limb range every product has. */
  ghost predicate Holds(a: array<int64>, v: int)
    reads a
  {
    a.Length == 16 && Reduced(a[..]) && Cong(Val(a[..]), v)
  }

  /** a holds v, with a limb range that still may be multiplied. */
  ghost predicate HoldsLoosely(a: array<int64>, v: int)
    reads a
  {
    a.Length == 16 && Loose(a[..]) && Cong(Val(a[..]), v)
  }

  lemma CongMod(x: int, v: int)
    requires Cong(x, v)
    ensures Cong(x, v % PRIME)
  {
  }

  method Sum(o: array<int64>, a: array<int64>, b: array<int64>, ghost va: int, ghost vb: int)
    requires Holds(a, va) && Holds(b, vb) && o.Length == 16
    modifies o
    ensures HoldsLoosely(o, FAdd(va, vb))
  {
    ghost var x, y := Val(a[..]), Val(b[..]);
    Add(o, a, b);
    CongAdd(x, va, y, vb);
    CongMod(x + y, va + vb);
  }

  method Difference(o: array<int64>, a: array<int64>, b: array<int64>, ghost va: int, ghost vb: int)
    requires Holds(a, va) && Holds(b, vb) && o.Length == 16
    modifies o
    ensures HoldsLoosely(o, FSub(va, vb))
  {
    ghost var x, y := Val(a[..]), Val(b[..]);
    Subtract(o, a, b);
    CongSub(x, va, y, vb);
    CongMod(x - y, va - vb);
  }

  method Product(o: array<int64>, a: array<int64>, b: array<int64>, ghost va: int, ghost vb: int)
    requires HoldsLoosely(a, va) && HoldsLoosely(b, vb) && o.Length == 16
    modifies o
    ensures Holds(o, FMul(va, vb)) && HoldsLoosely(o, FMul(va, vb))
  {
    ghost var x, y := Val(a[..]), Val(b[..]);
    MultMod(o, a, b);
    CongMul(x, va, y, vb);
    CongTrans(Val(o[..]), x * y, va * vb);
    CongMod(Val(o[..]), va * vb);
  }

  /** The first half of the loop body: from (x2, z2, x3, z3) to AA, BB, CB and DA. */
  method FirstHalf(a: array<int64>, b: array<int64>, c: array<int64>, d: array<int64>,
                   e: array<int64>, f: array<int64>, ghost s: Ladder)
    requires a != b && a != c && a != d && a != e && a != f
    requires b != c && b != d && b != e && b != f
    requires c != d && c != e && c != f && d != e && d != f && e != f
    requires Holds(a, s.x2) && Holds(b, s.x3) && Holds(c, s.z2) && Holds(d, s.z3)
    requires e.Length == f.Length == 16
    modifies a, b, c, d, e, f
    ensures Holds(d, FMul(FAdd(s.x2, s.z2), FAdd(s.x2, s.z2)))
    ensures Holds(f, FMul(FSub(s.x2, s.z2), FSub(s.x2, s.z2)))
    ensures Holds(a, FMul(FAdd(s.x3, s.z3), FSub(s.x2, s.z2)))
    ensures Holds(c, FMul(FSub(s.x3, s.z3), FAdd(s.x2, s.z2)))
  {
    ghost var A, B := FAdd(s.x2, s.z2), FSub(s.x2, s.z2);
    ghost var C, D := FAdd(s.x3, s.z3), FSub(s.x3, s.z3);
    Sum(e, a, c, s.x2, s.z2);
    Difference(a, a, c, s.x2, s.z2);
    Sum(c, b, d, s.x3, s.z3);
    Difference(b, b, d, s.x3, s.z3);
    Product(d, e, e, A, A);
    Product(f, a, a, B, B);
    Product(a, c, a, C, B);
    Product(c, b, e, D, A);
  }

  /** The second half: from AA, BB, CB and DA to the next (x2, z2, x3, z3). */
  method SecondHalf(a: array<int64>, b: array<int64>, c: array<int64>, d: array<int64>,
                    e: array<int64>, f: array<int64>, x: array<int64>, a24: array<int64>,
                    ghost aa: int, ghost bb: int, ghost cb: int, ghost da: int, ghost x1: int)
    requires a != b && a != c && a != d && a != e && a != f
    requires b != c && b != d && b != e && b != f
    requires c != d && c != e && c != f && d != e && d != f && e != f
    requires x !in {a, b, c, d, e, f} && a24 !in {a, b, c, d, e, f}
    requires Holds(d, aa) && Holds(f, bb) && Holds(a, cb) && Holds(c, da)
    requires HoldsLoosely(x, x1) && HoldsLoosely(a24, A24)
    requires b.Length == e.Length == 16
    modifies a, b, c, d, e
    ensures var E := FSub(aa, bb);
      && Holds(a, FMul(aa, bb))
      && Holds(c, FMul(E, FAdd(aa, FMul(A24, E))))
      && Holds(b, FMul(FAdd(da, cb), FAdd(da, cb)))
      && Holds(d, FMul(x1, FMul(FSub(da, cb), FSub(da, cb))))
  {
    ghost var E := FSub(aa, bb);
    Sum(e, a, c, cb, da);
    Difference(a, a, c, cb, da);
    Product(b, a, a, FSub(cb, da), FSub(cb, da));
    SquareOfNegated(cb, da);
    Difference(c, d, f, aa, bb);
    Product(a, c, a24, E, A24);
    Sum(a, a, d, FMul(E, A24), aa);
    Product(c, c, a, E, FAdd(aa, FMul(A24, E)));
    Product(a, d, f, aa, bb);
    Product(d, b, x, FMul(FSub(da, cb), FSub(da, cb)), x1);
    Product(b, e, e, FAdd(da, cb), FAdd(da, cb));
  }

  lemma SquareOfNegated(x: int, y: int)
    ensures FMul(FSub(x, y), FSub(x, y)) == FMul(FSub(y, x), FSub(y, x))
  {
    hide Cong;
    var u, v := FSub(x, y), FSub(y, x);
    CongOfMod(x - y);
    CongOfMod(y - x);
    CongMul(u, x - y, u, x - y);
    CongMul(v, y - x, v, y - x);
    assert (x - y) * (x - y) == (y - x) * (y - x);
    CongSym(v * v, (y - x) * (y - x));
    CongTrans(u * u, (x - y) * (x - y), v * v);
    ModOfCong(u * u, v * v);
  }

  lemma CongOfMod(x: int)
    ensures Cong(x % PRIME, x)
  {
  }

  lemma CanonicalProduct(x: int, va: int, vc: int)
    requires Cong(x, FMul(va, vc))
    ensures x % PRIME == FMul(va, vc)
  {
    var v := va * vc;
    assert Cong(x, v % PRIME);
  }

  lemma ModOfCong(x: int, y: int)
    requires Cong(x, y)
    ensures x % PRIME == y % PRIME
  {
  }

  /** The program's variables after bits 254..t: the RFC's, with the deferred swap already done. */
  ghost function Undeferred(r: Run): Ladder {
    Swap(r.swap, r.state)
  }

  /** Swapping on this bit after the previous bit's swap is swapping on their difference. */
  lemma SwapsCompose(k: int, x1: int, t: nat, r: Run)
    requires 0 <= r.swap <= 1
    ensures var bit := Bit(k, t);
      && Undeferred(Round(k, x1, t, r)) == Swap(bit, Step(x1, Swap(bit, Undeferred(r))))
      && 0 <= Round(k, x1, t, r).swap <= 1
  {
  }

  ghost predicate HoldsLadder(a: array<int64>, b: array<int64>, c: array<int64>, d: array<int64>, s: Ladder)
    reads a, b, c, d
  {
    Holds(a, s.x2) && Holds(b, s.x3) && Holds(c, s.z2) && Holds(d, s.z3)
  }

  method SwapLadder(a: array<int64>, b: array<int64>, c: array<int64>, d: array<int64>, r: int, ghost s: Ladder)
    requires a != b && a != c && a != d && b != c && b != d && c != d
    requires HoldsLadder(a, b, c, d, s) && 0 <= r <= 1
    modifies a, b, c, d
    ensures HoldsLadder(a, b, c, d, Swap(r, s))
  {
    Cswap(a, b, r);
    Cswap(c, d, r);
  }

  method LadderStep(a: array<int64>, b: array<int64>, c: array<int64>, d: array<int64>,
                    e: array<int64>, f: array<int64>, x: array<int64>, a24: array<int64>,
                    r: int, ghost x1: int, ghost s: Ladder)
    requires a != b && a != c && a != d && a != e && a != f
    requires b != c && b != d && b != e && b != f
    requires c != d && c != e && c != f && d != e && d != f && e != f
    requires x !in {a, b, c, d, e, f} && a24 !in {a, b, c, d, e, f}
    requires HoldsLadder(a, b, c, d, s) && e.Length == f.Length == 16
    requires HoldsLoosely(x, x1) && HoldsLoosely(a24, A24) && 0 <= r <= 1
    modifies a, b, c, d, e, f
    ensures HoldsLadder(a, b, c, d, Swap(r, Step(x1, Swap(r, s))))
  {
    SwapLadder(a, b, c, d, r, s);
    ghost var u := Swap(r, s);
    FirstHalf(a, b, c, d, e, f, u);
    SecondHalf(a, b, c, d, e, f, x, a24,
               FMul(FAdd(u.x2, u.z2), FAdd(u.x2, u.z2)), FMul(FSub(u.x2, u.z2), FSub(u.x2, u.z2)),
               FMul(FAdd(u.x3, u.z3), FSub(u.x2, u.z2)), FMul(FSub(u.x3, u.z3), FAdd(u.x2, u.z2)), x1);
    SwapLadder(a, b, c, d, r, Step(x1, u));
  }

  /** An element literal { lo, hi, 0, ... }. */
  method Literal(lo: int64, hi: int64) returns (o: array<int64>)
    requires 0 <= lo <= 65535 && 0 <= hi <= 65535
    ensures fresh(o) && Holds(o, lo as int + 65536 * hi as int)
  {
    o := new int64[16](i => if i == 0 then lo else if i == 1 then hi else 0);
    assert o[..] == [lo] + ([hi] + o[2..]);
    ValZero(o[2..]);
    assert ([lo] + ([hi] + o[2..]))[1..] == [hi] + o[2..];
    assert ([hi] + o[2..])[1..] == o[2..];
  }

  /** `memcpy` of the private key followed by the clamping of bytes 31 and 0. */
  method Clamp(privateKey: array<uint8>) returns (z: array<uint8>)
    requires privateKey.Length == 32
    ensures fresh(z) && z[..] == ClampedScalar(privateKey[..])
  {
    z := new uint8[32];
    var i := 0;
    while i < 32
      invariant 0 <= i <= 32
      invariant z[..i] == privateKey[..i]
    {
      z[i] := privateKey[i];
      i := i + 1;
    }
    assert z[..] == privateKey[..];
    z[31] := z[31] % 128;
    z[31] := if z[31] < 64 then z[31] + 64 else z[31];
    z[0] := z[0] - z[0] % 8;
  }

  method SharedSecret(shared: array<uint8>, privateKey: array<uint8>, publicKey: array<uint8>)
    requires shared.Length == privateKey.Length == publicKey.Length == 32
    modifies shared
    ensures shared[..] == Rfc7748.X25519(old(privateKey[..]), old(publicKey[..]))
  {
    ghost var kBytes, uBytes := privateKey[..], publicKey[..];
    ghost var k, x1 := DecodeScalar(kBytes), DecodeUCoordinate(uBytes);
    var z := Clamp(privateKey);
    var a, c := RunLadder(z, publicKey, k, x1);
    Finish(shared, a, c, Undeferred(Rounds(k, x1, 0)));
  }

  /** The public key of a private key: its multiple of the base point u = 9. */
  method DerivePublicKey(publicKey: array<uint8>, privateKey: array<uint8>)
    requires publicKey.Length == privateKey.Length == 32
    modifies publicKey
    ensures publicKey[..] == Rfc7748.X25519(old(privateKey[..]), [9] + seq(31, i => 0))
  {
    var base := new uint8[32](i => if i == 0 then 9 else 0);
    assert base[..] == [9] + seq(31, i => 0);
    SharedSecret(publicKey, privateKey, base);
  }

  /** x2 times the inverse of z2, packed. */
  method Finish(shared: array<uint8>, a: array<int64>, c: array<int64>, ghost s: Ladder)
    requires shared.Length == 32 && a != c && Holds(a, s.x2) && Holds(c, s.z2)
    modifies shared, a, c
    ensures shared[..] == ToBytes(FMul(s.x2, Pow(s.z2, PRIME - 2)), 32)
  {
    Inverse(c, s.z2);
    ProductBytes(shared, a, c, s.x2, Pow(s.z2, PRIME - 2));
  }

  method Inverse(c: array<int64>, ghost v: int)
    requires Holds(c, v)
    modifies c
    ensures Holds(c, Pow(v, PRIME - 2))
  {
    ghost var vc := Val(c[..]);
    Invert(c, c);
    CongPow(vc, v, PRIME - 2);
    CongTrans(Val(c[..]), Pow(vc, PRIME - 2), Pow(v, PRIME - 2));
  }

  method ProductBytes(shared: array<uint8>, a: array<int64>, c: array<int64>, ghost va: int, ghost vc: int)
    requires shared.Length == 32 && Holds(a, va) && Holds(c, vc)
    modifies shared, a
    ensures shared[..] == ToBytes(FMul(va, vc), 32)
  {
    hide Cong, FMul;
    Product(a, a, c, va, vc);
    CanonicalProduct(Val(a[..]), va, vc);
    Pack(shared, a);
  }

  method RunLadder(z: array<uint8>, publicKey: array<uint8>, ghost k: int, ghost x1: int)
    returns (a: array<int64>, c: array<int64>)
    requires z.Length == publicKey.Length == 32
    requires k == LittleEndian(z[..]) && x1 == DecodeUCoordinate(publicKey[..])
    ensures fresh(a) && fresh(c) && a != c
    ensures Holds(a, Undeferred(Rounds(k, x1, 0)).x2)
    ensures Holds(c, Undeferred(Rounds(k, x1, 0)).z2)
  {
    a := Literal(1, 0);
    c := Literal(0, 0);
    var d := Literal(1, 0);
    var a24 := Literal(0xdb41, 1);
    var x := new int64[16];
    Unpack(x, publicKey);
    var b := new int64[16];
    Copy(b, x);
    assert x[..16] == x[..];
    assert Holds(x, x1) && Holds(b, x1);
    LadderLoop(a, b, c, d, x, a24, z, k, x1);
  }

  /** The loop over bits 254..0. */
  method LadderLoop(a: array<int64>, b: array<int64>, c: array<int64>, d: array<int64>,
                    x: array<int64>, a24: array<int64>, z: array<uint8>, ghost k: int, ghost x1: int)
    requires a != b && a != c && a != d && b != c && b != d && c != d
    requires x !in {a, b, c, d} && a24 !in {a, b, c, d}
    requires z.Length == 32 && k == LittleEndian(z[..])
    requires HoldsLadder(a, b, c, d, Ladder(1, 0, x1, 1))
    requires HoldsLoosely(x, x1) && HoldsLoosely(a24, A24)
    modifies a, b, c, d
    ensures HoldsLadder(a, b, c, d, Undeferred(Rounds(k, x1, 0)))
  {
    hide Step, HoldsLadder, HoldsLoosely;
    var e, f := new int64[16], new int64[16];
    ghost var run := Run(Ladder(1, 0, x1, 1), 0);
    var i := 254;
    while i >= 0
      invariant -1 <= i <= 254
      invariant run == Rounds(k, x1, i + 1) && 0 <= run.swap <= 1
      invariant HoldsLadder(a, b, c, d, Undeferred(run))
      invariant HoldsLoosely(x, x1) && HoldsLoosely(a24, A24)
    {
      var r := Bit(z[i / 8] as int, i % 8);
      BitOfBytes(z[..], i);
      SwapsCompose(k, x1, i, run);
      LadderStep(a, b, c, d, e, f, x, a24, r, x1, Undeferred(run));
      run := Round(k, x1, i, run);
      i := i - 1;
    }
  }
}
