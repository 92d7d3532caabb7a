/**
 The X25519 function of section 5 of RFC 7748, over integers modulo 2^255-19:
 decoding, the Montgomery ladder with its deferred conditional swap, and the
 final division by raising to the power p-2.
 */
module Rfc7748 {
  import opened TwosComplement
  import opened Limbs
  import opened FieldElement

  const A24: int := 121665

  ghost function FAdd(x: int, y: int): int { (x + y) % PRIME }

  ghost function FSub(x: int, y: int): int { (x - y) % PRIME }

  ghost function FMul(x: int, y: int): int { (x * y) % PRIME }

  datatype Ladder = Ladder(x2: int, z2: int, x3: int, z3: int)

  ghost function Swap(swap: int, s: Ladder): Ladder {
    if swap == 1 then Ladder(s.x3, s.z3, s.x2, s.z2) else s
  }

  ghost function Step(x1: int, s: Ladder): Ladder {
    var a := FAdd(s.x2, s.z2);
    var aa := FMul(a, a);
    var b := FSub(s.x2, s.z2);
    var bb := FMul(b, b);
    var e := FSub(aa, bb);
    var c := FAdd(s.x3, s.z3);
    var d := FSub(s.x3, s.z3);
    var da := FMul(d, a);
    var cb := FMul(c, b);
    Ladder(FMul(aa, bb),
           FMul(e, FAdd(aa, FMul(A24, e))),
           FMul(FAdd(da, cb), FAdd(da, cb)),
           FMul(x1, FMul(FSub(da, cb), FSub(da, cb))))
  }

  /** k >> t. */
  function ShiftRight(k: int, t: nat): int
    decreases t
  {
    if t == 0 then k else ShiftRight(k / 2, t - 1)
  }

  function Bit(k: int, t: nat): int {
    ShiftRight(k, t) % 2
  }

  datatype Run = Run(state: Ladder, swap: int)

  /** One turn of the RFC's loop for bit t: the swap is decided by this bit and the last one. */
  ghost function Round(k: int, x1: int, t: nat, r: Run): Run {
    var bit := Bit(k, t);
    Run(Step(x1, Swap((r.swap + bit) % 2, r.state)), bit)
  }

  /** The loop's variables once bits 254 down to t have been processed. */
  ghost function Rounds(k: int, x1: int, t: nat): Run
    requires t <= 255
    decreases 255 - t
  {
    if t == 255 then Run(Ladder(1, 0, x1, 1), 0)
    else Round(k, x1, t, Rounds(k, x1, t + 1))
  }

  ghost function ClampedScalar(k: seq<uint8>): seq<uint8>
    requires |k| == 32
  {
    k[0 := k[0] - k[0] % 8][31 := k[31] % 64 + 64]
  }

  ghost function DecodeScalar(k: seq<uint8>): int
    requires |k| == 32
  {
    LittleEndian(ClampedScalar(k))
  }

  ghost function DecodeUCoordinate(u: seq<uint8>): int
    requires |u| == 32
  {
    LittleEndian(u[31 := u[31] % 128])
  }

  ghost function X25519(k: seq<uint8>, u: seq<uint8>): seq<uint8>
    requires |k| == |u| == 32
  {
    var r := Rounds(DecodeScalar(k), DecodeUCoordinate(u), 0);
    var s := Swap(r.swap, r.state);
    ToBytes(FMul(s.x2, Pow(s.z2, PRIME - 2)), 32)
  }

  /** Clamping is idempotent, so a key clamped at generation is the key that is used. */
  lemma ClampedKeyIsSameKey(k: seq<uint8>, u: seq<uint8>)
    requires |k| == |u| == 32
    ensures X25519(ClampedScalar(k), u) == X25519(k, u)
  {
    assert ClampedScalar(ClampedScalar(k)) == ClampedScalar(k);
  }

  // ----- bits of a byte string -----

  /** Bit t of the scalar is bit t%8 of byte t/8. */
  lemma {:induction false} BitOfBytes(s: seq<uint8>, t: nat)
    requires t < 8 * |s|
    ensures Bit(LittleEndian(s), t) == Bit(s[t / 8] as int, t % 8)
  {
    var rest := LittleEndian(s[1..]);
    if t < 8 {
      BitBelow(s[0] as int, rest, 8, t);
      Pow2By4(0);
      Pow2By4(4);
    } else {
      BitOfBytes(s[1..], t - 8);
      ShiftByByte(LittleEndian(s), t - 8);
      assert LittleEndian(s) / 256 == rest;
      assert s[1..][(t - 8) / 8] == s[t / 8];
    }
  }

  lemma {:induction false} BitBelow(b: int, r: int, n: nat, t: nat)
    requires t < n
    decreases n
    ensures Bit(b + Pow2(n) * r, t) == Bit(b, t)
  {
    var p := Pow2(n - 1) * r;
    assert Pow2(n) * r == 2 * p;
    if t > 0 {
      assert (b + 2 * p) / 2 == b / 2 + p;
      BitBelow(b / 2, r, n - 1, t - 1);
    }
  }

  lemma ShiftByByte(v: int, t: nat)
    ensures ShiftRight(v, t + 8) == ShiftRight(v / 256, t)
  {
    ShiftBy4(v, t + 4);
    ShiftBy4(v / 16, t);
  }

  lemma ShiftBy4(v: int, t: nat)
    ensures ShiftRight(v, t + 4) == ShiftRight(v / 16, t)
  {
    assert ShiftRight(v, t + 4) == ShiftRight(v / 4, t + 2);
  }
}
