/**
 The constant-time key codec of key.c, written with C's operators on signed
 integers. The reference is RFC 4648: section 4 for base64, section 8 for hex.
 */
module KeyCodec {
  import opened TwosComplement

  // ----- RFC 4648 -----

  /** The base64 alphabet, table 1 of RFC 4648. */
  function Alphabet(d: int): uint8
    requires 0 <= d < 64
  {
    if d < 26 then (65 + d) as uint8
    else if d < 52 then (97 + d - 26) as uint8
    else if d < 62 then (48 + d - 52) as uint8
    else if d == 62 then 43
    else 47
  }

  predicate InAlphabet(c: uint8) {
    65 <= c <= 90 || 97 <= c <= 122 || 48 <= c <= 57 || c == 43 || c == 47
  }

  function Index(c: uint8): (d: int)
    requires InAlphabet(c)
    ensures 0 <= d < 64 && Alphabet(d) == c
  {
    if 65 <= c <= 90 then c as int - 65
    else if 97 <= c <= 122 then c as int - 71
    else if 48 <= c <= 57 then c as int + 4
    else if c == 43 then 62
    else 63
  }

  lemma IndexOfAlphabet(d: int)
    requires 0 <= d < 64
    ensures InAlphabet(Alphabet(d)) && Index(Alphabet(d)) == d
  {
  }

  function Group(b0: uint8, b1: uint8, b2: uint8): int {
    65536 * b0 as int + 256 * b1 as int + b2 as int
  }

  /** Digit i of a 24-bit group, most significant first. */
  function GroupDigit(g: int, i: nat): (d: int)
    requires i < 4
    ensures 0 <= d < 64
  {
    if i == 0 then g / 262144 % 64
    else if i == 1 then g / 4096 % 64
    else if i == 2 then g / 64 % 64
    else g % 64
  }

  /** A 24-bit group as four characters. */
  function Quad(b0: uint8, b1: uint8, b2: uint8): (q: seq<uint8>)
    ensures |q| == 4
  {
    var g := Group(b0, b1, b2);
    seq(4, i requires 0 <= i < 4 => Alphabet(GroupDigit(g, i)))
  }

  /** Base64 with padding. */
  function Base64(s: seq<uint8>): seq<uint8> {
    if |s| == 0 then []
    else if |s| == 1 then Quad(s[0], 0, 0)[..2] + [61, 61]
    else if |s| == 2 then Quad(s[0], s[1], 0)[..3] + [61]
    else Quad(s[0], s[1], s[2]) + Base64(s[3..])
  }

  // ----- the branch-free formulas -----

  /** (x >> 8) & v for a small x: the sign of x selects v or 0. */
  function SignMasked(x: int, v: int): int {
    And(x / 256, v)
  }

  lemma SignSelects(x: int, v: int)
    requires -256 <= x < 256
    ensures SignMasked(x, v) == if x < 0 then v else 0
  {
    AndMask(x / 256, v);
  }

  function EncodeFormula(d: int): int {
    d + 65 + SignMasked(25 - d, 6) - SignMasked(51 - d, 75) - SignMasked(61 - d, 15) + SignMasked(62 - d, 3)
  }

  lemma EncodeFormulaIsAlphabet(d: int)
    requires 0 <= d < 64
    ensures EncodeFormula(d) == Alphabet(d) as int
  {
    hide SignMasked;
    SignSelects(25 - d, 6);
    SignSelects(51 - d, 75);
    SignSelects(61 - d, 15);
    SignSelects(62 - d, 3);
  }

  /** A `char` promoted to int: signed on some platforms, unsigned on others. */
  function Promoted(c: uint8, signed: bool): int {
    if signed && c >= 128 then c as int - 256 else c as int
  }

  /** One term of the decoder: v if lo <= s <= hi, else 0, from the signs of two differences. */
  function InRange(s: int, lo: int, hi: int, v: int): int {
    SignMasked(And((lo - 1) - s, s - (hi + 1)), v)
  }

  lemma InRangeSelects(s: int, lo: int, hi: int, v: int)
    requires -128 <= s < 256 && 0 < lo <= hi < 128
    ensures InRange(s, lo, hi, v) == if lo <= s <= hi then v else 0
  {
    AndSign((lo - 1) - s, s - (hi + 1));
    Pow2Of8();
    AndRange((lo - 1) - s, s - (hi + 1), 8);
    SignSelects(And((lo - 1) - s, s - (hi + 1)), v);
  }

  lemma Pow2Of8()
    ensures Pow2(8) == 256 && Pow2(6) == 64 && Pow2(4) == 16 && Pow2(2) == 4
  {
    assert Pow2(2) == 4;
    assert Pow2(4) == 4 * Pow2(2);
    assert Pow2(6) == 4 * Pow2(4);
    assert Pow2(8) == 4 * Pow2(6);
  }

  function DecodeFormula(s: int): int {
    -1 + InRange(s, 65, 90, s - 64) + InRange(s, 97, 122, s - 70) + InRange(s, 48, 57, s + 5)
    + InRange(s, 43, 43, 63) + InRange(s, 47, 47, 64)
  }

  lemma DecodeFormulaIsIndex(c: uint8, signed: bool)
    ensures DecodeFormula(Promoted(c, signed)) == if InAlphabet(c) then Index(c) else -1
  {
    hide InRange;
    var s := Promoted(c, signed);
    InRangeSelects(s, 65, 90, s - 64);
    InRangeSelects(s, 97, 122, s - 70);
    InRangeSelects(s, 48, 57, s + 5);
    InRangeSelects(s, 43, 43, 63);
    InRangeSelects(s, 47, 47, 64);
  }

  // ----- base64 -----

  /** The four `input` digits of `encode_base64`, with its shifts and masks. */
  function Digit(b0: uint8, b1: uint8, b2: uint8, i: nat): int
    requires i < 4
  {
    if i == 0 then And(b0 as int / 4, 63)
    else if i == 1 then And(Or(b0 as int * 16, b1 as int / 16), 63)
    else if i == 2 then And(Or(b1 as int * 4, b2 as int / 64), 63)
    else And(b2 as int, 63)
  }

  lemma DigitOfGroup(b0: uint8, b1: uint8, b2: uint8, i: nat)
    requires i < 4
    ensures Digit(b0, b1, b2, i) == GroupDigit(Group(b0, b1, b2), i)
  {
    hide And, Or, Pow2, GroupDigit;
    Pow2Of8();
    var x0, x1, x2 := b0 as int, b1 as int, b2 as int;
    GroupDigitOfBytes(x0, x1, x2, i);
    if i == 0 {
      AndLowMask(x0 / 4, 6);
    } else if i == 1 {
      OrDisjoint(x0 * 16, x1 / 16, 4);
      AndLowMask(x0 * 16 + x1 / 16, 6);
    } else if i == 2 {
      OrDisjoint(x1 * 4, x2 / 64, 2);
      AndLowMask(x1 * 4 + x2 / 64, 6);
    } else {
      AndLowMask(x2, 6);
    }
  }

  lemma GroupDigitOfBytes(x0: int, x1: int, x2: int, i: nat)
    requires 0 <= x0 < 256 && 0 <= x1 < 256 && 0 <= x2 < 256 && i < 4
    ensures GroupDigit(65536 * x0 + 256 * x1 + x2, i)
      == if i == 0 then x0 / 4 % 64
         else if i == 1 then (x0 * 16 + x1 / 16) % 64
         else if i == 2 then (x1 * 4 + x2 / 64) % 64
         else x2 % 64
  {
    var g := 65536 * x0 + 256 * x1 + x2;
    if i == 0 {
      Quotient(g, 262144, x0 / 4, 65536 * (x0 % 4) + 256 * x1 + x2);
    } else if i == 1 {
      Quotient(g, 4096, 16 * x0 + x1 / 16, 256 * (x1 % 16) + x2);
    } else if i == 2 {
      Quotient(g, 64, 1024 * x0 + 4 * x1 + x2 / 64, x2 % 64);
      Quotient(1024 * x0 + 4 * x1 + x2 / 64, 64, 16 * x0 + (4 * x1 + x2 / 64) / 64, (4 * x1 + x2 / 64) % 64);
    } else {
      Quotient(g, 64, 1024 * x0 + 4 * x1 + x2 / 64, x2 % 64);
    }
  }

  lemma PrintedDigit(b0: uint8, b1: uint8, b2: uint8, i: nat)
    requires i < 4
    ensures EncodeFormula(Digit(b0, b1, b2, i)) == Quad(b0, b1, b2)[i] as int
  {
    hide Digit, EncodeFormula, Alphabet, GroupDigit, Group;
    DigitOfGroup(b0, b1, b2, i);
    EncodeFormulaIsAlphabet(Digit(b0, b1, b2, i));
  }

  method EncodeBase64(dest: array<uint8>, at: nat, b0: uint8, b1: uint8, b2: uint8)
    requires at + 4 <= dest.Length
    modifies dest
    ensures dest[..] == old(dest[..at]) + Quad(b0, b1, b2) + old(dest[at + 4..])
  {
    hide Quad;
    var i := 0;
    while i < 4
      invariant 0 <= i <= 4
      invariant forall j :: 0 <= j < dest.Length && !(at <= j < at + i) ==> dest[j] == old(dest[j])
      invariant forall j :: 0 <= j < i ==> dest[at + j] == Quad(b0, b1, b2)[j]
    {
      hide Digit, EncodeFormula;
      PrintedDigit(b0, b1, b2, i);
      dest[at + i] := EncodeFormula(Digit(b0, b1, b2, i)) as uint8;
      i := i + 1;
    }
  }

  method KeyToBase64(base64: array<uint8>, key: array<uint8>)
    requires base64.Length == 45 && key.Length == 32 && base64 != key
    modifies base64
    ensures base64[..] == Base64(key[..]) + [0]
  {
    hide Quad;
    hide Base64;
    var i := 0;
    assert key[0..] == key[..];
    while i < 10
      invariant 0 <= i <= 10
      invariant base64[..4 * i] + Base64(key[3 * i..]) == Base64(key[..])
    {
      ghost var before := base64[..];
      ghost var quad := Quad(key[i * 3], key[i * 3 + 1], key[i * 3 + 2]);
      EncodeBase64(base64, i * 4, key[i * 3], key[i * 3 + 1], key[i * 3 + 2]);
      assert base64[..4 * (i + 1)] == before[..4 * i] + quad;
      Base64Cons(key[3 * i..]);
      assert key[3 * i..][3..] == key[3 * (i + 1)..];
      assert Base64(key[3 * i..]) == quad + Base64(key[3 * (i + 1)..]);
      assert before[..4 * i] + (quad + Base64(key[3 * (i + 1)..]))
          == base64[..4 * (i + 1)] + Base64(key[3 * (i + 1)..]);
      i := i + 1;
    }
    ghost var before := base64[..40];
    EncodeBase64(base64, i * 4, key[i * 3], key[i * 3 + 1], 0);
    base64[43] := 61;
    base64[44] := 0;
    assert base64[..40] == before;
    Base64Pair(key[30..]);
    assert base64[..] == before + Base64(key[30..]) + [0];
  }

  lemma Base64Cons(s: seq<uint8>)
    requires |s| >= 3
    ensures Base64(s) == Quad(s[0], s[1], s[2]) + Base64(s[3..])
  {
  }

  lemma Base64Pair(s: seq<uint8>)
    requires |s| == 2
    ensures Base64(s) == Quad(s[0], s[1], 0)[..3] + [61]
  {
  }

  /** 1 << (18 - 6 * i). */
  function Place(i: nat): int
    requires i < 4
  {
    if i == 0 then 262144 else if i == 1 then 4096 else if i == 2 then 64 else 1
  }

  /** The group value of the first i of four digits. */
  function Partial(d: seq<int>, i: nat): int
    requires |d| == 4 && i <= 4
  {
    if i == 0 then 0
    else if i == 1 then 262144 * d[0]
    else if i == 2 then 262144 * d[0] + 4096 * d[1]
    else if i == 3 then 262144 * d[0] + 4096 * d[1] + 64 * d[2]
    else 262144 * d[0] + 4096 * d[1] + 64 * d[2] + d[3]
  }

  predicate ValidDigits(d: seq<int>, i: nat) {
    i <= |d| && forall j :: 0 <= j < i ==> 0 <= d[j] < 64
  }

  function DigitOf(c: uint8): int {
    if InAlphabet(c) then Index(c) else -1
  }

  function DigitsOf(s: seq<uint8>): seq<int>
    requires |s| == 4
  {
    [DigitOf(s[0]), DigitOf(s[1]), DigitOf(s[2]), DigitOf(s[3])]
  }

  method DecodeBase64(src: seq<uint8>, signed: bool) returns (val: int)
    requires |src| == 4
    ensures ValidDigits(DigitsOf(src), 4) ==> val == Partial(DigitsOf(src), 4)
    ensures !ValidDigits(DigitsOf(src), 4) ==> val < 0
  {
    hide Or, DecodeFormula, Partial;
    ghost var d := DigitsOf(src);
    val := 0;
    var i := 0;
    PartialStart(d);
    while i < 4
      invariant 0 <= i <= 4
      invariant ValidDigits(d, i) ==> val == Partial(d, i)
      invariant !ValidDigits(d, i) ==> val < 0
    {
      DecodeFormulaIsIndex(src[i], signed);
      var term := DecodeFormula(Promoted(src[i], signed)) * Place(i);
      if ValidDigits(d, i + 1) {
        AddDigit(d, i);
      } else {
        OrSign(val, term);
      }
      val := Or(val, term);
      i := i + 1;
    }
  }

  lemma PartialStart(d: seq<int>)
    requires |d| == 4
    ensures Partial(d, 0) == 0
  {
  }

  lemma AddDigit(d: seq<int>, i: nat)
    requires |d| == 4 && i < 4 && ValidDigits(d, i + 1)
    ensures Or(Partial(d, i), d[i] * Place(i)) == Partial(d, i + 1)
  {
    hide Or, Pow2;
    PlaceIsPower(i);
    OrDisjoint(Partial(d, i), d[i] * Place(i), 24 - 6 * i);
  }

  lemma PlaceIsPower(i: nat)
    requires i < 4
    ensures Pow2(24 - 6 * i) == 64 * Place(i)
    ensures i > 0 ==> Pow2(24 - 6 * i) == Place(i - 1)
  {
    Pow2By6(0);
    Pow2By6(6);
    Pow2By6(12);
    Pow2By6(18);
  }

  lemma Pow2By6(n: nat)
    ensures Pow2(n + 6) == 64 * Pow2(n)
  {
    assert Pow2(n + 2) == 4 * Pow2(n);
    assert Pow2(n + 2 + 2) == 4 * Pow2(n + 2);
    assert Pow2(n + 4 + 2) == 4 * Pow2(n + 4);
  }

  /** Decoding a printed group gives the group back. */
  lemma DecodeOfQuad(b0: uint8, b1: uint8, b2: uint8)
    ensures ValidDigits(DigitsOf(Quad(b0, b1, b2)), 4)
    ensures Partial(DigitsOf(Quad(b0, b1, b2)), 4) == Group(b0, b1, b2)
  {
    var g, q := Group(b0, b1, b2), Quad(b0, b1, b2);
    IndexOfAlphabet(GroupDigit(g, 0));
    IndexOfAlphabet(GroupDigit(g, 1));
    IndexOfAlphabet(GroupDigit(g, 2));
    IndexOfAlphabet(GroupDigit(g, 3));
    var d := DigitsOf(q);
    assert d[0] == GroupDigit(g, 0) && d[1] == GroupDigit(g, 1) && d[2] == GroupDigit(g, 2) && d[3] == GroupDigit(g, 3);
    DigitsOfValue(g);
  }

  lemma DigitsOfValue(g: int)
    requires 0 <= g < 16777216
    ensures g == 262144 * GroupDigit(g, 0) + 4096 * GroupDigit(g, 1) + 64 * GroupDigit(g, 2) + GroupDigit(g, 3)
  {
    var h1, h2, h3 := g / 64, g / 4096, g / 262144;
    assert h2 == h1 / 64 && h3 == h2 / 64;
  }

  function ByteOf(val: int, i: nat): uint8
    requires i < 3
  {
    if i == 0 then (val / 65536 % 256) as uint8 else if i == 1 then (val / 256 % 256) as uint8 else (val % 256) as uint8
  }

  lemma GroupOfBytes(val: int)
    requires 0 <= val < 16777216
    ensures Group(ByteOf(val, 0), ByteOf(val, 1), ByteOf(val, 2)) == val
  {
    assert val / 65536 == val / 256 / 256;
  }

  lemma BytesOfGroup(b0: uint8, b1: uint8, b2: uint8)
    ensures ByteOf(Group(b0, b1, b2), 0) == b0
    ensures ByteOf(Group(b0, b1, b2), 1) == b1
    ensures ByteOf(Group(b0, b1, b2), 2) == b2
  {
    var g := Group(b0, b1, b2);
    assert g / 256 == 256 * b0 as int + b1 as int;
    assert g / 65536 == b0 as int;
  }

  /** Printing a decoded group gives the characters back. */
  lemma QuadOfDecode(c: seq<uint8>, val: int)
    requires |c| == 4 && ValidDigits(DigitsOf(c), 4) && val == Partial(DigitsOf(c), 4)
    ensures 0 <= val < 16777216
    ensures Quad(ByteOf(val, 0), ByteOf(val, 1), ByteOf(val, 2)) == c
  {
    hide ByteOf, Group, Index;
    var d := DigitsOf(c);
    PartialRange(d);
    GroupOfBytes(val);
    DigitOfPartial(d);
    assert d[0] == DigitOf(c[0]) && d[1] == DigitOf(c[1]) && d[2] == DigitOf(c[2]) && d[3] == DigitOf(c[3]);
  }

  lemma PartialRange(d: seq<int>)
    requires |d| == 4 && ValidDigits(d, 4)
    ensures 0 <= Partial(d, 4) < 16777216
  {
    assert 0 <= d[0] < 64 && 0 <= d[1] < 64 && 0 <= d[2] < 64 && 0 <= d[3] < 64;
  }

  lemma DigitOfPartial(d: seq<int>)
    requires |d| == 4 && ValidDigits(d, 4)
    ensures forall i :: 0 <= i < 4 ==> GroupDigit(Partial(d, 4), i) == d[i]
  {
    var g := Partial(d, 4);
    assert 0 <= d[0] < 64 && 0 <= d[1] < 64 && 0 <= d[2] < 64 && 0 <= d[3] < 64;
    assert g / 64 == 4096 * d[0] + 64 * d[1] + d[2];
    assert g / 4096 == 64 * d[0] + d[1];
    assert g / 262144 == d[0];
  }

  /** Group j of a printed key whose length leaves a two-byte tail. */
  lemma {:induction false} Base64Group(s: seq<uint8>, j: nat)
    requires |s| % 3 == 2 && j < |s| / 3
    ensures |Base64(s)| == 4 * (|s| / 3) + 4
    ensures Base64(s)[4 * j..4 * j + 4] == Quad(s[3 * j], s[3 * j + 1], s[3 * j + 2])
  {
    hide Quad;
    var rest := s[3..];
    Base64Length(rest);
    if j > 0 {
      Base64Group(rest, j - 1);
      assert Base64(s)[4 * j..4 * j + 4] == Base64(rest)[4 * (j - 1)..4 * (j - 1) + 4];
    }
  }

  lemma {:induction false} Base64Length(s: seq<uint8>)
    requires |s| % 3 == 2
    ensures |Base64(s)| == 4 * (|s| / 3) + 4
  {
    hide Quad;
    if |s| > 2 { Base64Length(s[3..]); }
  }

  lemma {:induction false} Base64Tail(s: seq<uint8>)
    requires |s| % 3 == 2
    ensures |Base64(s)| == 4 * (|s| / 3) + 4
    ensures Base64(s)[4 * (|s| / 3)..] == Quad(s[|s| - 2], s[|s| - 1], 0)[..3] + [61]
  {
    hide Quad;
    if |s| > 2 {
      var rest := s[3..];
      Base64Tail(rest);
      assert Base64(s)[4 * (|s| / 3)..] == Base64(rest)[4 * (|rest| / 3)..];
    }
  }

  predicate GroupDecodes(text: seq<uint8>, j: nat)
    requires 4 * j + 4 <= |text|
  {
    ValidDigits(DigitsOf(text[4 * j..4 * j + 4]), 4)
  }

  /** The last, two-byte group as key_from_base64 decodes it: its padding is read as digit 0. */
  function TailGroup(text: seq<uint8>): seq<uint8>
    requires |text| == 44
  {
    [text[40], text[41], text[42], 65]
  }

  predicate TailDecodes(text: seq<uint8>)
    requires |text| == 44
  {
    var d := DigitsOf(TailGroup(text));
    ValidDigits(d, 4) && Partial(d, 4) % 256 == 0
  }

  /** A text all of whose groups decode is the print of the decoded bytes. */
  lemma Assembled(key: seq<uint8>, text: seq<uint8>)
    requires |key| == 32 && |text| == 44 && text[43] == 61
    requires forall j :: 0 <= j < 10 ==> Quad(key[3 * j], key[3 * j + 1], key[3 * j + 2]) == text[4 * j..4 * j + 4]
    requires Quad(key[30], key[31], 0)[..3] == text[40..43]
    ensures Base64(key) == text
  {
    hide Quad, Base64;
    var printed := Base64(key);
    Base64Tail(key);
    forall x | 0 <= x < 44 ensures printed[x] == text[x] {
      if x < 40 {
        var j := x / 4;
        Base64Group(key, j);
        assert printed[4 * j..4 * j + 4][x % 4] == printed[x];
        assert text[4 * j..4 * j + 4][x % 4] == text[x];
      } else {
        assert printed[40..][x - 40] == printed[x];
        assert x < 43 ==> text[40..43][x - 40] == text[x];
      }
    }
  }

  /** Every printed key decodes, group by group. */
  lemma PrintedKeyDecodes(k: seq<uint8>, text: seq<uint8>)
    requires |k| == 32 && text == Base64(k)
    ensures |text| == 44 && text[43] == 61
    ensures forall j :: 0 <= j < 10 ==> GroupDecodes(text, j)
    ensures TailDecodes(text)
  {
    hide Quad, Base64, Partial, ValidDigits, DigitsOf;
    Base64Tail(k);
    forall j | 0 <= j < 10 ensures GroupDecodes(text, j) {
      Base64Group(k, j);
      DecodeOfQuad(k[3 * j], k[3 * j + 1], k[3 * j + 2]);
    }
    DecodeOfQuad(k[30], k[31], 0);
    var q := Quad(k[30], k[31], 0);
    assert text[40..] == q[..3] + [61];
    assert text[40] == text[40..][0] && text[41] == text[40..][1];
    assert text[42] == text[40..][2] && text[43] == text[40..][3];
    LastOfTail(k[30], k[31]);
    assert TailGroup(text) == q;
  }

  lemma LastOfTail(b0: uint8, b1: uint8)
    ensures Quad(b0, b1, 0)[3] == 65
    ensures Group(b0, b1, 0) % 256 == 0
  {
    var h := 256 * b0 as int + b1 as int;
    assert Group(b0, b1, 0) == 256 * h;
    assert GroupDigit(256 * h, 3) == 0;
  }

  /** (uint32_t)val >> 31. */
  function SignBit(val: int): int {
    if val < 0 then 1 else 0
  }

  /** (val >> 16) & 0xff and its two neighbours. */
  function MaskedByte(val: int, i: nat): int
    requires i < 3
  {
    And(if i == 0 then val / 65536 else if i == 1 then val / 256 else val, 255)
  }

  lemma MaskedByteIsByte(val: int, i: nat)
    requires i < 3
    ensures MaskedByte(val, i) == ByteOf(val, i) as int
  {
    hide And, Pow2;
    Pow2Of8();
    AndLowMask(if i == 0 then val / 65536 else if i == 1 then val / 256 else val, 8);
  }

  /** The flag byte collects failures: it stays zero exactly while no bit was set. */
  lemma Collect(ret: int, bit: int)
    requires 0 <= ret < 256 && 0 <= bit < 256
    ensures 0 <= Or(ret, bit) < 256
    ensures Or(ret, bit) == 0 <==> ret == 0 && bit == 0
  {
    hide And, Pow2;
    Pow2Of8();
    OrSign(ret, bit);
    OrZero(ret, bit);
    OrRange(ret, bit, 8);
  }

  /** 1 & ((ret - 1) >> 8). */
  lemma Verdict(ret: int)
    requires 0 <= ret < 256
    ensures And(1, (ret - 1) / 256) == if ret == 0 then 1 else 0
  {
  }

  ghost predicate GroupsDone(key: seq<uint8>, text: seq<uint8>, ret: int, n: nat)
    requires |key| == 32 && |text| == 44 && n <= 10
  {
    && 0 <= ret < 256
    && (ret == 0 <==> forall j :: 0 <= j < n ==> GroupDecodes(text, j))
    && forall j :: 0 <= j < n && GroupDecodes(text, j) ==>
         Quad(key[3 * j], key[3 * j + 1], key[3 * j + 2]) == text[4 * j..4 * j + 4]
  }

  method DecodeGroups(key: array<uint8>, text: seq<uint8>, signed: bool) returns (ret: int)
    requires key.Length == 32 && |text| == 44
    modifies key
    ensures GroupsDone(key[..], text, ret, 10)
  {
    hide Quad, Or, Partial, DigitsOf, ValidDigits, MaskedByte, ByteOf, SignBit;
    ret := 0;
    var i := 0;
    while i < 10
      invariant 0 <= i <= 10
      invariant GroupsDone(key[..], text, ret, i)
    {
      ghost var before := key[..];
      var val := DecodeBase64(text[4 * i..4 * i + 4], signed);
      StoreGroup(key, 3 * i, val);
      SignBitOf(val);
      Collect(ret, SignBit(val));
      if GroupDecodes(text, i) {
        QuadOfDecode(text[4 * i..4 * i + 4], val);
      }
      ghost var old_ret := ret;
      ret := Or(ret, SignBit(val));
      GroupAdded(before, key[..], text, old_ret, ret, i);
      i := i + 1;
    }
  }

  lemma SignBitOf(val: int)
    ensures 0 <= SignBit(val) < 256 && (SignBit(val) == 0 <==> val >= 0)
  {
  }

  method StoreGroup(key: array<uint8>, at: nat, val: int)
    requires at + 3 <= key.Length
    modifies key
    ensures forall k :: 0 <= k < key.Length && !(at <= k < at + 3) ==> key[k] == old(key[k])
    ensures key[at] == ByteOf(val, 0) && key[at + 1] == ByteOf(val, 1) && key[at + 2] == ByteOf(val, 2)
  {
    hide MaskedByte, ByteOf;
    MaskedByteIsByte(val, 0);
    MaskedByteIsByte(val, 1);
    MaskedByteIsByte(val, 2);
    key[at] := MaskedByte(val, 0) as uint8;
    key[at + 1] := MaskedByte(val, 1) as uint8;
    key[at + 2] := MaskedByte(val, 2) as uint8;
  }

  lemma GroupAdded(before: seq<uint8>, key: seq<uint8>, text: seq<uint8>, r: int, r': int, i: nat)
    requires |before| == |key| == 32 && |text| == 44 && i < 10
    requires GroupsDone(before, text, r, i) && key[..3 * i] == before[..3 * i] && 0 <= r' < 256
    requires r' == 0 <==> r == 0 && GroupDecodes(text, i)
    requires GroupDecodes(text, i) ==> Quad(key[3 * i], key[3 * i + 1], key[3 * i + 2]) == text[4 * i..4 * i + 4]
    ensures GroupsDone(key, text, r', i + 1)
  {
    hide Quad, GroupDecodes;
    forall j | 0 <= j < i
      ensures key[3 * j] == before[3 * j] && key[3 * j + 1] == before[3 * j + 1] && key[3 * j + 2] == before[3 * j + 2]
    {
      assert key[..3 * i][3 * j] == before[..3 * i][3 * j];
      assert key[..3 * i][3 * j + 1] == before[..3 * i][3 * j + 1];
      assert key[..3 * i][3 * j + 2] == before[..3 * i][3 * j + 2];
    }
  }

  method DecodeTail(key: array<uint8>, text: seq<uint8>, signed: bool) returns (bits: int)
    requires key.Length == 32 && |text| == 44
    modifies key
    ensures 0 <= bits < 256 && key[..30] == old(key[..30])
    ensures bits == 0 <==> TailDecodes(text)
    ensures TailDecodes(text) ==> Quad(key[30], key[31], 0)[..3] == text[40..43]
  {
    hide Quad, Or, Partial, DigitsOf, ValidDigits, MaskedByte, ByteOf, SignBit;
    var val := DecodeBase64(TailGroup(text), signed);
    MaskedByteIsByte(val, 0);
    MaskedByteIsByte(val, 1);
    MaskedByteIsByte(val, 2);
    LowByte(val);
    SignBitOf(val);
    Collect(SignBit(val), MaskedByte(val, 2));
    bits := Or(SignBit(val), MaskedByte(val, 2));
    key[30] := MaskedByte(val, 0) as uint8;
    key[31] := MaskedByte(val, 1) as uint8;
    if ValidDigits(DigitsOf(TailGroup(text)), 4) {
      QuadOfDecode(TailGroup(text), val);
      assert TailGroup(text)[..3] == text[40..43];
    }
  }

  lemma LowByte(val: int)
    ensures ByteOf(val, 2) as int == val % 256
  {
  }

  /** A string is accepted exactly when it is the print of some key, and that key is returned. */
  method KeyFromBase64(key: array<uint8>, base64: seq<uint8>, signed: bool) returns (ok: bool)
    requires key.Length == 32
    modifies key
    ensures ok <==> exists k: seq<uint8> :: |k| == 32 && Base64(k) == base64
    ensures ok ==> Base64(key[..]) == base64
  {
    hide Quad, Base64, Or, TailDecodes, GroupDecodes;
    if |base64| != 44 || base64[43] != 61 {
      forall k: seq<uint8> | |k| == 32 ensures Base64(k) != base64 {
        if Base64(k) == base64 { PrintedKeyDecodes(k, base64); }
      }
      return false;
    }
    var ret := DecodeGroups(key, base64, signed);
    ghost var decoded := key[..];
    var tail := DecodeTail(key, base64, signed);
    GroupsKept(decoded, key[..], base64, ret);
    Collect(ret, tail);
    ret := Or(ret, tail);
    Verdict(ret);
    ok := And(1, (ret - 1) / 256) == 1;
    if ok {
      Assembled(key[..], base64);
    } else {
      forall k: seq<uint8> | |k| == 32 ensures Base64(k) != base64 {
        if Base64(k) == base64 { PrintedKeyDecodes(k, base64); }
      }
    }
  }

  lemma GroupsKept(before: seq<uint8>, key: seq<uint8>, text: seq<uint8>, ret: int)
    requires |before| == |key| == 32 && |text| == 44
    requires GroupsDone(before, text, ret, 10) && key[..30] == before[..30]
    ensures GroupsDone(key, text, ret, 10)
  {
    hide Quad, GroupDecodes;
    forall j | 0 <= j < 10
      ensures key[3 * j] == before[3 * j] && key[3 * j + 1] == before[3 * j + 1] && key[3 * j + 2] == before[3 * j + 2]
    {
      assert key[..30][3 * j] == before[..30][3 * j];
      assert key[..30][3 * j + 1] == before[..30][3 * j + 1];
      assert key[..30][3 * j + 2] == before[..30][3 * j + 2];
    }
  }

  /** A printed key determines the key. */
  lemma Base64Injective(k: seq<uint8>, k': seq<uint8>)
    requires |k| == |k'| == 32 && Base64(k) == Base64(k')
    ensures k == k'
  {
    hide Quad, Base64;
    forall j | 0 <= j < 10
      ensures k[3 * j] == k'[3 * j] && k[3 * j + 1] == k'[3 * j + 1] && k[3 * j + 2] == k'[3 * j + 2]
    {
      Base64Group(k, j);
      Base64Group(k', j);
      QuadInjective(k[3 * j], k[3 * j + 1], k[3 * j + 2], k'[3 * j], k'[3 * j + 1], k'[3 * j + 2]);
    }
    Base64Tail(k);
    Base64Tail(k');
    LastOfTail(k[30], k[31]);
    LastOfTail(k'[30], k'[31]);
    var q, q' := Quad(k[30], k[31], 0), Quad(k'[30], k'[31], 0);
    assert q == (q[..3] + [61])[..3] + [65] && q' == (q'[..3] + [61])[..3] + [65];
    QuadInjective(k[30], k[31], 0, k'[30], k'[31], 0);
    forall i | 0 <= i < 32 ensures k[i] == k'[i] {
      if i < 30 {
        var j := i / 3;
        assert i == 3 * j || i == 3 * j + 1 || i == 3 * j + 2;
      }
    }
  }

  lemma QuadInjective(a0: uint8, a1: uint8, a2: uint8, b0: uint8, b1: uint8, b2: uint8)
    requires Quad(a0, a1, a2) == Quad(b0, b1, b2)
    ensures a0 == b0 && a1 == b1 && a2 == b2
  {
    hide Quad, Partial, DigitsOf, ByteOf;
    DecodeOfQuad(a0, a1, a2);
    DecodeOfQuad(b0, b1, b2);
    BytesOfGroup(a0, a1, a2);
    BytesOfGroup(b0, b1, b2);
  }

  // ----- hex -----

  /** The hex alphabet, table 5 of RFC 4648, in the lower case key.c prints. */
  function HexDigit(n: int): uint8
    requires 0 <= n < 16
  {
    if n < 10 then (48 + n) as uint8 else (87 + n) as uint8
  }

  predicate IsHexDigit(c: uint8) {
    48 <= c <= 57 || 65 <= c <= 70 || 97 <= c <= 102
  }

  function HexValue(c: uint8): (n: int)
    requires IsHexDigit(c)
    ensures 0 <= n < 16
  {
    if c <= 57 then c as int - 48 else if c <= 70 then c as int - 55 else c as int - 87
  }

  function Hex(s: seq<uint8>): seq<uint8> {
    if |s| == 0 then [] else [HexDigit(s[0] as int / 16), HexDigit(s[0] as int % 16)] + Hex(s[1..])
  }

  /** Conversion to a C `unsigned int` and to a `uint8_t`. */
  function U32(x: int): int { x % 0x1_0000_0000 }

  function U8(x: int): int { x % 256 }

  /** 87U + n + (((n - 10U) >> 8) & ~38U), stored into a char. */
  function HexFormula(n: int): int {
    U8(U32(87 + n + And(U32(n - 10) / 256, U32(Not(38)))))
  }

  lemma HexFormulaIsDigit(n: int)
    requires 0 <= n < 16
    ensures HexFormula(n) == HexDigit(n) as int
  {
    hide And, Pow2;
    if n < 10 {
      assert U32(n - 10) / 256 == 0xff_ffff;
      Pow2Of24();
      AndLowMask(U32(Not(38)), 24);
      AndCommutes(U32(Not(38)), 0xff_ffff);
    } else {
      AndZero(U32(Not(38)));
    }
  }

  lemma Pow2Of24()
    ensures Pow2(24) == 0x100_0000
  {
    Pow2By6(0);
    Pow2By6(6);
    Pow2By6(12);
    Pow2By6(18);
  }

  method PrintByte(hex: array<uint8>, at: nat, b: uint8)
    requires at + 2 <= hex.Length
    modifies hex
    ensures forall j :: 0 <= j < hex.Length && j != at && j != at + 1 ==> hex[j] == old(hex[j])
    ensures hex[at] == HexDigit(b as int / 16) && hex[at + 1] == HexDigit(b as int % 16)
  {
    hide HexFormula, HexDigit, And;
    LowNibble(b as int);
    HexFormulaIsDigit(b as int / 16);
    HexFormulaIsDigit(b as int % 16);
    hex[at] := HexFormula(b as int / 16) as uint8;
    hex[at + 1] := HexFormula(And(b as int, 15)) as uint8;
  }

  method KeyToHex(hex: array<uint8>, key: array<uint8>)
    requires hex.Length == 65 && key.Length == 32 && hex != key
    modifies hex
    ensures hex[..] == Hex(key[..]) + [0]
  {
    hide HexDigit, Hex;
    var i := 0;
    assert key[0..] == key[..];
    while i < 32
      invariant 0 <= i <= 32
      invariant hex[..2 * i] + Hex(key[i..]) == Hex(key[..])
    {
      ghost var before := hex[..2 * i];
      PrintByte(hex, 2 * i, key[i]);
      HexCons(key[i..]);
      assert key[i..][1..] == key[i + 1..];
      assert hex[..2 * (i + 1)] == before + [HexDigit(key[i] as int / 16), HexDigit(key[i] as int % 16)];
      assert before + Hex(key[i..]) == hex[..2 * (i + 1)] + Hex(key[i + 1..]);
      i := i + 1;
    }
    HexNil(key[32..]);
    hex[64] := 0;
    assert hex[..] == hex[..64] + [0];
  }

  lemma HexNil(s: seq<uint8>)
    requires |s| == 0
    ensures Hex(s) == []
  {
  }

  lemma HexCons(s: seq<uint8>)
    requires |s| > 0
    ensures Hex(s) == [HexDigit(s[0] as int / 16), HexDigit(s[0] as int % 16)] + Hex(s[1..])
  {
  }

  lemma LowNibble(x: int)
    ensures And(x, 15) == x % 16
  {
    hide And, Pow2;
    Pow2Of8();
    AndLowMask(x, 4);
  }

  // One character of key_from_hex: c_num, c_num0, c_alpha and c_alpha0 are uint8_t.

  function CNum(c: uint8): int { Xor(c as int, 48) }

  function CNum0(c: uint8): int { U8(U32(CNum(c) - 10) / 256) }

  function CAlpha(c: uint8): int { U8(U32(And(c as int, U32(Not(32))) - 55)) }

  function CAlpha0(c: uint8): int { U8(Xor(U32(CAlpha(c) - 10), U32(CAlpha(c) - 16)) / 256) }

  /** ((c_num0 | c_alpha0) - 1) >> 8. */
  function CBad(c: uint8): int { (Or(CNum0(c), CAlpha0(c)) - 1) / 256 }

  function CVal(c: uint8): int { Or(And(CNum0(c), CNum(c)), And(CAlpha0(c), CAlpha(c))) }

  /** Xor with 48 flips two bits of the high nibble, so only the decimal digits land below 10. */
  lemma CNumOf(c: uint8)
    ensures 48 <= c < 64 ==> CNum(c) == c as int - 48
    ensures !(48 <= c < 64) ==> 16 <= CNum(c) < 256
  {
    hide Xor;
    var x := c as int;
    XorHighNibble(x / 16, 3, x % 16);
    XorWith3(x / 16);
  }

  lemma XorWith3(h: int)
    requires 0 <= h < 16
    ensures 0 <= Xor(h, 3) < 16 && (Xor(h, 3) == 0 <==> h == 3)
  {
    XorUnfold(h, 3);
    XorUnfold(h / 2, 1);
    XorZero(h / 4);
  }

  lemma CNum0Of(c: uint8)
    ensures CNum0(c) == if 48 <= c <= 57 then 255 else 0
  {
    hide CNum, U8, U32;
    CNumOf(c);
    BelowTen(CNum(c));
  }

  lemma BelowTen(n: int)
    requires 0 <= n < 256
    ensures U8(U32(n - 10) / 256) == if n < 10 then 255 else 0
  {
    if n < 10 {
      assert U32(n - 10) == 0xffff_fff6 + n;
    }
  }

  /** c & ~32U clears bit 5: lower-case letters become upper case. */
  lemma Upper(c: uint8)
    ensures And(c as int, U32(Not(32))) == c as int - 32 * (c as int / 32 % 2)
  {
    hide And, Pow2;
    var x, m := c as int, 0x7ff_fffe;
    assert U32(Not(32)) == 32 * m + 31;
    AndLowFive(x / 32, m, x % 32);
    AndDouble(x / 64, m / 2, x / 32 % 2, 0);
    Pow2Of8();
    AndCovers(x / 64, m / 2, 2);
  }

  lemma CAlphaOf(c: uint8)
    ensures 0 <= CAlpha(c) < 256
    ensures 10 <= CAlpha(c) < 16 <==> 65 <= c <= 70 || 97 <= c <= 102
    ensures 65 <= c <= 70 ==> CAlpha(c) == c as int - 55
    ensures 97 <= c <= 102 ==> CAlpha(c) == c as int - 87
  {
    hide And, U8, U32;
    Upper(c);
    ShiftedAlpha(c as int, c as int / 32);
  }

  lemma ShiftedAlpha(x: int, b: int)
    requires 0 <= x < 256 && b == x / 32
    ensures var n := U8(U32(x - 32 * (b % 2) - 55));
      && 0 <= n < 256
      && (10 <= n < 16 <==> 65 <= x <= 70 || 97 <= x <= 102)
      && (65 <= x <= 70 ==> n == x - 55)
      && (97 <= x <= 102 ==> n == x - 87)
  {
    hide U8, U32;
    WrapToByte(x - 32 * (b % 2) - 55);
  }

  lemma WrapToByte(v: int)
    requires -256 <= v < 256
    ensures U8(U32(v)) == if v < 0 then v + 256 else v
  {
    assert U32(v) == if v < 0 then v + 0x1_0000_0000 else v;
  }

  /** Xor of the two wrapped differences has high bits exactly when they lie on both sides of zero. */
  lemma CAlpha0Of(c: uint8)
    ensures CAlpha0(c) == if 10 <= CAlpha(c) < 16 then 255 else 0
  {
    hide CAlpha, U8, U32, Xor;
    CAlphaOf(c);
    Straddles(CAlpha(c));
  }

  lemma Straddles(n: int)
    requires 0 <= n < 256
    ensures U8(Xor(U32(n - 10), U32(n - 16)) / 256) == if 10 <= n < 16 then 255 else 0
  {
    hide Xor;
    var x, y := U32(n - 10), U32(n - 16);
    XorHighByte(x, y);
    assert x / 256 == if n < 10 then 0xff_ffff else 0;
    assert y / 256 == if n < 16 then 0xff_ffff else 0;
    XorSelf(x / 256);
    XorZero(0xff_ffff);
    XorCommutes(0, 0xff_ffff);
  }

  lemma XorHighByte(x: int, y: int)
    ensures Xor(x, y) / 256 == Xor(x / 256, y / 256)
  {
    hide Xor;
    XorHigh16(x, y);
    XorHigh16(x / 16, y / 16);
    assert Xor(x, y) / 256 == Xor(x, y) / 16 / 16;
  }

  lemma XorHigh16(x: int, y: int)
    ensures Xor(x, y) / 16 == Xor(x / 16, y / 16)
  {
    hide Xor;
    HalvesOfXor(x, y);
    HalvesOfXor(x / 2, y / 2);
    HalvesOfXor(x / 2 / 2, y / 2 / 2);
    HalvesOfXor(x / 2 / 2 / 2, y / 2 / 2 / 2);
    FourHalves(x);
    FourHalves(y);
    FourHalves(Xor(x, y));
  }

  lemma FourHalves(x: int)
    ensures x / 2 / 2 / 2 / 2 == x / 16
  {
    assert x / 2 / 2 == x / 4;
  }

  /** A character fails exactly when it is no hex digit; otherwise its value is read. */
  lemma CharOf(c: uint8)
    ensures CBad(c) == if IsHexDigit(c) then 0 else -1
    ensures CVal(c) == if IsHexDigit(c) then HexValue(c) else 0
  {
    hide CNum, CNum0, CAlpha, CAlpha0, And, Or, Pow2;
    CNum0Of(c);
    CNumOf(c);
    CAlpha0Of(c);
    CAlphaOf(c);
    Pow2Of8();
    var p, q := CNum0(c), CAlpha0(c);
    OrDisjoint(0, p, 8);
    OrDisjoint(0, q, 8);
    OrCommutes(p, 0);
    AndCovers(CNum(c), 255, 8);
    AndCovers(CAlpha(c), 255, 8);
    AndCommutes(CNum(c), 255);
    AndCommutes(CAlpha(c), 255);
    AndZero(CNum(c));
    AndZero(CAlpha(c));
    if 48 <= c <= 57 {
      OrCommutes(CNum(c), 0);
      OrDisjoint(0, CNum(c), 8);
    } else if IsHexDigit(c) {
      OrDisjoint(0, CAlpha(c), 8);
    }
  }

  /** key[i / 2] = c_val(hex[i]) * 16U | c_val(hex[i + 1]). */
  function HexByte(c: uint8, c': uint8): int {
    Or(U8(CVal(c) * 16), CVal(c'))
  }

  lemma HexByteOf(c: uint8, c': uint8)
    ensures 0 <= HexByte(c, c') < 256
    ensures IsHexDigit(c) && IsHexDigit(c') ==> HexByte(c, c') == 16 * HexValue(c) + HexValue(c')
  {
    hide Or, CVal, HexValue, IsHexDigit, U8;
    CharOf(c);
    CharOf(c');
    PackNibbles(CVal(c), CVal(c'));
  }

  lemma PackNibbles(v: int, v': int)
    requires 0 <= v < 16 && 0 <= v' < 16
    ensures Or(U8(v * 16), v') == 16 * v + v'
  {
    hide Or, Pow2;
    Pow2Of8();
    OrDisjoint(16 * v, v', 4);
  }

  /** ret |= bad, with ret a uint8_t. */
  lemma CollectSign(ret: int, bad: int)
    requires 0 <= ret < 256 && -1 <= bad <= 0
    ensures 0 <= U8(Or(ret, bad)) < 256
    ensures U8(Or(ret, bad)) == 0 <==> ret == 0 && bad == 0
  {
    hide Or, Pow2;
    if bad == 0 {
      Pow2Of8();
      OrDisjoint(0, ret, 8);
      OrCommutes(ret, 0);
    } else {
      OrAllOnes(ret);
    }
  }

  lemma OrAllOnes(x: int)
    ensures Or(x, -1) == -1
  {
    AndCommutes(Not(x), 0);
    AndZero(Not(x));
  }

  predicate AllHex(s: seq<uint8>) {
    forall j :: 0 <= j < |s| ==> IsHexDigit(s[j])
  }

  predicate PairRead(hex: seq<uint8>, key: seq<uint8>, j: nat)
    requires 2 * j + 1 < |hex| && j < |key|
  {
    && IsHexDigit(hex[2 * j]) && IsHexDigit(hex[2 * j + 1])
    && key[j] as int == 16 * HexValue(hex[2 * j]) + HexValue(hex[2 * j + 1])
  }

  /** The reader's state after n pairs. */
  ghost predicate PairsDone(hex: seq<uint8>, key: seq<uint8>, ret: int, n: nat) {
    && |hex| == 64 && |key| == 32 && n <= 32 && 0 <= ret < 256
    && (ret == 0 <==> AllHex(hex[..2 * n]))
    && (ret == 0 ==> forall j :: 0 <= j < n ==> PairRead(hex, key, j))
  }

  /** A string is accepted exactly when it is 64 hex digits of either case. */
  method KeyFromHex(key: array<uint8>, hex: seq<uint8>) returns (ok: bool)
    requires key.Length == 32
    modifies key
    ensures ok <==> |hex| == 64 && AllHex(hex)
    ensures ok ==> forall j :: 0 <= j < 32 ==> PairRead(hex, key[..], j)
  {
    hide HexByte, CBad, Or, PairRead, AllHex;
    if |hex| != 64 {
      return false;
    }
    var ret := 0;
    var i := 0;
    AllHexNil();
    assert hex[..0] == [];
    while i < 64
      invariant 0 <= i <= 64 && i % 2 == 0
      invariant PairsDone(hex, key[..], ret, i / 2)
    {
      ghost var before := key[..];
      ghost var r0 := ret;
      ret := ReadPair(key, hex, i, ret);
      PairAdded(hex, before, key[..], r0, ret, i / 2);
      i := i + 2;
    }
    assert hex[..64] == hex;
    Verdict(ret);
    ok := And(1, (ret - 1) / 256) == 1;
  }

  /** One iteration of key_from_hex: two characters, one byte. */
  method ReadPair(key: array<uint8>, hex: seq<uint8>, i: nat, r: int) returns (ret: int)
    requires key.Length == 32 && |hex| == 64 && i % 2 == 0 && i < 64 && 0 <= r < 256
    modifies key
    ensures key[..] == old(key[..])[i / 2 := key[i / 2]]
    ensures 0 <= ret < 256
    ensures ret == 0 <==> r == 0 && IsHexDigit(hex[i]) && IsHexDigit(hex[i + 1])
    ensures IsHexDigit(hex[i]) && IsHexDigit(hex[i + 1]) ==>
      key[i / 2] as int == 16 * HexValue(hex[i]) + HexValue(hex[i + 1])
  {
    hide HexByte, CBad, CVal, Or, U8, IsHexDigit, HexValue;
    CharOf(hex[i]);
    CollectSign(r, CBad(hex[i]));
    ret := U8(Or(r, CBad(hex[i])));
    CharOf(hex[i + 1]);
    CollectSign(ret, CBad(hex[i + 1]));
    ret := U8(Or(ret, CBad(hex[i + 1])));
    HexByteOf(hex[i], hex[i + 1]);
    key[i / 2] := HexByte(hex[i], hex[i + 1]) as uint8;
  }

  lemma AllHexNil()
    ensures AllHex([])
  {
  }

  lemma PairAdded(hex: seq<uint8>, before: seq<uint8>, key: seq<uint8>, r: int, r': int, n: nat)
    requires n < 32 && PairsDone(hex, before, r, n) && 0 <= r' < 256
    requires |key| == 32 && key == before[n := key[n]]
    requires r' == 0 <==> r == 0 && IsHexDigit(hex[2 * n]) && IsHexDigit(hex[2 * n + 1])
    requires IsHexDigit(hex[2 * n]) && IsHexDigit(hex[2 * n + 1]) ==>
      key[n] as int == 16 * HexValue(hex[2 * n]) + HexValue(hex[2 * n + 1])
    ensures PairsDone(hex, key, r', n + 1)
  {
    hide IsHexDigit, HexValue, AllHex;
    AllHexSnoc(hex, 2 * n);
    assert hex[..2 * n + 2] == hex[..2 * (n + 1)];
    if r' == 0 {
      forall j | 0 <= j < n + 1 ensures PairRead(hex, key, j) {
        if j < n {
          assert PairRead(hex, before, j);
        }
      }
    }
  }

  lemma AllHexSnoc(s: seq<uint8>, i: nat)
    requires i + 2 <= |s|
    ensures AllHex(s[..i + 2]) <==> AllHex(s[..i]) && IsHexDigit(s[i]) && IsHexDigit(s[i + 1])
  {
    hide IsHexDigit;
    assert s[..i + 2] == s[..i] + [s[i], s[i + 1]];
    if AllHex(s[..i + 2]) {
      assert s[..i + 2][i] == s[i] && s[..i + 2][i + 1] == s[i + 1];
      forall j | 0 <= j < i ensures IsHexDigit(s[..i][j]) {
        assert s[..i + 2][j] == s[..i][j];
      }
    }
  }

  /** A printed key is accepted by the reader and read back as the same bytes. */
  lemma {:induction false} HexReadsBack(k: seq<uint8>)
    ensures |Hex(k)| == 2 * |k| && AllHex(Hex(k))
    ensures forall j :: 0 <= j < |k| ==> PairRead(Hex(k), k, j)
  {
    if |k| > 0 {
      var rest, h := k[1..], Hex(k);
      HexReadsBack(rest);
      forall x | 0 <= x < |h| ensures IsHexDigit(h[x]) {
        if x >= 2 { assert h[x] == Hex(rest)[x - 2]; }
      }
      forall j | 0 <= j < |k| ensures PairRead(h, k, j) {
        if j > 0 {
          assert PairRead(Hex(rest), rest, j - 1);
          assert k[j] == rest[j - 1];
          assert h[2 * j] == Hex(rest)[2 * (j - 1)] && h[2 * j + 1] == Hex(rest)[2 * (j - 1) + 1];
        }
      }
    }
  }
}
