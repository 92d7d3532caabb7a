/**
 Which address a request came from: the immediate peer, or the rightmost
 believable hop of X-Forwarded-For when the peer is a trusted proxy; and how the
 trusted prefixes are read from configuration. Address and prefix parsing are
 parameters.
 */
module ClientIp {
  import opened Options
  import opened Text
  import opened TwosComplement

  const V4_SIZE: nat := 0x1_0000_0000
  const MAPPED: nat := 0xffff_0000_0000

  type Word4 = n: nat | n < 0x1_0000_0000
  type Word16 = n: nat | n < 0x1_0000_0000_0000_0000_0000_0000_0000_0000

  datatype Addr = V4(n: Word4) | V6(bits: Word16, zone: string)

  type AddrParser = string -> Option<Addr>

  predicate Is4In6(a: Addr) {
    a.V6? && MAPPED <= a.bits < MAPPED + V4_SIZE
  }

  function WithoutZone(a: Addr): Addr {
    if a.V6? then a.(zone := "") else a
  }

  function Unmap(a: Addr): Addr {
    if Is4In6(a) then V4(a.bits - MAPPED) else a
  }

  function Mapped(n: Word4): Addr {
    V6(MAPPED + n, "")
  }

  datatype Prefix = Prefix(addr: Addr, bits: nat)

  predicate ValidPrefix(p: Prefix) {
    p.bits <= if p.addr.V4? then 32 else 128
  }

  /** Family-strict, and never for a zoned address. */
  predicate Contains(p: Prefix, ip: Addr)
    requires ValidPrefix(p)
  {
    match ip
    case V4(n) => p.addr.V4? && n / Pow2(32 - p.bits) == p.addr.n / Pow2(32 - p.bits)
    case V6(n, zone) => p.addr.V6? && zone == "" && n / Pow2(128 - p.bits) == p.addr.bits / Pow2(128 - p.bits)
  }

  predicate AllValid(prefixes: seq<Prefix>) {
    forall i :: 0 <= i < |prefixes| ==> ValidPrefix(prefixes[i])
  }

  predicate Trusted(ip: Addr, prefixes: seq<Prefix>)
    requires AllValid(prefixes)
  {
    exists i :: 0 <= i < |prefixes| && Contains(prefixes[i], Unmap(ip))
  }

  /** Addresses no real client can have; the argument is unmapped and has no zone. */
  predicate Bogus(a: Addr) {
    match a
    case V4(n) => n == 0 || n == 0xffff_ffff || n / 0x1000_0000 == 0xe || n / 0x1_0000 == 0xa9fe
    case V6(n, _) => 
      || n == 0
      || n / 0x1_00_0000_0000_0000_0000_0000_0000_0000 == 0xff
      || n / 0x40_0000_0000_0000_0000_0000_0000_0000 == 0x3fa
      || n / 0x40_0000_0000_0000_0000_0000_0000_0000 == 0x3fb
  }

  // ----- the walk -----

  datatype Hop =
    | Blank
    | Broken
    | Passed             // bogus or trusted: keep walking
    | Client(addr: Addr)

  function HopOf(part: string, trusted: seq<Prefix>, parse: AddrParser): Hop
    requires AllValid(trusted)
  {
    var entry := Trim(part, IsSpace);
    if entry == "" then Blank
    else
      match parse(entry)
      case None => Broken
      case Some(a) =>
        var addr := Unmap(WithoutZone(a));
        if Bogus(addr) || Trusted(addr, trusted) then Passed else Client(addr)
  }

  /** The hops of all header values, in order. */
  function Parts(values: seq<string>): seq<string> {
    SplitEach(values, IsComma)
  }

  /** The hop at i settles the walk: everything to its right is blank or passed over, and it is not. */
  predicate Settles(parts: seq<string>, i: nat, trusted: seq<Prefix>, parse: AddrParser)
    requires AllValid(trusted)
  {
    && i < |parts|
    && (HopOf(parts[i], trusted, parse).Broken? || HopOf(parts[i], trusted, parse).Client?)
    && (forall j :: i < j < |parts| ==>
          HopOf(parts[j], trusted, parse).Blank? || HopOf(parts[j], trusted, parse).Passed?)
  }

  ghost predicate Settled(parts: seq<string>, trusted: seq<Prefix>, parse: AddrParser)
    requires AllValid(trusted)
  {
    exists i: nat :: Settles(parts, i, trusted, parse)
  }

  function Walk(parts: seq<string>, trusted: seq<Prefix>, parse: AddrParser): Option<Addr>
    requires AllValid(trusted)
  {
    if parts == [] then None
    else
      match HopOf(parts[|parts| - 1], trusted, parse)
      case Client(a) => Some(a)
      case Broken => None
      case _ => Walk(parts[..|parts| - 1], trusted, parse)
  }

  /** The peer as the server sees it: unmapped, without zone; None when the remote address does not parse. */
  function PeerOf(remote: Option<Addr>): Option<Addr> {
    if remote.None? then None else Some(Unmap(WithoutZone(remote.value)))
  }

  function Resolved(remote: Option<Addr>, values: seq<string>, trusted: seq<Prefix>, parse: AddrParser): Option<Addr>
    requires AllValid(trusted)
  {
    var peer := PeerOf(remote);
    if peer.None? || !Trusted(peer.value, trusted) then peer
    else
      match Walk(Parts(values), trusted, parse)
      case Some(a) => Some(a)
      case None => peer
  }

  method InPrefixes(ip: Addr, prefixes: seq<Prefix>) returns (r: bool)
    requires AllValid(prefixes)
    ensures r <==> Trusted(ip, prefixes)
  {
    var unmapped := Unmap(ip);
    for i := 0 to |prefixes|
      invariant forall j :: 0 <= j < i ==> !Contains(prefixes[j], unmapped)
    {
      if Contains(prefixes[i], unmapped) {
        return true;
      }
    }
    return false;
  }

  method WalkParts(parts: seq<string>, trusted: seq<Prefix>, parse: AddrParser) returns (r: Option<Addr>)
    requires AllValid(trusted)
    ensures r == Walk(parts, trusted, parse)
  {
    hide Bogus, Trusted, Trim, Unmap, WithoutZone, IsSpace, AllValid;
    var i := |parts|;
    assert parts[..i] == parts;
    while i > 0
      invariant 0 <= i <= |parts|
      invariant Walk(parts, trusted, parse) == Walk(parts[..i], trusted, parse)
    {
      i := i - 1;
      assert parts[..i + 1][..i] == parts[..i];
      var entry := Trim(parts[i], IsSpace);
      if entry == "" {
        continue;
      }
      var parsed := parse(entry);
      if parsed.None? {
        return None;
      }
      var addr := Unmap(WithoutZone(parsed.value));
      if Bogus(addr) {
        continue;
      }
      var skip := InPrefixes(addr, trusted);
      if skip {
        continue;
      }
      return Some(addr);
    }
    return None;
  }

  /** The code joins all header values with commas, splits the whole and walks it from the right. */
  method ClientIP(remote: Option<Addr>, values: seq<string>, trusted: seq<Prefix>, parse: AddrParser)
    returns (r: Option<Addr>)
    requires AllValid(trusted)
    ensures r == Resolved(remote, values, trusted, parse)
  {
    if remote.None? {
      return None;
    }
    var peer := Unmap(WithoutZone(remote.value));
    var known := InPrefixes(peer, trusted);
    if !known {
      return Some(peer);
    }
    if |values| == 0 {
      return Some(peer);
    }
    SplitOfJoin(values, ',', IsComma);
    hide Walk, Split, Join, SplitEach;
    var found := WalkParts(Split(Join(values, ','), IsComma), trusted, parse);
    return if found.Some? then found else Some(peer);
  }

  // ----- what the walk finds -----

  lemma {:induction false} WalkFinds(parts: seq<string>, i: nat, trusted: seq<Prefix>, parse: AddrParser)
    requires AllValid(trusted) && Settles(parts, i, trusted, parse)
    ensures Walk(parts, trusted, parse) ==
      match HopOf(parts[i], trusted, parse) case Client(a) => Some(a) case _ => None
    decreases |parts|
  {
    hide HopOf;
    var n := |parts| - 1;
    if i < n {
      WalkFinds(parts[..n], i, trusted, parse);
    }
  }

  lemma {:induction false} WalkFindsNothing(parts: seq<string>, trusted: seq<Prefix>, parse: AddrParser)
    requires AllValid(trusted)
    requires forall j :: 0 <= j < |parts| ==>
      HopOf(parts[j], trusted, parse).Blank? || HopOf(parts[j], trusted, parse).Passed?
    ensures Walk(parts, trusted, parse) == None
    decreases |parts|
  {
    if parts != [] {
      WalkFindsNothing(parts[..|parts| - 1], trusted, parse);
    }
  }

  lemma {:induction false} SettledOrSkipped(parts: seq<string>, trusted: seq<Prefix>, parse: AddrParser)
    requires AllValid(trusted)
    ensures Settled(parts, trusted, parse) <==>
      exists j :: 0 <= j < |parts|
                  && (HopOf(parts[j], trusted, parse).Broken? || HopOf(parts[j], trusted, parse).Client?)
    decreases |parts|
  {
    if parts != [] {
      var n := |parts| - 1;
      var rest := parts[..n];
      SettledOrSkipped(rest, trusted, parse);
      var hop := HopOf(parts[n], trusted, parse);
      if hop.Broken? || hop.Client? {
        assert Settles(parts, n, trusted, parse);
      } else if Settled(rest, trusted, parse) {
        var i :| Settles(rest, i, trusted, parse);
        assert Settles(parts, i, trusted, parse);
      }
    }
  }

  /**
   Behind a trusted peer the answer is a hop exactly when that hop is a parseable, untrusted, plausible
   one with no unparseable hop to its right and only skipped ones; in every other case it is the peer.
   */
  lemma AnswerIsRightmostClient(remote: Option<Addr>, values: seq<string>, trusted: seq<Prefix>, parse: AddrParser)
    requires AllValid(trusted) && remote.Some? && Trusted(PeerOf(remote).value, trusted)
    ensures var parts, r := Parts(values), Resolved(remote, values, trusted, parse);
      && (forall i: nat :: Settles(parts, i, trusted, parse) ==>
            r == match HopOf(parts[i], trusted, parse) case Client(a) => Some(a) case _ => PeerOf(remote))
      && (!Settled(parts, trusted, parse) ==> r == PeerOf(remote))
  {
    var parts := Parts(values);
    forall i: nat | Settles(parts, i, trusted, parse)
      ensures Resolved(remote, values, trusted, parse)
           == match HopOf(parts[i], trusted, parse) case Client(a) => Some(a) case _ => PeerOf(remote)
    {
      WalkFinds(parts, i, trusted, parse);
    }
    if !Settled(parts, trusted, parse) {
      SettledOrSkipped(parts, trusted, parse);
      WalkFindsNothing(parts, trusted, parse);
    }
  }

  lemma {:induction false} WalkOfConcat(left: seq<string>, right: seq<string>, trusted: seq<Prefix>, parse: AddrParser)
    requires AllValid(trusted)
    ensures Walk(left + right, trusted, parse) ==
      if Settled(right, trusted, parse) then Walk(right, trusted, parse) else Walk(left, trusted, parse)
    decreases |right|
  {
    hide HopOf, Settled;
    if right == [] {
      SettledOrSkipped(right, trusted, parse);
      assert left + right == left;
    } else {
      var n := |right| - 1;
      var rest := right[..n];
      assert (left + right)[..|left + right| - 1] == left + rest;
      WalkOfConcat(left, rest, trusted, parse);
      SettledOrSkipped(right, trusted, parse);
      SettledOrSkipped(rest, trusted, parse);
    }
  }

  /** Once some hop settles the walk, header values prepended by anyone further away change nothing. */
  lemma PrependingChangesNothing(remote: Option<Addr>, forged: seq<string>, values: seq<string>,
                                 trusted: seq<Prefix>, parse: AddrParser)
    requires AllValid(trusted) && Settled(Parts(values), trusted, parse)
    ensures Resolved(remote, forged + values, trusted, parse) == Resolved(remote, values, trusted, parse)
  {
    SplitEachConcat(forged, values, IsComma);
    WalkOfConcat(Parts(forged), Parts(values), trusted, parse);
  }

  /** When no hop settles it, the prepended values alone decide; so the condition above is exact. */
  lemma UnsettledFollowsPrepended(remote: Option<Addr>, forged: seq<string>, values: seq<string>,
                                  trusted: seq<Prefix>, parse: AddrParser)
    requires AllValid(trusted) && !Settled(Parts(values), trusted, parse)
    ensures Resolved(remote, forged + values, trusted, parse) == Resolved(remote, forged, trusted, parse)
  {
    SplitEachConcat(forged, values, IsComma);
    WalkOfConcat(Parts(forged), Parts(values), trusted, parse);
  }

  /** The same for text put in front of the first value itself. */
  lemma PrependingTextChangesNothing(remote: Option<Addr>, forged: string, value: string, more: seq<string>,
                                     trusted: seq<Prefix>, parse: AddrParser)
    requires AllValid(trusted) && Settled(Parts([value] + more), trusted, parse)
    ensures Resolved(remote, [forged + "," + value] + more, trusted, parse)
         == Resolved(remote, [value] + more, trusted, parse)
  {
    hide Walk, HopOf;
    var values, longer := [value] + more, [forged + "," + value] + more;
    SplitAround(forged, ',', value, IsComma);
    assert longer[1..] == more && values[1..] == more;
    assert forged + "," + value == forged + [','] + value;
    assert Parts(longer) == Split(forged, IsComma) + Parts(values);
    WalkOfConcat(Split(forged, IsComma), Parts(values), trusted, parse);
  }

  /** Several header lines are equivalent to one with commas. */
  lemma OneHeaderOrMany(remote: Option<Addr>, values: seq<string>, trusted: seq<Prefix>, parse: AddrParser)
    requires AllValid(trusted) && values != []
    ensures Resolved(remote, values, trusted, parse) == Resolved(remote, [Join(values, ',')], trusted, parse)
  {
    SplitOfJoin(values, ',', IsComma);
    var one := [Join(values, ',')];
    assert one[1..] == [] && SplitEach(one[1..], IsComma) == [];
    assert Parts(one) == Split(one[0], IsComma);
  }

  // ----- trusted prefixes -----

  const MIN_V4_BITS: nat := 8
  const MIN_V6_BITS: nat := 16

  function Normalize(p: Prefix): (r: Option<Prefix>)
    requires ValidPrefix(p)
    ensures r.Some? ==> ValidPrefix(r.value) && !Is4In6(r.value.addr)
    ensures r.Some? ==> r.value.bits >= if r.value.addr.V4? then MIN_V4_BITS else MIN_V6_BITS
  {
    if Is4In6(p.addr) then
      if p.bits < 96 + MIN_V4_BITS then None else Some(Prefix(Unmap(p.addr), p.bits - 96))
    else if p.addr.V4? then
      if p.bits < MIN_V4_BITS then None else Some(p)
    else
      if p.bits < MIN_V6_BITS then None else Some(p)
  }

  lemma {:induction false} Pow2Adds(a: nat, b: nat)
    ensures Pow2(a + b) == Pow2(a) * Pow2(b)
  {
    if a > 0 {
      Pow2Adds(a - 1, b);
      assert Pow2(a + b) == 2 * Pow2(a - 1 + b);
      assert 2 * (Pow2(a - 1) * Pow2(b)) == 2 * Pow2(a - 1) * Pow2(b);
    }
  }

  lemma DivideSum(q: nat, d: nat, x: nat)
    requires d > 0
    ensures (q * d + x) / d == q + x / d
  {
    assert q * d + x == d * (q + x / d) + x % d;
    Quotient(q * d + x, d, q + x / d, x % d);
  }

  lemma Scale(d: nat, a: nat, b: nat)
    requires a <= b
    ensures d * a <= d * b
  {
  }

  lemma Pow2Of32()
    ensures Pow2(32) == V4_SIZE
  {
    assert Pow2(8) == 256;
    Pow2Adds(8, 8);
    Pow2Adds(16, 16);
  }

  /** The mapped range is a whole number of blocks of 2^shift. */
  lemma MappedBlocks(shift: nat)
    requires shift <= 32
    ensures 0xffff * Pow2(32 - shift) * Pow2(shift) == MAPPED
    ensures Pow2(32 - shift) * Pow2(shift) == V4_SIZE
  {
    hide Pow2;
    Pow2Of32();
    Pow2Adds(32 - shift, shift);
    Reassociate(0xffff, Pow2(32 - shift), Pow2(shift));
  }

  lemma Reassociate(a: nat, b: nat, c: nat)
    ensures a * b * c == a * (b * c)
  {
  }

  lemma MappedQuotient(n: Word4, shift: nat)
    requires shift <= 32
    ensures (MAPPED + n) / Pow2(shift) == 0xffff * Pow2(32 - shift) + n / Pow2(shift)
  {
    hide Pow2;
    MappedBlocks(shift);
    DivideSum(0xffff * Pow2(32 - shift), Pow2(shift), n);
  }

  /** An accepted IPv4-in-IPv6 prefix becomes an IPv4 prefix of exactly the same IPv4 hosts. */
  lemma NormalizedTrustsSameHosts(p: Prefix, host: Word4)
    requires ValidPrefix(p) && Is4In6(p.addr) && Normalize(p).Some?
    ensures Contains(Normalize(p).value, V4(host)) <==> Contains(p, Mapped(host))
  {
    hide Pow2;
    var shift := 128 - p.bits;
    MappedQuotient(host, shift);
    MappedQuotient(p.addr.bits - MAPPED, shift);
    assert 32 - (p.bits - 96) == shift;
  }

  /** Left as written, such a prefix would match no address the trust check ever sees. */
  lemma UnnormalizedTrustsNobody(p: Prefix, ip: Addr)
    requires ValidPrefix(p) && Is4In6(p.addr) && p.bits >= 96
    ensures !Contains(p, Unmap(ip))
  {
    hide Pow2;
    var a := Unmap(ip);
    if Contains(p, a) {
      var shift := 128 - p.bits;
      MappedQuotient(p.addr.bits - MAPPED, shift);
      MappedRange(a.bits, shift, p.addr.bits - MAPPED);
      assert false;
    }
  }

  /** Sharing at least 96 leading bits with a mapped address means being mapped. */
  lemma MappedRange(x: nat, shift: nat, n: Word4)
    requires shift <= 32 && x / Pow2(shift) == 0xffff * Pow2(32 - shift) + n / Pow2(shift)
    ensures MAPPED <= x < MAPPED + V4_SIZE
  {
    hide Pow2;
    MappedBlocks(shift);
    WithinBlocks(x, Pow2(shift), 0xffff * Pow2(32 - shift), Pow2(32 - shift), n);
  }

  lemma WithinBlocks(x: nat, d: nat, base: nat, count: nat, n: nat)
    requires d > 0 && n < count * d && x / d == base + n / d
    ensures base * d <= x < base * d + count * d
  {
    var m := n / d;
    Below(n, d, count);
    assert x == d * (base + m) + x % d;
    assert d * (base + m) == base * d + d * m;
    Scale(d, m + 1, count);
    assert d * (m + 1) == d * m + d;
  }

  lemma Below(n: nat, d: nat, count: nat)
    requires d > 0 && n < count * d
    ensures n / d < count
  {
    var m := n / d;
    assert n == d * m + n % d;
    if m >= count {
      Scale(d, count, m);
    }
  }

  type PrefixParser = string -> Option<Prefix>

  /** What one entry of the setting contributes. */
  function Entry(part: string, parse: PrefixParser): Option<Prefix>
    requires forall s :: parse(s).Some? ==> ValidPrefix(parse(s).value)
  {
    var entry := Trim(part, IsSpace);
    if entry == "" || parse(entry).None? then None else Normalize(parse(entry).value)
  }

  ghost predicate Contributed(parts: seq<string>, p: Prefix, parse: PrefixParser)
    requires forall s :: parse(s).Some? ==> ValidPrefix(parse(s).value)
  {
    exists i :: 0 <= i < |parts| && Entry(parts[i], parse) == Some(p)
  }

  lemma NothingContributed(parse: PrefixParser)
    requires forall s :: parse(s).Some? ==> ValidPrefix(parse(s).value)
    ensures forall p :: !Contributed([], p, parse)
  {
  }

  lemma OneMore(parts: seq<string>, i: nat, parse: PrefixParser)
    requires forall s :: parse(s).Some? ==> ValidPrefix(parse(s).value)
    requires i < |parts|
    ensures forall p :: Contributed(parts[..i + 1], p, parse) <==>
      Contributed(parts[..i], p, parse) || Entry(parts[i], parse) == Some(p)
  {
    forall p ensures Contributed(parts[..i + 1], p, parse) <==>
      Contributed(parts[..i], p, parse) || Entry(parts[i], parse) == Some(p)
    {
      if Contributed(parts[..i], p, parse) {
        var j :| 0 <= j < i && Entry(parts[..i][j], parse) == Some(p);
        assert parts[..i + 1][j] == parts[..i][j];
      }
      if Entry(parts[i], parse) == Some(p) {
        assert parts[..i + 1][i] == parts[i];
      }
      if Contributed(parts[..i + 1], p, parse) {
        var j :| 0 <= j < i + 1 && Entry(parts[..i + 1][j], parse) == Some(p);
        assert j < i ==> parts[..i][j] == parts[..i + 1][j];
      }
    }
  }

  method ParseTrusted(raw: string, parse: PrefixParser) returns (prefixes: seq<Prefix>)
    requires forall s :: parse(s).Some? ==> ValidPrefix(parse(s).value)
    ensures AllValid(prefixes)
    ensures forall p :: p in prefixes <==> Contributed(Split(raw, IsComma), p, parse)
    ensures forall p :: p in prefixes ==> !Is4In6(p.addr) && p.bits >= if p.addr.V4? then MIN_V4_BITS else MIN_V6_BITS
  {
    hide Normalize, Trim, Split, Contributed, Is4In6;
    prefixes := [];
    NothingContributed(parse);
    var parts := Split(raw, IsComma);
    if Trim(raw, IsSpace) == "" {
      BlankHasNoEntries(raw);
      OneMore(parts, 0, parse);
      assert parts[0] == raw && Entry(raw, parse) == None;
      assert parts[..0 + 1] == parts && parts[..0] == [];
      assert forall p :: !Contributed(parts, p, parse) by {
        forall p ensures !Contributed(parts, p, parse) {
          assert Contributed(parts[..0 + 1], p, parse) <==> Contributed([], p, parse);
        }
      }
      return;
    }
    assert parts[..0] == [];
    for i := 0 to |parts|
      invariant forall p :: p in prefixes <==> Contributed(parts[..i], p, parse)
      invariant forall p :: p in prefixes ==> ValidPrefix(p)
      invariant forall p :: p in prefixes ==>
        !Is4In6(p.addr) && p.bits >= if p.addr.V4? then MIN_V4_BITS else MIN_V6_BITS
    {
      OneMore(parts, i, parse);
      var entry := Trim(parts[i], IsSpace);
      if entry == "" {
        continue;
      }
      var parsed := parse(entry);
      if parsed.None? {
        continue;
      }
      var accepted := Normalize(parsed.value);
      if accepted.Some? {
        prefixes := prefixes + [accepted.value];
      }
    }
    assert parts[..|parts|] == parts;
  }

  lemma {:induction false} TrimmedAway(s: string)
    requires Trim(s, IsSpace) == ""
    ensures forall i :: 0 <= i < |s| ==> IsSpace(s[i])
  {
    var t := TrimLeft(s, IsSpace);
    if s != "" {
      if IsSpace(s[0]) {
        TrimmedAway(s[1..]);
        assert s == [s[0]] + s[1..];
      } else {
        TrimRightIs(s, IsSpace);
      }
    }
  }

  lemma BlankHasNoEntries(raw: string)
    requires Trim(raw, IsSpace) == ""
    ensures Split(raw, IsComma) == [raw]
  {
    TrimmedAway(raw);
    SplitPlain(raw, IsComma);
  }

  // ----- rate-limit groups -----

  /** How many addresses a /64 network has. */
  const INTERFACE: nat := 0x1_0000_0000_0000_0000

  datatype Group = Host(n: Word4) | Network(top: nat)

  function RateLimitGroup(a: Addr): Group {
    match Unmap(a)
    case V4(n) => Host(n)
    case V6(n, _) => Network(n / INTERFACE)
  }

  /** Two clients share a bucket exactly when they are the same IPv4 host, in any form, or in one IPv6 /64. */
  lemma GroupsAre64s(a: Addr, b: Addr)
    ensures RateLimitGroup(a) == RateLimitGroup(b) <==>
      || Unmap(a) == Unmap(b)
      || (Unmap(a).V6? && Unmap(b).V6? && Contains(Prefix(WithoutZone(Unmap(a)), 64), WithoutZone(Unmap(b))))
  {
    hide Pow2;
    Pow2Of32();
    Pow2Adds(32, 32);
    assert Pow2(128 - 64) == INTERFACE;
  }
}
