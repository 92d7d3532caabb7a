/**
 The home machine's incremental reconfiguration: the configuration text that
 brings an interface set up for `previous` to one set up for `next`.
 */
module PeerChanges {
  import opened Options
  import opened PeerTable

  datatype Peer = Peer(key: KeyText, address: Address, endpoint: Option<Endpoint>, validUntil: Option<int>)

  type Peers = map<Address, Peer>

  predicate Decodes(peers: Peers) {
    forall a :: a in peers ==> peers[a].key.raw.Some?
  }

  function RawAt(peers: Peers, a: Address): Key
    requires a in peers && peers[a].key.raw.Some?
  {
    peers[a].key.raw.value
  }

  /** Peers that `next` adds or sets up differently. */
  predicate Changed(previous: Peers, next: Peers, a: Address) {
    a in next && !(a in previous && previous[a].key == next[a].key && previous[a].endpoint == next[a].endpoint)
  }

  /** Peers of `previous` whose key is no longer wanted at their address. */
  predicate Retired(previous: Peers, next: Peers, a: Address) {
    a in previous && !(a in next && next[a].key == previous[a].key)
  }

  /** The table a full configuration for `peers` has: its keys, each with its one address. */
  ghost predicate Exact(t: Table, peers: Peers)
    requires Decodes(peers)
  {
    && (forall k: Key :: k in t.peers <==> exists a :: a in peers && RawAt(peers, a) == k)
    && (forall a: Address :: a in t.routes <==> a in peers)
    && (forall a :: a in peers ==> t.routes[a] == RawAt(peers, a))
  }

  /** Every endpoint that `peers` names is configured. */
  predicate Reachable(t: Table, peers: Peers)
    requires Decodes(peers)
  {
    forall a :: a in peers && peers[a].endpoint.Some? ==>
      RawAt(peers, a) in t.peers && t.peers[RawAt(peers, a)] == peers[a].endpoint
  }

  /**
   What a caller can check beforehand: no key retired at one address is wanted at any, and no key
   set up anew at one address is wanted at another.
   */
  ghost predicate Separable(previous: Peers, next: Peers)
    requires Decodes(previous) && Decodes(next)
  {
    && (forall a, b :: Retired(previous, next, a) && b in next ==> RawAt(previous, a) != RawAt(next, b))
    && (forall a, b :: Changed(previous, next, a) && b in next && a != b ==> RawAt(next, a) != RawAt(next, b))
  }

  predicate Distinct(peers: Peers)
    requires Decodes(peers)
  {
    forall a, b :: a in peers && b in peers && RawAt(peers, a) == RawAt(peers, b) ==> a == b
  }

  /** Canonical distinct keys, none of which changes its address, are separable. */
  lemma SettledKeysAreSeparable(previous: Peers, next: Peers)
    requires Decodes(previous) && Decodes(next) && Distinct(next)
    requires forall a :: a in previous ==> previous[a].key.spelling == 0
    requires forall a :: a in next ==> next[a].key.spelling == 0
    requires forall a, b :: a in previous && b in next && RawAt(previous, a) == RawAt(next, b) ==> a == b
    ensures Separable(previous, next)
  {
    forall a, b | Retired(previous, next, a) && b in next ensures RawAt(previous, a) != RawAt(next, b) {
      if RawAt(previous, a) == RawAt(next, b) {
        assert false;
      }
    }
  }

  // ----- the operations, in the order two map iterations happen to take -----

  function AssignOf(next: Peers, a: Address): Op
    requires a in next && next[a].key.raw.Some?
  {
    Assign(RawAt(next, a), a, next[a].endpoint)
  }

  function Assigns(next: Peers, order: seq<Address>): (ops: seq<Op>)
    requires forall a :: a in order ==> a in next && next[a].key.raw.Some?
    ensures |ops| == |order|
  {
    seq(|order|, i requires 0 <= i < |order| => AssignOf(next, order[i]))
  }

  function Removes(previous: Peers, order: seq<Address>): (ops: seq<Op>)
    requires forall a :: a in order ==> a in previous && previous[a].key.raw.Some?
    ensures |ops| == |order|
  {
    seq(|order|, i requires 0 <= i < |order| => Remove(RawAt(previous, order[i])))
  }

  /** added and gone are what the two loops visit, in some order. */
  ghost predicate Orders(previous: Peers, next: Peers, added: seq<Address>, gone: seq<Address>) {
    && (forall a: Address :: a in added <==> Changed(previous, next, a))
    && (forall a: Address :: a in gone <==> Retired(previous, next, a))
  }

  function Outcome(t: Table, previous: Peers, next: Peers, added: seq<Address>, gone: seq<Address>): Table
    requires Decodes(previous) && Decodes(next)
    requires (forall a :: a in added ==> a in next) && (forall a :: a in gone ==> a in previous)
  {
    DoAll(DoAll(t, Assigns(next, added)), Removes(previous, gone))
  }

  /** t is set up for `previous` except at the addresses done, where it is set up for `next`. */
  ghost predicate Midway(t: Table, previous: Peers, next: Peers, done: seq<Address>)
    requires Decodes(previous) && Decodes(next)
  {
    && (forall k: Key :: k in t.peers <==>
          || (exists a :: a in previous && RawAt(previous, a) == k)
          || (exists a :: a in done && a in next && RawAt(next, a) == k))
    && (forall a: Address :: a in t.routes <==> a in previous || (a in done && a in next))
    && (forall a :: a in done && a in next ==> t.routes[a] == RawAt(next, a))
    && (forall a :: a in previous && a !in done ==> t.routes[a] == RawAt(previous, a))
  }

  /** Under separability, an assignment disturbs no address already right. */
  lemma AssignDisturbsNothing(t: Table, previous: Peers, next: Peers, done: seq<Address>, a: Address)
    requires Decodes(previous) && Decodes(next) && Separable(previous, next)
    requires forall b :: b in done ==> Changed(previous, next, b)
    requires Changed(previous, next, a) && Midway(t, previous, next, done)
    ensures Midway(Do(t, AssignOf(next, a)), previous, next, done + [a])
  {
    var k, u := RawAt(next, a), Do(t, AssignOf(next, a));
    forall b | b in t.routes && b != a ensures t.routes[b] != k {
      if b in done {
        assert t.routes[b] == RawAt(next, b);
      } else {
        assert t.routes[b] == RawAt(previous, b);
        if Retired(previous, next, b) {
        } else {
          assert RawAt(next, b) == RawAt(previous, b);
        }
      }
    }
    assert forall b: Address :: b in u.routes <==> b in t.routes || b == a;
  }

  lemma {:induction false} AssignsGiveNext(t: Table, previous: Peers, next: Peers, added: seq<Address>)
    requires Decodes(previous) && Decodes(next) && Separable(previous, next)
    requires Exact(t, previous)
    requires forall a :: a in added ==> Changed(previous, next, a)
    ensures Midway(DoAll(t, Assigns(next, added)), previous, next, added)
    decreases |added|
  {
    if added != [] {
      var n := |added| - 1;
      var rest, a := added[..n], added[n];
      AssignsGiveNext(t, previous, next, rest);
      assert Assigns(next, added)[..n] == Assigns(next, rest);
      AssignDisturbsNothing(DoAll(t, Assigns(next, rest)), previous, next, rest, a);
      assert rest + [a] == added;
    }
  }

  /** What a run of removals leaves. */
  lemma {:induction false} RemovesLeave(t: Table, previous: Peers, gone: seq<Address>)
    requires Decodes(previous) && forall a :: a in gone ==> a in previous
    ensures var u := DoAll(t, Removes(previous, gone));
      && (forall k: Key :: k in u.peers <==> k in t.peers && !exists a :: a in gone && RawAt(previous, a) == k)
      && (forall a: Address :: a in u.routes <==>
            a in t.routes && !exists b :: b in gone && RawAt(previous, b) == t.routes[a])
      && (forall a: Address :: a in u.routes ==> u.routes[a] == t.routes[a])
      && (forall k: Key :: k in u.peers ==> u.peers[k] == t.peers[k])
    decreases |gone|
  {
    if gone != [] {
      var n := |gone| - 1;
      RemovesLeave(t, previous, gone[..n]);
      assert Removes(previous, gone)[..n] == Removes(previous, gone[..n]);
      assert gone == gone[..n] + [gone[n]];
    }
  }

  /** Incremental equals full, in every iteration order. */
  lemma SeparableIsEnough(t: Table, previous: Peers, next: Peers, added: seq<Address>, gone: seq<Address>)
    requires Decodes(previous) && Decodes(next) && Exact(t, previous) && Orders(previous, next, added, gone)
    requires Separable(previous, next)
    ensures Exact(Outcome(t, previous, next, added, gone), next)
  {
    AssignsGiveNext(t, previous, next, added);
    var mid := DoAll(t, Assigns(next, added));
    RemovesLeave(mid, previous, gone);
    var u := Outcome(t, previous, next, added, gone);
    forall a: Address ensures a in u.routes <==> a in next
      ensures a in next ==> u.routes[a] == RawAt(next, a)
    {
      if a in next {
        assert mid.routes[a] == RawAt(next, a);
      } else if a in previous {
        assert a in gone && a !in added && mid.routes[a] == RawAt(previous, a);
      }
    }
    forall k: Key ensures k in u.peers <==> exists a :: a in next && RawAt(next, a) == k {
      if exists a :: a in next && RawAt(next, a) == k {
        var a :| a in next && RawAt(next, a) == k;
        assert u.routes[a] == k;
        if a in added {
          assert k in mid.peers;
        } else {
          assert a in previous && RawAt(previous, a) == k;
        }
      } else if k in mid.peers {
        var a :| a in previous && RawAt(previous, a) == k;
        assert a in gone;
      }
    }
  }

  lemma InseparableFails(t: Table, previous: Peers, next: Peers, added: seq<Address>, gone: seq<Address>)
    requires Decodes(previous) && Decodes(next) && Orders(previous, next, added, gone)
    requires !Separable(previous, next)
    ensures !Exact(Outcome(t, previous, next, added, gone), next)
  {
    var sets, cuts := Assigns(next, added), Removes(previous, gone);
    DoAllConcat(t, sets, cuts);
    var u := Outcome(t, previous, next, added, gone);
    if a, b :| Retired(previous, next, a) && b in next && RawAt(previous, a) == RawAt(next, b) {
      assert a in gone;
      var i :| 0 <= i < |gone| && gone[i] == a;
      RemovedIsGone(DoAll(t, sets), cuts, i);
      assert RawAt(next, b) !in u.peers;
    } else {
      var a, b :| Changed(previous, next, a) && b in next && a != b && RawAt(next, a) == RawAt(next, b);
      assert a in added;
      var i :| 0 <= i < |added| && added[i] == a;
      assert (sets + cuts)[i] == AssignOf(next, a);
      AssignedHoldsOne(t, sets + cuts, i);
      assert AtMostOne(u, RawAt(next, a));
    }
  }

  /** The incremental configuration equals the full one exactly when the two peer sets are separable. */
  lemma IncrementalEqualsFull(t: Table, previous: Peers, next: Peers, added: seq<Address>, gone: seq<Address>)
    requires Decodes(previous) && Decodes(next) && Exact(t, previous) && Orders(previous, next, added, gone)
    ensures Exact(Outcome(t, previous, next, added, gone), next) <==> Separable(previous, next)
  {
    if Separable(previous, next) {
      SeparableIsEnough(t, previous, next, added, gone);
    } else {
      InseparableFails(t, previous, next, added, gone);
    }
  }

  /** A device that moves to another address loses its peer altogether. */
  lemma MovedKeyIsDropped(key: Key, from: Address, to: Address)
    requires from != to
    ensures var peer := Peer(KeyText(Some(key), 0), from, None, None);
      var previous: Peers := map[from := peer];
      var next: Peers := map[to := peer.(address := to)];
      && Orders(previous, next, [to], [from])
      && Outcome(Table(map[key := None], map[from := key]), previous, next, [to], [from]) == EMPTY
  {
    var peer := Peer(KeyText(Some(key), 0), from, None, None);
    var previous: Peers := map[from := peer];
    var next: Peers := map[to := peer.(address := to)];
    var t := Table(map[key := None], map[from := key]);
    var mid := Do(t, Assign(key, to, None));
    assert Assigns(next, [to]) == [Assign(key, to, None)];
    assert DoAll(t, [Assign(key, to, None)]) == mid by { assert [Assign(key, to, None)][..0] == []; }
    assert mid == Table(map[key := None], map[to := key]);
    assert Removes(previous, [from]) == [Remove(key)];
    assert DoAll(mid, [Remove(key)]) == Do(mid, Remove(key)) by { assert [Remove(key)][..0] == []; }
  }

  // ----- endpoints -----

  lemma {:induction false} AssignsReach(t: Table, previous: Peers, next: Peers, added: seq<Address>, a: Address)
    requires Decodes(previous) && Decodes(next) && Separable(previous, next)
    requires forall b :: b in added ==> Changed(previous, next, b)
    requires a in next && next[a].endpoint.Some?
    requires a in added || (RawAt(next, a) in t.peers && t.peers[RawAt(next, a)] == next[a].endpoint)
    ensures var u := DoAll(t, Assigns(next, added));
      RawAt(next, a) in u.peers && u.peers[RawAt(next, a)] == next[a].endpoint
    decreases |added|
  {
    if added != [] {
      var n := |added| - 1;
      var rest, b := added[..n], added[n];
      assert forall c :: c in rest ==> c in added;
      assert Assigns(next, added)[..n] == Assigns(next, rest);
      assert added == rest + [b];
      if b != a {
        AssignsReach(t, previous, next, rest, a);
      }
    }
  }

  /** The endpoints `next` names are configured too, changed or not. */
  lemma EndpointsFollow(t: Table, previous: Peers, next: Peers, added: seq<Address>, gone: seq<Address>)
    requires Decodes(previous) && Decodes(next) && Exact(t, previous) && Orders(previous, next, added, gone)
    requires Separable(previous, next) && Reachable(t, previous)
    ensures Reachable(Outcome(t, previous, next, added, gone), next)
  {
    var mid, u := DoAll(t, Assigns(next, added)), Outcome(t, previous, next, added, gone);
    SeparableIsEnough(t, previous, next, added, gone);
    RemovesLeave(mid, previous, gone);
    forall a | a in next && next[a].endpoint.Some?
      ensures RawAt(next, a) in u.peers && u.peers[RawAt(next, a)] == next[a].endpoint
    {
      AssignsReach(t, previous, next, added, a);
      assert RawAt(next, a) in u.peers;
    }
  }

  // ----- the loops -----

  predicate Live(p: Peer, now: int) {
    p.validUntil == None || p.validUntil.value > now
  }

  /** The unexpired peers by address; of two with one address the later listed wins. */
  function Leases(peers: seq<Peer>, now: int): (r: Peers)
    ensures forall a :: a in r ==> r[a] in peers && r[a].address == a && Live(r[a], now)
  {
    if peers == [] then map[]
    else
      var n := |peers| - 1;
      var rest := Leases(peers[..n], now);
      if Live(peers[n], now) then rest[peers[n].address := peers[n]] else rest
  }

  method LivePeers(peers: seq<Peer>, now: int) returns (result: Peers)
    ensures result == Leases(peers, now)
  {
    result := map[];
    for i := 0 to |peers|
      invariant result == Leases(peers[..i], now)
    {
      assert peers[..i + 1][..i] == peers[..i];
      if Live(peers[i], now) {
        result := result[peers[i].address := peers[i]];
      }
    }
    assert peers[..|peers|] == peers;
  }

  /** With distinct addresses, exactly the unexpired peers are kept, each under its own address. */
  lemma {:induction false} LeasesKeepTheLive(peers: seq<Peer>, now: int, i: nat)
    requires i < |peers| && Live(peers[i], now)
    requires forall j, k :: 0 <= j < k < |peers| ==> peers[j].address != peers[k].address
    ensures peers[i].address in Leases(peers, now) && Leases(peers, now)[peers[i].address] == peers[i]
    decreases |peers|
  {
    var n := |peers| - 1;
    if i < n {
      LeasesKeepTheLive(peers[..n], now, i);
    }
  }

  method EmitAssigns(previous: Peers, next: Peers) returns (ops: Option<seq<Op>>, ghost added: seq<Address>)
    ensures ops.None? <==> exists a :: Changed(previous, next, a) && next[a].key.raw.None?
    ensures ops.Some? ==>
      && (forall a: Address :: a in added <==> Changed(previous, next, a))
      && (forall a :: a in added ==> next[a].key.raw.Some?)
      && ops.value == Assigns(next, added)
  {
    added := [];
    var config: seq<Op> := [];
    var todo := next.Keys;
    while todo != {}
      invariant todo <= next.Keys
      invariant forall a: Address :: a in added <==> a !in todo && Changed(previous, next, a)
      invariant forall a :: a in added ==> next[a].key.raw.Some?
      invariant config == Assigns(next, added)
      decreases |todo|
    {
      var a :| a in todo;
      todo := todo - {a};
      if a in previous && previous[a].key == next[a].key && previous[a].endpoint == next[a].endpoint {
        continue;
      }
      assert Changed(previous, next, a);
      if next[a].key.raw.None? {
        return None, added;
      }
      config := config + [AssignOf(next, a)];
      added := added + [a];
    }
    ops := Some(config);
  }

  method EmitRemoves(previous: Peers, next: Peers) returns (ops: Option<seq<Op>>, ghost gone: seq<Address>)
    ensures ops.None? <==> exists a :: Retired(previous, next, a) && previous[a].key.raw.None?
    ensures ops.Some? ==>
      && (forall a: Address :: a in gone <==> Retired(previous, next, a))
      && (forall a :: a in gone ==> previous[a].key.raw.Some?)
      && ops.value == Removes(previous, gone)
  {
    gone := [];
    var config: seq<Op> := [];
    var todo := previous.Keys;
    while todo != {}
      invariant todo <= previous.Keys
      invariant forall a: Address :: a in gone <==> a !in todo && Retired(previous, next, a)
      invariant forall a :: a in gone ==> previous[a].key.raw.Some?
      invariant config == Removes(previous, gone)
      decreases |todo|
    {
      var a :| a in todo;
      todo := todo - {a};
      if a in next && next[a].key == previous[a].key {
        continue;
      }
      assert Retired(previous, next, a);
      if previous[a].key.raw.None? {
        return None, gone;
      }
      config := config + [Remove(RawAt(previous, a))];
      gone := gone + [a];
    }
    ops := Some(config);
  }

  /**
   The operations of the configuration text, or None when a key it must name does not decode.
   Map iteration takes the addresses in an order of its own.
   */
  method Emit(previous: Peers, next: Peers)
    returns (ops: Option<seq<Op>>, ghost added: seq<Address>, ghost gone: seq<Address>)
    ensures ops.None? <==>
      || (exists a :: Changed(previous, next, a) && next[a].key.raw.None?)
      || (exists a :: Retired(previous, next, a) && previous[a].key.raw.None?)
    ensures ops.Some? && Decodes(previous) && Decodes(next) ==>
      Orders(previous, next, added, gone) && ops.value == Assigns(next, added) + Removes(previous, gone)
  {
    var assigns, removes;
    gone := [];
    assigns, added := EmitAssigns(previous, next);
    if assigns.None? {
      return None, added, gone;
    }
    removes, gone := EmitRemoves(previous, next);
    if removes.None? {
      return None, added, gone;
    }
    ops := Some(assigns.value + removes.value);
  }
}
