/**
 A WireGuard interface's peers: which public keys it knows, the endpoint last
 configured for each, and which key each address is routed to. An address has one
 key, so assigning it to a key takes it from the key that had it.
 */
module PeerTable {
  import opened Options

  /** The 32 bytes of a public key, as a number. */
  type Key = nat
  type Address = nat
  type Endpoint = nat

  /**
   A public key as text. `raw` is what the base64 decoder makes of it, if that is 32 bytes.
   Different texts can decode to the same key; the one an encoder would print has spelling 0.
   */
  datatype KeyText = KeyText(raw: Option<Key>, spelling: nat)

  datatype Table = Table(peers: map<Key, Option<Endpoint>>, routes: map<Address, Key>)

  const EMPTY: Table := Table(map[], map[])

  datatype Op =
    | Assign(key: Key, address: Address, endpoint: Option<Endpoint>)
    | Remove(key: Key)

  function Without(routes: map<Address, Key>, k: Key): map<Address, Key> {
    map a | a in routes && routes[a] != k :: routes[a]
  }

  /** The endpoint of k after a call that names `endpoint`, or names none. */
  function Reached(t: Table, k: Key, endpoint: Option<Endpoint>): Option<Endpoint> {
    if endpoint.Some? then endpoint else if k in t.peers then t.peers[k] else None
  }

  function Do(t: Table, op: Op): Table {
    match op
    case Assign(k, a, e) => Table(t.peers[k := Reached(t, k, e)], Without(t.routes, k)[a := k])
    case Remove(k) => Table(t.peers - {k}, Without(t.routes, k))
  }

  function DoAll(t: Table, ops: seq<Op>): Table
    decreases |ops|
  {
    if ops == [] then t else Do(DoAll(t, ops[..|ops| - 1]), ops[|ops| - 1])
  }

  lemma DoAllAppend(t: Table, ops: seq<Op>, op: Op)
    ensures DoAll(t, ops + [op]) == Do(DoAll(t, ops), op)
  {
    assert (ops + [op])[..|ops|] == ops;
  }

  lemma {:induction false} DoAllConcat(t: Table, ops: seq<Op>, more: seq<Op>)
    ensures DoAll(t, ops + more) == DoAll(DoAll(t, ops), more)
    decreases |more|
  {
    if more == [] {
      assert ops + more == ops;
    } else {
      var n := |more| - 1;
      assert (ops + more)[..|ops + more| - 1] == ops + more[..n];
      DoAllConcat(t, ops, more[..n]);
    }
  }

  /** Every route leads to a known peer. */
  predicate WellFormed(t: Table) {
    forall a :: a in t.routes ==> t.routes[a] in t.peers
  }

  lemma {:induction false} DoAllKeepsWellFormed(t: Table, ops: seq<Op>)
    requires WellFormed(t)
    ensures WellFormed(DoAll(t, ops))
    decreases |ops|
  {
    if ops != [] {
      DoAllKeepsWellFormed(t, ops[..|ops| - 1]);
    }
  }

  /** At most one address is routed to k. */
  predicate AtMostOne(t: Table, k: Key) {
    forall a, b :: a in t.routes && b in t.routes && t.routes[a] == k && t.routes[b] == k ==> a == b
  }

  /** Once a key has been assigned it keeps at most one address, whatever follows. */
  lemma {:induction false} AssignedHoldsOne(t: Table, ops: seq<Op>, i: nat)
    requires i < |ops| && ops[i].Assign?
    ensures AtMostOne(DoAll(t, ops), ops[i].key)
    decreases |ops|
  {
    var n := |ops| - 1;
    if i < n {
      AssignedHoldsOne(t, ops[..n], i);
      assert ops[..n][i] == ops[i];
    }
  }

  /** A key removed and not assigned afterwards is unknown. */
  lemma {:induction false} RemovedIsGone(t: Table, ops: seq<Op>, i: nat)
    requires i < |ops| && ops[i].Remove?
    requires forall j :: i < j < |ops| && ops[j].Assign? ==> ops[j].key != ops[i].key
    ensures ops[i].key !in DoAll(t, ops).peers
    decreases |ops|
  {
    var n := |ops| - 1;
    if i < n {
      RemovedIsGone(t, ops[..n], i);
      assert ops[..n][i] == ops[i];
    }
  }
}
