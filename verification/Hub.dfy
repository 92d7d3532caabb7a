/**
 The relay hub's reconciliation of its interface with the database's active
 devices: every record is (re)applied, then every other peer is removed.
 */
module Hub {
  import opened Options
  import opened PeerTable

  datatype Record = Record(key: KeyText, address: Address, endpoint: Option<Endpoint>)

  predicate Decode(records: seq<Record>) {
    forall i :: 0 <= i < |records| ==> records[i].key.raw.Some?
  }

  predicate DistinctRecords(records: seq<Record>)
    requires Decode(records)
  {
    forall i, j :: 0 <= i < j < |records| ==>
      records[i].key.raw != records[j].key.raw && records[i].address != records[j].address
  }

  predicate Canonical(records: seq<Record>) {
    forall i :: 0 <= i < |records| ==> records[i].key.spelling == 0
  }

  function AssignOf(r: Record): Op
    requires r.key.raw.Some?
  {
    Assign(r.key.raw.value, r.address, r.endpoint)
  }

  ghost predicate KeyOf(records: seq<Record>, k: Key) {
    exists i :: 0 <= i < |records| && records[i].key.raw == Some(k)
  }

  ghost predicate AddressOf(records: seq<Record>, a: Address) {
    exists i :: 0 <= i < |records| && records[i].address == a
  }

  ghost predicate AllRouted(t: Table, records: seq<Record>)
    requires Decode(records)
  {
    forall i :: 0 <= i < |records| ==> Routed(t, records[i])
  }

  /** The interface holds exactly the records: their keys, each with its one address and named endpoint. */
  ghost predicate Exact(t: Table, records: seq<Record>)
    requires Decode(records)
  {
    && (forall k: Key :: k in t.peers <==> KeyOf(records, k))
    && (forall a: Address :: a in t.routes <==> AddressOf(records, a))
    && AllRouted(t, records)
  }

  predicate Routed(t: Table, r: Record)
    requires r.key.raw.Some?
  {
    && r.address in t.routes && t.routes[r.address] == r.key.raw.value
    && r.key.raw.value in t.peers
    && (r.endpoint.Some? ==> t.peers[r.key.raw.value] == r.endpoint)
  }

  /** The text a listing of the interface prints for k. */
  function Printed(k: Key): KeyText {
    KeyText(Some(k), 0)
  }

  /** A listing of the interface: each known key once, in some order. */
  ghost predicate IsListing(t: Table, listing: seq<KeyText>) {
    && (forall k: Key :: k in t.peers <==> Printed(k) in listing)
    && (forall x :: x in listing ==> x.raw.Some? && x == Printed(x.raw.value))
  }

  function Texts(records: seq<Record>): set<KeyText> {
    set r | r in records :: r.key
  }

  // ----- the two passes -----

  function Assigns(records: seq<Record>): (ops: seq<Op>)
    requires Decode(records)
    ensures |ops| == |records|
  {
    seq(|records|, i requires 0 <= i < |records| => AssignOf(records[i]))
  }

  /** Removals for the listed keys whose text is no record's. */
  function Removals(listing: seq<KeyText>, keep: set<KeyText>): (ops: seq<Op>)
    requires forall x :: x in listing ==> x.raw.Some?
    ensures |ops| <= |listing| && forall i :: 0 <= i < |ops| ==> ops[i].Remove?
  {
    if listing == [] then []
    else
      var n := |listing| - 1;
      var rest := Removals(listing[..n], keep);
      if listing[n] in keep then rest else rest + [Remove(listing[n].raw.value)]
  }

  lemma {:induction false} RemovedAreUnkept(listing: seq<KeyText>, keep: set<KeyText>, k: Key)
    requires forall x :: x in listing ==> x.raw.Some?
    ensures Remove(k) in Removals(listing, keep) <==> exists x :: x in listing && x !in keep && x.raw.value == k
    decreases |listing|
  {
    if listing != [] {
      var n := |listing| - 1;
      RemovedAreUnkept(listing[..n], keep, k);
      assert listing == listing[..n] + [listing[n]];
    }
  }

  function Synced(t: Table, records: seq<Record>, listing: seq<KeyText>): Table
    requires Decode(records) && forall x :: x in listing ==> x.raw.Some?
  {
    DoAll(DoAll(t, Assigns(records)), Removals(listing, Texts(records)))
  }

  /** After the first pass every record is in place, whatever the interface held before. */
  lemma {:induction false} FirstPassRoutes(t: Table, records: seq<Record>, i: nat)
    requires Decode(records) && DistinctRecords(records) && i < |records|
    ensures Routed(DoAll(t, Assigns(records)), records[i])
    decreases |records|
  {
    var n := |records| - 1;
    var rest := records[..n];
    assert Assigns(records)[..n] == Assigns(rest);
    if i < n {
      FirstPassRoutes(t, rest, i);
      assert rest[i] == records[i];
    }
  }

  lemma {:induction false} FirstPassAdds(t: Table, records: seq<Record>)
    requires Decode(records) && WellFormed(t)
    ensures var u := DoAll(t, Assigns(records));
      && WellFormed(u)
      && (forall i :: 0 <= i < |records| ==> records[i].key.raw.value in u.peers)
    decreases |records|
  {
    if records != [] {
      var n := |records| - 1;
      var rest := records[..n];
      assert Assigns(records)[..n] == Assigns(rest);
      FirstPassAdds(t, rest);
      assert forall i :: 0 <= i < n ==> rest[i] == records[i];
    }
  }

  lemma {:induction false} RemovalsLeave(t: Table, cuts: seq<Op>)
    requires forall i :: 0 <= i < |cuts| ==> cuts[i].Remove?
    ensures var u := DoAll(t, cuts);
      && (forall k: Key :: k in u.peers <==> k in t.peers && Remove(k) !in cuts)
      && (forall a: Address :: a in u.routes <==> a in t.routes && Remove(t.routes[a]) !in cuts)
      && (forall a: Address :: a in u.routes ==> u.routes[a] == t.routes[a])
      && (forall k: Key :: k in u.peers ==> u.peers[k] == t.peers[k])
    decreases |cuts|
  {
    if cuts != [] {
      var n := |cuts| - 1;
      RemovalsLeave(t, cuts[..n]);
      assert cuts == cuts[..n] + [cuts[n]];
    }
  }

  lemma FirstPassHoldsOne(t: Table, records: seq<Record>, i: nat)
    requires Decode(records) && i < |records|
    ensures AtMostOne(DoAll(t, Assigns(records)), records[i].key.raw.value)
  {
    AssignedHoldsOne(t, Assigns(records), i);
  }

  lemma SecondPassKeepsRecords(t: Table, records: seq<Record>, listing: seq<KeyText>)
    requires Decode(records) && DistinctRecords(records) && Canonical(records)
    requires IsListing(DoAll(t, Assigns(records)), listing)
    ensures AllRouted(Synced(t, records, listing), records)
  {
    RemovalsLeave(DoAll(t, Assigns(records)), Removals(listing, Texts(records)));
    forall i | 0 <= i < |records| ensures Routed(Synced(t, records, listing), records[i]) {
      FirstPassRoutes(t, records, i);
      KeptIsNotCut(records, listing, i);
    }
  }

  lemma SecondPassKeepsOnlyRecords(t: Table, records: seq<Record>, listing: seq<KeyText>, k: Key)
    requires Decode(records) && IsListing(DoAll(t, Assigns(records)), listing)
    requires k in Synced(t, records, listing).peers
    ensures KeyOf(records, k)
  {
    var cuts := Removals(listing, Texts(records));
    RemovalsLeave(DoAll(t, Assigns(records)), cuts);
    RemovedAreUnkept(listing, Texts(records), k);
    assert Printed(k) in listing && Remove(k) !in cuts;
    assert Printed(k) in Texts(records);
  }

  lemma SyncedRouteIsRecorded(t: Table, records: seq<Record>, listing: seq<KeyText>, a: Address)
    requires WellFormed(t) && Decode(records) && IsListing(DoAll(t, Assigns(records)), listing)
    requires a in Synced(t, records, listing).routes && AllRouted(Synced(t, records, listing), records)
    ensures AddressOf(records, a)
  {
    var mid, u := DoAll(t, Assigns(records)), Synced(t, records, listing);
    FirstPassAdds(t, records);
    RemovalsLeave(mid, Removals(listing, Texts(records)));
    var k := u.routes[a];
    SecondPassKeepsOnlyRecords(t, records, listing, k);
    var i :| 0 <= i < |records| && records[i].key.raw == Some(k);
    FirstPassHoldsOne(t, records, i);
    assert Routed(u, records[i]);
  }

  /** From any interface table, a full sync of canonical records ends with exactly those records. */
  lemma SyncIsExact(t: Table, records: seq<Record>, listing: seq<KeyText>)
    requires WellFormed(t) && Decode(records) && DistinctRecords(records) && Canonical(records)
    requires IsListing(DoAll(t, Assigns(records)), listing)
    ensures Exact(Synced(t, records, listing), records)
  {
    hide Assigns, Removals, DoAll, WellFormed, DistinctRecords, Canonical, Texts, Synced;
    var u := Synced(t, records, listing);
    SecondPassKeepsRecords(t, records, listing);
    forall k: Key ensures k in u.peers <==> KeyOf(records, k) {
      if k in u.peers {
        SecondPassKeepsOnlyRecords(t, records, listing, k);
      }
    }
    forall a: Address ensures a in u.routes <==> AddressOf(records, a) {
      if a in u.routes {
        SyncedRouteIsRecorded(t, records, listing, a);
      }
    }
  }

  lemma KeptIsNotCut(records: seq<Record>, listing: seq<KeyText>, i: nat)
    requires Decode(records) && Canonical(records) && i < |records|
    requires forall x :: x in listing ==> x.raw.Some? && x == Printed(x.raw.value)
    ensures Remove(records[i].key.raw.value) !in Removals(listing, Texts(records))
  {
    assert records[i].key == Printed(records[i].key.raw.value);
    assert records[i].key in Texts(records);
    RemovedAreUnkept(listing, Texts(records), records[i].key.raw.value);
  }

  /** A record whose key is spelled differently from the listing is removed again. */
  lemma MisspelledIsRemoved(t: Table, records: seq<Record>, listing: seq<KeyText>, i: nat)
    requires WellFormed(t) && Decode(records) && DistinctRecords(records)
    requires i < |records| && records[i].key.spelling != 0
    requires IsListing(DoAll(t, Assigns(records)), listing)
    ensures records[i].key.raw.value !in Synced(t, records, listing).peers
  {
    var mid, k := DoAll(t, Assigns(records)), records[i].key.raw.value;
    FirstPassRoutes(t, records, i);
    assert Printed(k) in listing;
    forall r | r in records ensures r.key != Printed(k) {
      var j :| 0 <= j < |records| && records[j] == r;
      if j == i {
        assert r.key.spelling != 0;
      } else {
        assert records[j].key.raw != records[i].key.raw;
      }
    }
    assert Printed(k) !in Texts(records);
    RemovedAreUnkept(listing, Texts(records), k);
    RemovalsLeave(mid, Removals(listing, Texts(records)));
  }

  /** For records with distinct keys and addresses, sync is exact precisely when the keys are spelled canonically. */
  lemma SyncIsExactIffCanonical(t: Table, records: seq<Record>, listing: seq<KeyText>)
    requires WellFormed(t) && Decode(records) && DistinctRecords(records)
    requires IsListing(DoAll(t, Assigns(records)), listing)
    ensures Exact(Synced(t, records, listing), records) <==> Canonical(records)
  {
    if Canonical(records) {
      SyncIsExact(t, records, listing);
    } else {
      var i :| 0 <= i < |records| && records[i].key.spelling != 0;
      MisspelledIsRemoved(t, records, listing, i);
    }
  }

  /** A sync that stopped after any of its operations is made good by the next one. */
  lemma AbortedSyncIsRepaired(t: Table, earlier: seq<Op>, stopped: nat, records: seq<Record>, listing: seq<KeyText>)
    requires WellFormed(t) && stopped <= |earlier|
    requires Decode(records) && DistinctRecords(records) && Canonical(records)
    requires IsListing(DoAll(DoAll(t, earlier[..stopped]), Assigns(records)), listing)
    ensures Exact(Synced(DoAll(t, earlier[..stopped]), records, listing), records)
  {
    DoAllKeepsWellFormed(t, earlier[..stopped]);
    SyncIsExact(DoAll(t, earlier[..stopped]), records, listing);
  }

  // ----- syncing again -----

  /** Assigning a record that is in place, and whose key has no other address, changes nothing. */
  lemma InPlaceIsKept(t: Table, r: Record)
    requires r.key.raw.Some? && Routed(t, r) && AtMostOne(t, r.key.raw.value)
    ensures Do(t, AssignOf(r)) == t
  {
    var u, k := Do(t, AssignOf(r)), r.key.raw.value;
    assert u.peers == t.peers;
    forall a: Address ensures a in u.routes <==> a in t.routes {
      if a in t.routes && t.routes[a] == k {
        assert a == r.address;
      }
    }
    assert u.routes == t.routes;
  }

  /** Every record is in place, and no key has a second address. */
  ghost predicate Settled(t: Table, records: seq<Record>)
    requires Decode(records)
  {
    forall i :: 0 <= i < |records| ==> Routed(t, records[i]) && AtMostOne(t, records[i].key.raw.value)
  }

  lemma {:induction false} SettledIsKept(t: Table, records: seq<Record>)
    requires Decode(records) && Settled(t, records)
    ensures DoAll(t, Assigns(records)) == t
    decreases |records|
  {
    hide Routed, AtMostOne;
    if records != [] {
      var n := |records| - 1;
      var rest := records[..n];
      assert forall i :: 0 <= i < n ==> rest[i] == records[i];
      SettledIsKept(t, rest);
      assert Assigns(records)[..n] == Assigns(rest) && Assigns(records)[n] == AssignOf(records[n]);
      InPlaceIsKept(t, records[n]);
    }
  }

  lemma FewerRoutes(t: Table, u: Table, k: Key)
    requires AtMostOne(t, k) && forall a: Address :: a in u.routes ==> a in t.routes && u.routes[a] == t.routes[a]
    ensures AtMostOne(u, k)
  {
  }

  lemma SyncedIsSettled(t: Table, records: seq<Record>, listing: seq<KeyText>)
    requires Decode(records) && DistinctRecords(records) && Canonical(records)
    requires IsListing(DoAll(t, Assigns(records)), listing)
    ensures Settled(Synced(t, records, listing), records)
  {
    hide Routed, AtMostOne, DistinctRecords, Canonical;
    var mid, u := DoAll(t, Assigns(records)), Synced(t, records, listing);
    SecondPassKeepsRecords(t, records, listing);
    RemovalsLeave(mid, Removals(listing, Texts(records)));
    forall i | 0 <= i < |records| ensures Routed(u, records[i]) && AtMostOne(u, records[i].key.raw.value) {
      FirstPassHoldsOne(t, records, i);
      FewerRoutes(mid, u, records[i].key.raw.value);
    }
  }

  /** On an interface that holds exactly the records, the second pass finds nothing to remove. */
  lemma NothingToRemove(u: Table, records: seq<Record>, again: seq<KeyText>)
    requires Decode(records) && Canonical(records) && Exact(u, records) && IsListing(u, again)
    ensures Removals(again, Texts(records)) == []
  {
    var cuts := Removals(again, Texts(records));
    if cuts != [] {
      assert cuts[0].Remove? && cuts[0] in cuts;
      var k := cuts[0].key;
      RemovedAreUnkept(again, Texts(records), k);
      assert k in u.peers;
      var i :| 0 <= i < |records| && records[i].key.raw == Some(k);
      KeptIsNotCut(records, again, i);
      assert false;
    }
  }

  /** Syncing again leaves the whole table as it is: peers, routes and endpoints. */
  lemma SyncIsIdempotent(t: Table, records: seq<Record>, listing: seq<KeyText>, again: seq<KeyText>)
    requires WellFormed(t) && Decode(records) && DistinctRecords(records) && Canonical(records)
    requires IsListing(DoAll(t, Assigns(records)), listing)
    requires IsListing(DoAll(Synced(t, records, listing), Assigns(records)), again)
    ensures Synced(Synced(t, records, listing), records, again) == Synced(t, records, listing)
  {
    var once := Synced(t, records, listing);
    SyncIsExact(t, records, listing);
    SyncedIsSettled(t, records, listing);
    SettledIsKept(once, records);
    NothingToRemove(once, records, again);
    hide Exact, Settled, Assigns, Removals, IsListing, WellFormed;
    assert DoAll(once, []) == once;
  }

  lemma AppendedRecord(records: seq<Record>, r: Record)
    requires Decode(records) && r.key.raw.Some?
    ensures Decode(records + [r])
    ensures forall k: Key :: KeyOf(records + [r], k) <==> KeyOf(records, k) || r.key.raw == Some(k)
    ensures forall a: Address :: AddressOf(records + [r], a) <==> AddressOf(records, a) || r.address == a
  {
    var all := records + [r];
    assert all[|records|] == r;
    assert forall i :: 0 <= i < |records| ==> all[i] == records[i];
    forall k: Key | KeyOf(records, k) ensures KeyOf(all, k) {
      var i :| 0 <= i < |records| && records[i].key.raw == Some(k);
      assert all[i].key.raw == Some(k);
    }
    forall a: Address | AddressOf(records, a) ensures AddressOf(all, a) {
      var i :| 0 <= i < |records| && records[i].address == a;
      assert all[i].address == a;
    }
  }

  /** Syncing one new device on an exact interface gives the interface of the enlarged records. */
  lemma OneDeviceExtends(t: Table, records: seq<Record>, r: Record)
    requires Decode(records) && r.key.raw.Some? && Exact(t, records)
    requires !KeyOf(records, r.key.raw.value) && !AddressOf(records, r.address)
    ensures Decode(records + [r]) && Exact(Do(t, AssignOf(r)), records + [r])
  {
    hide KeyOf, AddressOf, AllRouted, Routed;
    AppendedRecord(records, r);
    NewKeyHasNoRoute(t, records, r.key.raw.value);
    OthersStayRouted(t, records, r);
    assert Do(t, AssignOf(r)).routes == t.routes[r.address := r.key.raw.value];
  }

  lemma OthersStayRouted(t: Table, records: seq<Record>, r: Record)
    requires Decode(records) && r.key.raw.Some? && Decode(records + [r]) && AllRouted(t, records)
    requires !KeyOf(records, r.key.raw.value) && !AddressOf(records, r.address)
    ensures AllRouted(Do(t, AssignOf(r)), records + [r])
  {
    var all := records + [r];
    forall i | 0 <= i < |all| ensures Routed(Do(t, AssignOf(r)), all[i]) {
      if i < |records| {
        assert all[i] == records[i] && Routed(t, records[i]);
        RecordIsListed(records, i);
      }
    }
  }

  lemma RecordIsListed(records: seq<Record>, i: nat)
    requires Decode(records) && i < |records|
    ensures KeyOf(records, records[i].key.raw.value) && AddressOf(records, records[i].address)
  {
  }

  lemma NewKeyHasNoRoute(t: Table, records: seq<Record>, k: Key)
    requires Decode(records) && Exact(t, records) && !KeyOf(records, k)
    ensures forall a: Address :: a in t.routes ==> t.routes[a] != k
  {
    forall a: Address | a in t.routes ensures t.routes[a] != k {
      var i :| 0 <= i < |records| && records[i].address == a;
      assert Routed(t, records[i]);
      RecordIsListed(records, i);
    }
  }

  /** However the interface stands, syncing one device routes its address to its current key, to no other address. */
  lemma OneDeviceIsRouted(t: Table, r: Record)
    requires r.key.raw.Some?
    ensures Routed(Do(t, AssignOf(r)), r) && AtMostOne(Do(t, AssignOf(r)), r.key.raw.value)
    ensures forall a: Address :: a != r.address && a in t.routes && t.routes[a] != r.key.raw.value ==>
      a in Do(t, AssignOf(r)).routes && Do(t, AssignOf(r)).routes[a] == t.routes[a]
  {
  }

  lemma {:induction false} RemovalsPrefix(listing: seq<KeyText>, keep: set<KeyText>, i: nat)
    requires i <= |listing| && forall x :: x in listing ==> x.raw.Some?
    ensures |Removals(listing[..i], keep)| <= |Removals(listing, keep)|
    ensures Removals(listing[..i], keep) == Removals(listing, keep)[..|Removals(listing[..i], keep)|]
    decreases |listing|
  {
    var n := |listing| - 1;
    if i == |listing| {
      assert listing[..i] == listing;
    } else {
      RemovalsPrefix(listing[..n], keep, i);
      assert listing[..n][..i] == listing[..i];
    }
  }

  // ----- the object -----

  /** Which calls of a sync fail: after how many of each pass, and the listing between them. */
  datatype Failures = Failures(first: Option<nat>, listing: bool, second: Option<nat>)

  /** The interface, driven by calls that may fail. A failed call changes nothing. */
  class Interface {
    var table: Table

    constructor (t: Table)
      ensures table == t
    {
      table := t;
    }

    /** A text that does not decode to a key is refused. */
    method FirstPass(records: seq<Record>, fails: Option<nat>) returns (ok: bool, done: nat, keep: set<KeyText>)
      modifies this
      ensures done <= |records| && Decode(records[..done]) && (ok ==> done == |records| && keep == Texts(records))
      ensures table == DoAll(old(table), Assigns(records[..done]))
      ensures !ok ==> done < |records| && (fails == Some(done) || records[done].key.raw.None?)
    {
      keep := {};
      done := 0;
      while done < |records|
        invariant done <= |records| && Decode(records[..done])
        invariant table == DoAll(old(table), Assigns(records[..done]))
        invariant keep == Texts(records[..done])
      {
        assert records[..done + 1] == records[..done] + [records[done]];
        keep := keep + {records[done].key};
        if fails == Some(done) || records[done].key.raw.None? {
          return false, done, keep;
        }
        var op := AssignOf(records[done]);
        DoAllAppend(old(table), Assigns(records[..done]), op);
        assert Assigns(records[..done + 1]) == Assigns(records[..done]) + [op];
        table := Do(table, op);
        done := done + 1;
      }
      assert records[..|records|] == records;
      ok := true;
    }

    method SecondPass(listing: seq<KeyText>, keep: set<KeyText>, fails: Option<nat>) returns (ok: bool, done: nat)
      requires forall x :: x in listing ==> x.raw.Some?
      modifies this
      ensures done <= |Removals(listing, keep)| && (ok ==> done == |Removals(listing, keep)|)
      ensures table == DoAll(old(table), Removals(listing, keep)[..done])
    {
      done := 0;
      for i := 0 to |listing|
        invariant done == |Removals(listing[..i], keep)|
        invariant table == DoAll(old(table), Removals(listing[..i], keep))
      {
        assert listing[..i + 1][..i] == listing[..i];
        if listing[i] in keep {
          continue;
        }
        if fails == Some(done) {
          RemovalsPrefix(listing, keep, i);
          return false, done;
        }
        var op := Remove(listing[i].raw.value);
        DoAllAppend(old(table), Removals(listing[..i], keep), op);
        table := Do(table, op);
        done := done + 1;
      }
      assert listing[..|listing|] == listing;
      assert Removals(listing, keep)[..done] == Removals(listing, keep);
      ok := true;
    }

    /**
     fails: after how many calls of each pass, if any, one fails, and whether listing the interface does. A sync
     that fails has made the first calls of its first pass, or all of those and the first calls of its second.
     */
    method SyncAll(records: seq<Record>, fails: Failures) returns (ok: bool)
      modifies this
      ensures ok ==> Decode(records) && exists listing ::
        && IsListing(DoAll(old(table), Assigns(records)), listing)
        && table == Synced(old(table), records, listing)
      ensures !ok ==>
        || (exists n :: 0 <= n < |records| && Decode(records[..n]) && table == DoAll(old(table), Assigns(records[..n])))
        || (Decode(records) && exists listing, n ::
              && IsListing(DoAll(old(table), Assigns(records)), listing)
              && 0 <= n <= |Removals(listing, Texts(records))|
              && table == DoAll(DoAll(old(table), Assigns(records)), Removals(listing, Texts(records))[..n]))
      ensures ok && WellFormed(old(table)) && DistinctRecords(records) && Canonical(records) ==> Exact(table, records)
    {
      var done, keep;
      ok, done, keep := FirstPass(records, fails.first);
      if !ok {
        return;
      }
      assert records[..done] == records;
      var listing := List();
      if fails.listing {
        assert Removals(listing, Texts(records))[..0] == [];
        return false;
      }
      ok, done := SecondPass(listing, keep, fails.second);
      if ok {
        assert Removals(listing, keep)[..done] == Removals(listing, keep);
        if WellFormed(old(table)) && DistinctRecords(records) && Canonical(records) {
          SyncIsExact(old(table), records, listing);
        }
      }
    }

    /** One device; a device with no record means a full sync, which takes it off the interface. */
    method SyncDevice(found: Option<Record>, records: seq<Record>, fails: Failures) returns (ok: bool)
      modifies this
      ensures found.Some? && ok ==>
        && found.value.key.raw.Some?
        && table == Do(old(table), AssignOf(found.value)) && Routed(table, found.value)
      ensures found.Some? && !ok ==> table == old(table)
      ensures found.None? && ok ==> Decode(records)
      ensures found.None? && ok && WellFormed(old(table)) && DistinctRecords(records) && Canonical(records) ==>
        Exact(table, records)
    {
      if found.None? {
        ok := SyncAll(records, fails);
        return;
      }
      if fails.first == Some(0) || found.value.key.raw.None? {
        return false;
      }
      table := Do(table, AssignOf(found.value));
      ok := true;
    }

    method List() returns (listing: seq<KeyText>)
      ensures IsListing(table, listing)
    {
      listing := [];
      var todo := table.peers.Keys;
      while todo != {}
        invariant todo <= table.peers.Keys
        invariant forall k: Key :: k in table.peers && k !in todo <==> Printed(k) in listing
        invariant forall x :: x in listing ==> x.raw.Some? && x == Printed(x.raw.value)
        decreases |todo|
      {
        var k :| k in todo;
        todo := todo - {k};
        listing := listing + [Printed(k)];
      }
    }
  }

}
