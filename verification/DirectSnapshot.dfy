/**
 The server's snapshot for one device: which peers it is told about, until when
 each is valid, and when the earliest of them runs out.
 */
module DirectSnapshot {
  import opened Options

  type Id = nat

  /** endpoint: the registered host and port, when they make a usable endpoint. */
  datatype Device = Device(id: Id, owner: nat, active: bool, scoped: bool, mobile: bool, homePort: Option<nat>,
                           overlay: Option<nat>, key: Option<nat>, endpoint: Option<nat>)

  datatype Grant = Grant(mobile: Id, home: Id, expires: int)

  datatype Db = Db(devices: set<Device>, grants: set<Grant>)

  /** home: the device a capability token names, if any. */
  datatype Claims = Claims(subject: nat, home: Option<Id>, mobileAudience: bool, adminAudience: bool, expires: int)

  datatype Peer = Peer(device: Id, key: nat, overlay: nat, endpoint: Option<nat>, validUntil: Option<int>)

  // ----- grants -----

  /** The grants between the asking device and d that are still live. */
  predicate LiveGrant(g: Grant, source: Device, d: Id, now: int) {
    && g.expires > now
    && if source.mobile then g.mobile == source.id && g.home == d else g.home == source.id && g.mobile == d
  }

  predicate HasLive(db: Db, source: Device, d: Id, now: int) {
    exists g :: g in db.grants && LiveGrant(g, source, d, now)
  }

  ghost predicate IsMinLive(db: Db, source: Device, d: Id, now: int, e: int) {
    && (exists g :: g in db.grants && LiveGrant(g, source, d, now) && g.expires == e)
    && (forall g :: g in db.grants && LiveGrant(g, source, d, now) ==> e <= g.expires)
  }

  lemma {:induction false} MinLiveExists(grants: set<Grant>, devices: set<Device>, source: Device, d: Id, now: int)
    returns (e: int)
    requires HasLive(Db(devices, grants), source, d, now)
    ensures IsMinLive(Db(devices, grants), source, d, now, e)
    decreases |grants|
  {
    var g :| g in grants && LiveGrant(g, source, d, now);
    var rest := grants - {g};
    e := g.expires;
    if HasLive(Db(devices, rest), source, d, now) {
      var f := MinLiveExists(rest, devices, source, d, now);
      if f < e {
        e := f;
      }
    }
    assert forall h :: h in grants ==> h == g || h in rest;
  }

  // ----- the query -----

  /** Neither end of the pair is the specially configured home. */
  predicate AwayFromHome(configured: Option<Id>, source: Device, d: Device) {
    configured.None? || (d.id != configured.value && source.id != configured.value)
  }

  predicate OwnUnscoped(claims: Claims, d: Device) {
    d.owner == claims.subject && !d.scoped
  }

  /** The WHERE clause. */
  predicate Selected(db: Db, now: int, claims: Claims, configured: Option<Id>, source: Device, d: Device) {
    && d in db.devices && d.active && d.id != source.id && d.overlay.Some? && d.key.Some?
    && (OwnUnscoped(claims, d) || HasLive(db, source, d.id, now))
    && (!source.mobile || claims.home.None? || d.id == claims.home.value)
    && (|| AwayFromHome(configured, source, d)
        || (source.mobile && source.scoped && d.id == configured.value && HasLive(db, source, d.id, now))
        || (!source.mobile && source.id == configured.value && d.scoped && HasLive(db, source, d.id, now)))
    && (if source.mobile then d.homePort.Some? else d.mobile)
  }

  /** The CASE expression. */
  ghost predicate IsExpiry(db: Db, now: int, claims: Claims, configured: Option<Id>, source: Device, d: Device,
                           e: Option<int>)
  {
    if OwnUnscoped(claims, d) && AwayFromHome(configured, source, d) then e == None
    else match e
      case None => !HasLive(db, source, d.id, now)
      case Some(v) => IsMinLive(db, source, d.id, now, v)
  }

  /** A peer the query selects is unlimited exactly when it is the user's own, unscoped and away from the home. */
  lemma SelectedExpiry(db: Db, now: int, claims: Claims, configured: Option<Id>, source: Device, d: Device,
                       e: Option<int>)
    requires Selected(db, now, claims, configured, source, d)
    requires IsExpiry(db, now, claims, configured, source, d, e)
    ensures e.None? <==> OwnUnscoped(claims, d) && AwayFromHome(configured, source, d)
    ensures e.Some? ==> e.value > now && IsMinLive(db, source, d.id, now, e.value)
  {
  }

  // ----- the row loop -----

  datatype Row = Row(d: Device, expires: Option<int>)

  ghost predicate IsResult(db: Db, now: int, claims: Claims, configured: Option<Id>, source: Device, rows: seq<Row>) {
    && (forall i, j :: 0 <= i < j < |rows| ==> rows[i].d.id <= rows[j].d.id)
    && (forall i :: 0 <= i < |rows| ==>
          && Selected(db, now, claims, configured, source, rows[i].d)
          && IsExpiry(db, now, claims, configured, source, rows[i].d, rows[i].expires))
    && (forall d :: Selected(db, now, claims, configured, source, d) ==> exists i :: 0 <= i < |rows| && rows[i].d == d)
  }

  /** A mobile is told only about peers it can reach. */
  predicate Kept(source: Device, row: Row) {
    source.mobile ==> row.d.endpoint.Some?
  }

  function PeerOf(source: Device, row: Row): Peer
    requires row.d.key.Some? && row.d.overlay.Some?
  {
    Peer(row.d.id, row.d.key.value, row.d.overlay.value, if source.mobile then row.d.endpoint else None, row.expires)
  }

  predicate Complete(rows: seq<Row>) {
    forall i :: 0 <= i < |rows| ==> rows[i].d.key.Some? && rows[i].d.overlay.Some?
  }

  function PeersOf(source: Device, rows: seq<Row>): seq<Peer>
    requires Complete(rows)
  {
    if rows == [] then []
    else
      var n := |rows| - 1;
      var rest := PeersOf(source, rows[..n]);
      if Kept(source, rows[n]) then rest + [PeerOf(source, rows[n])] else rest
  }

  /** The earliest validUntil of the listed peers, or none. */
  ghost predicate IsNextExpiry(peers: seq<Peer>, next: Option<int>) {
    match next
    case None => forall p :: p in peers ==> p.validUntil.None?
    case Some(v) =>
      && (exists p :: p in peers && p.validUntil == Some(v))
      && (forall p :: p in peers && p.validUntil.Some? ==> v <= p.validUntil.value)
  }

  /** Times are after the zero time 0, which stands for "none yet". */
  method ReadRows(source: Device, rows: seq<Row>) returns (peers: seq<Peer>, next: Option<int>)
    requires Complete(rows)
    requires forall i :: 0 <= i < |rows| && rows[i].expires.Some? ==> rows[i].expires.value > 0
    ensures peers == PeersOf(source, rows)
    ensures IsNextExpiry(peers, next)
  {
    peers := [];
    var earliest := 0;
    for i := 0 to |rows|
      invariant peers == PeersOf(source, rows[..i]) && earliest >= 0
      invariant forall p :: p in peers && p.validUntil.Some? ==> p.validUntil.value > 0
      invariant earliest == 0 ==> forall p :: p in peers ==> p.validUntil.None?
      invariant earliest > 0 ==> exists p :: p in peers && p.validUntil == Some(earliest)
      invariant earliest > 0 ==> forall p :: p in peers && p.validUntil.Some? ==> earliest <= p.validUntil.value
    {
      assert rows[..i + 1][..i] == rows[..i];
      if source.mobile && rows[i].d.endpoint.None? {
        continue;
      }
      var peer := PeerOf(source, rows[i]);
      ghost var before := peers;
      peers := peers + [peer];
      assert peer in peers && forall p :: p in before ==> p in peers;
      if peer.validUntil.Some? && (earliest == 0 || peer.validUntil.value < earliest) {
        earliest := peer.validUntil.value;
      }
    }
    assert rows[..|rows|] == rows;
    next := if earliest == 0 then None else Some(earliest);
  }

  lemma {:induction false} PeersComeFromRows(source: Device, rows: seq<Row>, p: Peer)
    requires Complete(rows)
    ensures p in PeersOf(source, rows) <==>
      exists i :: 0 <= i < |rows| && Kept(source, rows[i]) && PeerOf(source, rows[i]) == p
    decreases |rows|
  {
    if rows != [] {
      PeersComeFromRows(source, rows[..|rows| - 1], p);
    }
  }

  /** p is listed for device d of the database. */
  ghost predicate Describes(p: Peer, db: Db, now: int, claims: Claims, configured: Option<Id>, source: Device,
                            d: Device)
  {
    && Selected(db, now, claims, configured, source, d) && p.device == d.id
    && Some(p.key) == d.key && Some(p.overlay) == d.overlay
    && (source.mobile ==> p.endpoint == d.endpoint && p.endpoint.Some?)
    && (p.validUntil.None? <==> OwnUnscoped(claims, d) && AwayFromHome(configured, source, d))
    && (p.validUntil.Some? ==> p.validUntil.value > now && IsMinLive(db, source, d.id, now, p.validUntil.value))
  }

  /** Every listed peer describes a selected device, and every selected device that can be reached is listed. */
  lemma ListedPeers(db: Db, now: int, claims: Claims, configured: Option<Id>, source: Device, rows: seq<Row>)
    requires IsResult(db, now, claims, configured, source, rows)
    ensures Complete(rows)
    ensures forall p :: p in PeersOf(source, rows) ==> exists d :: Describes(p, db, now, claims, configured, source, d)
    ensures forall d :: Selected(db, now, claims, configured, source, d) && (source.mobile ==> d.endpoint.Some?) ==>
      exists p :: p in PeersOf(source, rows) && Describes(p, db, now, claims, configured, source, d)
  {
    forall p | p in PeersOf(source, rows) ensures exists d :: Describes(p, db, now, claims, configured, source, d) {
      PeersComeFromRows(source, rows, p);
      var i :| 0 <= i < |rows| && Kept(source, rows[i]) && PeerOf(source, rows[i]) == p;
      RowDescribes(db, now, claims, configured, source, rows[i]);
    }
    forall d | Selected(db, now, claims, configured, source, d) && (source.mobile ==> d.endpoint.Some?)
      ensures exists p :: p in PeersOf(source, rows) && Describes(p, db, now, claims, configured, source, d)
    {
      var i :| 0 <= i < |rows| && rows[i].d == d;
      PeersComeFromRows(source, rows, PeerOf(source, rows[i]));
      RowDescribes(db, now, claims, configured, source, rows[i]);
    }
  }

  lemma RowDescribes(db: Db, now: int, claims: Claims, configured: Option<Id>, source: Device, row: Row)
    requires Selected(db, now, claims, configured, source, row.d) && Kept(source, row)
    requires IsExpiry(db, now, claims, configured, source, row.d, row.expires)
    ensures Describes(PeerOf(source, row), db, now, claims, configured, source, row.d)
  {
    SelectedExpiry(db, now, claims, configured, source, row.d, row.expires);
    hide IsExpiry, IsMinLive;
  }

  /** The asking device may have a snapshot. */
  predicate MayAsk(db: Db, claims: Claims, source: Device) {
    && source in db.devices && source.owner == claims.subject && source.active
    && source.overlay.Some? && source.key.Some? && (claims.home.None? || source.scoped)
    && (claims.mobileAudience && !claims.adminAudience ==> source.mobile)
    && (source.mobile || source.homePort.Some?)
  }

  // ----- granting -----

  /** The upsert of a capability stream: one grant per pair, the newest. */
  function Upsert(grants: set<Grant>, mobile: Id, home: Id, expires: int): set<Grant> {
    (set g | g in grants && !(g.mobile == mobile && g.home == home)) + {Grant(mobile, home, expires)}
  }

  predicate OnePerPair(grants: set<Grant>) {
    forall g, h :: g in grants && h in grants && g.mobile == h.mobile && g.home == h.home ==> g == h
  }

  lemma UpsertKeepsOnePerPair(grants: set<Grant>, mobile: Id, home: Id, expires: int)
    requires OnePerPair(grants)
    ensures OnePerPair(Upsert(grants, mobile, home, expires))
  {
  }

  /** The device can be a home: it is active, has its address and key, and has registered its service. */
  predicate CanServe(d: Device) {
    d.active && d.overlay.Some? && d.key.Some? && d.homePort.Some?
  }

  /** Until when a home is listed for a mobile whose only live grant for it is the one just written. */
  function GrantedUntil(claims: Claims, configured: Option<Id>, source: Device, home: Device): Option<int> {
    if OwnUnscoped(claims, home) && AwayFromHome(configured, source, home) then None else Some(claims.expires)
  }

  lemma GrantedHomeIsSelected(db: Db, now: int, claims: Claims, configured: Option<Id>, source: Device, home: Device)
    requires MayAsk(db, claims, source) && source.mobile && claims.home == Some(home.id) && claims.expires > now
    requires home in db.devices
    ensures var after := db.(grants := Upsert(db.grants, source.id, home.id, claims.expires));
      && (Selected(after, now, claims, configured, source, home) <==>
            && CanServe(home) && home.id != source.id
            && (AwayFromHome(configured, source, home) || home.id == configured.value))
      && (forall e :: IsMinLive(after, source, home.id, now, e) ==> e == claims.expires)
  {
    var after := db.(grants := Upsert(db.grants, source.id, home.id, claims.expires));
    var grant := Grant(source.id, home.id, claims.expires);
    assert grant in after.grants && LiveGrant(grant, source, home.id, now);
    assert forall g :: g in after.grants && LiveGrant(g, source, home.id, now) ==> g == grant;
  }

  /**
   After a mobile's capability stream has written its grant, the snapshot lists the home it names, until the
   token expires or, for the user's own unscoped device away from the configured home, without end. It does so
   exactly when that home can serve and has a usable endpoint, is not the mobile itself, and the mobile is not
   the configured home.
   */
  lemma GrantedHomeIsListed(db: Db, now: int, claims: Claims, configured: Option<Id>, source: Device, home: Device,
                            rows: seq<Row>)
    requires MayAsk(db, claims, source) && source.mobile && claims.home == Some(home.id) && claims.expires > now
    requires home in db.devices
    requires IsResult(db.(grants := Upsert(db.grants, source.id, home.id, claims.expires)), now, claims, configured,
                      source, rows)
    ensures var after := db.(grants := Upsert(db.grants, source.id, home.id, claims.expires));
      && Complete(rows)
      && ((exists p :: p in PeersOf(source, rows) && Describes(p, after, now, claims, configured, source, home)) <==>
            && CanServe(home) && home.endpoint.Some? && home.id != source.id
            && (AwayFromHome(configured, source, home) || home.id == configured.value))
      && (forall p :: Describes(p, after, now, claims, configured, source, home) ==>
            p.validUntil == GrantedUntil(claims, configured, source, home))
  {
    var after := db.(grants := Upsert(db.grants, source.id, home.id, claims.expires));
    GrantedHomeIsSelected(db, now, claims, configured, source, home);
    ListedPeers(after, now, claims, configured, source, rows);
    hide Selected, IsResult, IsMinLive, Complete, MayAsk;
  }
}
