/**
 The transactions that write `device_keys`: pairing a device, rotating its key,
 enrolling a mobile device and disconnecting a user's mobile devices. Each
 commits as a whole or leaves the tables as they were.
 */
module DeviceKeys {
  import opened Options

  /** A public key as text; formatted: it passes the column's pattern. */
  datatype Key = Key(text: nat, formatted: bool)

  datatype Device = Device(owner: nat, hostname: nat, mobile: bool, scoped: bool, active: bool)

  datatype KeyRow = KeyRow(device: nat, version: int, key: Key, active: bool, rotatedFrom: Option<nat>)

  type Rows = map<nat, KeyRow>

  datatype Db = Db(devices: map<nat, Device>, keys: Rows)

  // ----- what the table's own constraints check -----

  ghost predicate FreeVersion(keys: Rows, row: KeyRow) {
    row.version > 0 && forall id :: id in keys ==> !(keys[id].device == row.device && keys[id].version == row.version)
  }

  ghost predicate FreeSlot(keys: Rows, row: KeyRow) {
    row.active ==> forall id :: id in keys ==> !(keys[id].device == row.device && keys[id].active)
  }

  ghost predicate FreeKey(keys: Rows, row: KeyRow) {
    row.key.formatted && (row.active ==> forall id :: id in keys && keys[id].active ==> keys[id].key != row.key)
  }

  ghost predicate Accepts(keys: Rows, row: KeyRow) {
    FreeVersion(keys, row) && FreeSlot(keys, row) && FreeKey(keys, row)
  }

  // ----- the transactions -----

  /** Every active key of the devices is retired. */
  function Retire(keys: Rows, devices: set<nat>): Rows {
    map id | id in keys :: if keys[id].device in devices then keys[id].(active := false) else keys[id]
  }

  predicate IsActiveKey(keys: Rows, id: nat, device: nat) {
    id in keys && keys[id].device == device && keys[id].active
  }

  predicate HasNoActiveKey(keys: Rows, device: nat) {
    forall id :: id in keys ==> !(keys[id].device == device && keys[id].active)
  }

  /** version is one more than the device's highest, or 1. */
  ghost predicate IsNextVersion(keys: Rows, device: nat, version: int) {
    && (forall id :: id in keys && keys[id].device == device ==> keys[id].version < version)
    && (version == 1 || exists id :: id in keys && keys[id].device == device && keys[id].version == version - 1)
    && (version == 1 ==> forall id :: id in keys ==> keys[id].device != device)
  }

  datatype Step =
    | Claim(device: nat, id: nat, owner: nat, hostname: nat, mobile: bool, key: Key)
    | Rotate(device: nat, id: nat, owner: nat, key: Key, prior: nat)
    | EnrollDevice(device: nat, owner: nat, hostname: nat, scoped: bool)
    | FirstKey(device: nat, id: nat, key: Key, version: int)
    | SameKey(device: nat, prior: nat, key: Key)
    | NextKey(device: nat, id: nat, key: Key, prior: nat)
    | Disconnect(owner: nat)

  /** The row a step inserts, and the table it inserts it into. */
  function NewRow(db: Db, step: Step): KeyRow
    requires step.Claim? || step.FirstKey? || ((step.Rotate? || step.NextKey?) && step.prior in db.keys)
  {
    match step
    case Claim(device, id, owner, hostname, mobile, key) => KeyRow(device, 1, key, true, None)
    case FirstKey(device, id, key, version) => KeyRow(device, version, key, true, None)
    case Rotate(device, id, owner, key, prior) => KeyRow(device, db.keys[prior].version + 1, key, true, Some(prior))
    case NextKey(device, id, key, prior) => KeyRow(device, db.keys[prior].version + 1, key, true, Some(prior))
  }

  function Prepared(db: Db, step: Step): Rows {
    match step
    case Rotate(device, id, owner, key, prior) => Retire(db.keys, {device})
    case NextKey(device, id, key, prior) =>
      if prior in db.keys then db.keys[prior := db.keys[prior].(active := false)] else db.keys
    case _ => db.keys
  }

  /** What the code itself checks before it writes. */
  ghost predicate Guard(db: Db, step: Step) {
    match step
    case Claim(device, id, owner, hostname, mobile, key) => device !in db.devices && id !in db.keys
    case Rotate(device, id, owner, key, prior) =>
      && device in db.devices && db.devices[device].active && db.devices[device].owner == owner
      && IsActiveKey(db.keys, prior, device) && id !in db.keys
    case EnrollDevice(device, owner, hostname, scoped) =>
      device in db.devices ==>
        && db.devices[device].owner == owner && db.devices[device].hostname == hostname
        && db.devices[device].mobile && db.devices[device].scoped == scoped
    case FirstKey(device, id, key, version) =>
      && device in db.devices && id !in db.keys && HasNoActiveKey(db.keys, device)
      && IsNextVersion(db.keys, device, version)
    case SameKey(device, prior, key) => IsActiveKey(db.keys, prior, device) && db.keys[prior].key == key
    case NextKey(device, id, key, prior) =>
      device in db.devices && IsActiveKey(db.keys, prior, device) && db.keys[prior].key != key && id !in db.keys
    case Disconnect(owner) => true
  }

  predicate Inserts(step: Step) {
    step.Claim? || step.Rotate? || step.FirstKey? || step.NextKey?
  }

  ghost predicate Enabled(db: Db, step: Step) {
    Guard(db, step) && (Inserts(step) ==> Accepts(Prepared(db, step), NewRow(db, step)))
  }

  predicate Revokes(d: Device, owner: nat) {
    d.owner == owner && d.active && d.mobile
  }

  function RevokedBy(db: Db, owner: nat): set<nat> {
    set d | d in db.devices && Revokes(db.devices[d], owner)
  }

  function Exec(db: Db, step: Step): Db
    requires Inserts(step) && (step.Rotate? || step.NextKey?) ==> step.prior in db.keys
  {
    match step
    case Claim(device, id, owner, hostname, mobile, key) =>
      Db(db.devices[device := Device(owner, hostname, mobile, false, true)], Prepared(db, step)[id := NewRow(db, step)])
    case EnrollDevice(device, owner, hostname, scoped) =>
      db.(devices := db.devices[device := Device(owner, hostname, true, scoped, true)])
    case SameKey(_, _, _) => db
    case Disconnect(owner) =>
      var gone := RevokedBy(db, owner);
      Db(map d | d in db.devices :: if d in gone then db.devices[d].(active := false) else db.devices[d],
         Retire(db.keys, gone))
    case _ => db.(keys := Prepared(db, step)[step.id := NewRow(db, step)])
  }

  // ----- what every transaction keeps -----

  ghost predicate HasVersion(keys: Rows, device: nat, version: int) {
    exists j :: j in keys && keys[j].device == device && keys[j].version == version
  }

  /** What holds of any two key rows. */
  predicate PairOk(a: KeyRow, b: KeyRow) {
    && (a.device == b.device ==>
          && a.version != b.version
          && (a.active ==> !b.active && b.version < a.version))
    && (a.active && b.active ==> a.key != b.key)
  }

  /** A rotated-from link names the same device's key one version lower, which is retired. */
  predicate LinkOk(keys: Rows, row: KeyRow) {
    row.rotatedFrom.Some? ==>
      var from := row.rotatedFrom.value;
      && from in keys && keys[from].device == row.device
      && keys[from].version == row.version - 1 && !keys[from].active
  }

  /** Versions are positive and have no gaps. */
  ghost predicate RowOk(keys: Rows, row: KeyRow) {
    && row.version > 0
    && (row.version > 1 ==> HasVersion(keys, row.device, row.version - 1))
    && LinkOk(keys, row)
  }

  ghost predicate Sound(keys: Rows) {
    && (forall i :: i in keys ==> RowOk(keys, keys[i]))
    && (forall i, j :: i in keys && j in keys && i != j ==> PairOk(keys[i], keys[j]))
  }

  predicate Owned(db: Db) {
    forall i :: i in db.keys ==> db.keys[i].device in db.devices
  }

  ghost predicate Inv(db: Db) {
    Owned(db) && Sound(db.keys)
  }

  lemma RetireKeepsVersion(keys: Rows, devices: set<nat>, device: nat, version: int)
    requires HasVersion(keys, device, version)
    ensures HasVersion(Retire(keys, devices), device, version)
  {
    var j :| j in keys && keys[j].device == device && keys[j].version == version;
    assert j in Retire(keys, devices) && Retire(keys, devices)[j].device == device;
  }

  lemma RetireKeepsRow(keys: Rows, devices: set<nat>, i: nat)
    requires i in keys && RowOk(keys, keys[i])
    ensures RowOk(Retire(keys, devices), Retire(keys, devices)[i])
  {
    hide HasVersion;
    var row := keys[i];
    if row.version > 1 {
      RetireKeepsVersion(keys, devices, row.device, row.version - 1);
    }
  }

  lemma RetireKeepsSound(keys: Rows, devices: set<nat>)
    requires Sound(keys)
    ensures Sound(Retire(keys, devices))
  {
    hide RowOk;
    var after := Retire(keys, devices);
    forall i | i in after ensures RowOk(after, after[i]) {
      RetireKeepsRow(keys, devices, i);
    }
    forall i, j | i in after && j in after && i != j ensures PairOk(after[i], after[j]) {
      assert PairOk(keys[i], keys[j]);
    }
  }

  lemma {:induction false} VersionsDescend(keys: Rows, device: nat, from: int, version: int)
    requires Sound(keys) && HasVersion(keys, device, from) && 0 < version <= from
    ensures HasVersion(keys, device, version)
    decreases from - version
  {
    if version < from {
      var j :| j in keys && keys[j].device == device && keys[j].version == from;
      assert RowOk(keys, keys[j]);
      VersionsDescend(keys, device, from - 1, version);
    }
  }

  /** The row fits above everything the device has, right after its newest key or as its first. */
  ghost predicate Fits(keys: Rows, row: KeyRow) {
    && row.active && HasNoActiveKey(keys, row.device) && IsNextVersion(keys, row.device, row.version)
    && (row.rotatedFrom.Some? ==>
          var from := row.rotatedFrom.value;
          from in keys && keys[from].device == row.device && keys[from].version == row.version - 1)
  }

  lemma FittingIsFree(keys: Rows, row: KeyRow)
    requires Sound(keys) && Fits(keys, row)
    ensures FreeVersion(keys, row) && FreeSlot(keys, row)
  {
    if row.version != 1 {
      var i :| i in keys && keys[i].device == row.device && keys[i].version == row.version - 1;
      assert RowOk(keys, keys[i]);
    }
    hide Sound;
  }

  lemma AddedKeepsRow(keys: Rows, id: nat, row: KeyRow, i: nat)
    requires id !in keys && (i == id || (i in keys && RowOk(keys, keys[i])))
    requires Fits(keys, row) && row.version > 0
    ensures RowOk(keys[id := row], keys[id := row][i])
  {
    var after := keys[id := row];
    var x := after[i];
    if x.version > 1 {
      assert HasVersion(keys, x.device, x.version - 1);
      var j :| j in keys && keys[j].device == x.device && keys[j].version == x.version - 1;
      assert after[j] == keys[j];
      assert HasVersion(after, x.device, x.version - 1);
    }
    hide HasVersion;
  }

  lemma AddedKeepsSound(keys: Rows, id: nat, row: KeyRow)
    requires Sound(keys) && id !in keys && Fits(keys, row) && FreeKey(keys, row)
    ensures Sound(keys[id := row])
  {
    hide RowOk, Fits, FreeKey, FreeSlot, FreeVersion;
    var after := keys[id := row];
    FittingIsFree(keys, row);
    assert row.version > 0 by { FreeIsPositive(keys, row); }
    forall i | i in after ensures RowOk(after, after[i]) {
      AddedKeepsRow(keys, id, row, i);
    }
    forall i, j | i in after && j in after && i != j ensures PairOk(after[i], after[j]) {
      if i != id && j != id {
        assert PairOk(keys[i], keys[j]);
      } else {
        AddedPairs(keys, row, if i == id then j else i);
      }
    }
  }

  lemma FreeIsPositive(keys: Rows, row: KeyRow)
    requires FreeVersion(keys, row)
    ensures row.version > 0
  {
  }

  lemma AddedPairs(keys: Rows, row: KeyRow, i: nat)
    requires Fits(keys, row) && FreeKey(keys, row) && i in keys
    ensures PairOk(row, keys[i]) && PairOk(keys[i], row)
  {
  }

  lemma RetiringOneIsRetiringAll(keys: Rows, prior: nat)
    requires Sound(keys) && prior in keys && keys[prior].active
    ensures keys[prior := keys[prior].(active := false)] == Retire(keys, {keys[prior].device})
  {
    hide RowOk;
    forall i | i in keys && i != prior && keys[i].device == keys[prior].device ensures !keys[i].active {
      assert PairOk(keys[prior], keys[i]);
    }
    hide Sound;
  }

  lemma AfterActiveIsNext(keys: Rows, prior: nat, devices: set<nat>)
    requires Sound(keys) && prior in keys && keys[prior].active
    ensures IsNextVersion(Retire(keys, devices), keys[prior].device, keys[prior].version + 1)
  {
    assert RowOk(keys, keys[prior]);
    var after := Retire(keys, devices);
    forall i | i in after && after[i].device == keys[prior].device ensures after[i].version < keys[prior].version + 1 {
      if i != prior {
        assert PairOk(keys[prior], keys[i]);
      }
    }
    assert after[prior].device == keys[prior].device && after[prior].version == keys[prior].version;
    hide Sound, RowOk, PairOk;
  }

  lemma FreshDeviceStartsAtOne(keys: Rows, device: nat)
    requires forall i :: i in keys ==> keys[i].device != device
    ensures IsNextVersion(keys, device, 1)
  {
  }

  lemma VersionsArePositive(keys: Rows)
    requires Sound(keys)
    ensures forall i :: i in keys ==> keys[i].version > 0
  {
    hide HasVersion;
    assert forall i :: i in keys ==> RowOk(keys, keys[i]);
  }

  /** Every transaction's row is the device's next version, after whatever it retires. */
  lemma NewRowFits(db: Db, step: Step)
    requires Inv(db) && Guard(db, step) && Inserts(step)
    ensures Sound(Prepared(db, step)) && Fits(Prepared(db, step), NewRow(db, step))
    ensures forall id :: id in Prepared(db, step) <==> id in db.keys
    ensures forall id :: id in db.keys ==> Prepared(db, step)[id].device == db.keys[id].device
  {
    hide Sound, IsNextVersion;
    if step.Claim? {
      FreshDeviceStartsAtOne(db.keys, step.device);
    }
    if step.Rotate? || step.NextKey? {
      RetireKeepsSound(db.keys, {step.device});
      RetiringOneIsRetiringAll(db.keys, step.prior);
      AfterActiveIsNext(db.keys, step.prior, {step.device});
    }
  }

  lemma StepKeeps(db: Db, step: Step)
    requires Inv(db) && Enabled(db, step)
    ensures Inv(Exec(db, step))
  {
    hide Sound, Fits, NewRow, FreeKey, FreeSlot, FreeVersion, IsNextVersion;
    if Inserts(step) {
      hide Prepared;
      NewRowFits(db, step);
      AddedKeepsSound(Prepared(db, step), step.id, NewRow(db, step));
      NewRowsDevice(db, step);
    } else if step.Disconnect? {
      RetireKeepsSound(db.keys, RevokedBy(db, step.owner));
    }
  }

  lemma NewRowsDevice(db: Db, step: Step)
    requires Guard(db, step) && Inserts(step)
    ensures NewRow(db, step).device == step.device && (step.Claim? || step.device in db.devices)
  {
  }

  /** The version and one-active constraints never reject a transaction; only the key itself can. */
  lemma OnlyTheKeyIsRejected(db: Db, step: Step)
    requires Inv(db) && Guard(db, step) && Inserts(step)
    ensures Accepts(Prepared(db, step), NewRow(db, step)) <==> FreeKey(Prepared(db, step), NewRow(db, step))
  {
    hide Prepared, Fits, Sound;
    NewRowFits(db, step);
    FittingIsFree(Prepared(db, step), NewRow(db, step));
  }

  // ----- runs -----

  /** At most one key of a device is active. */
  predicate OneActive(keys: Rows) {
    forall i, j :: i in keys && j in keys && keys[i].active && keys[j].active && keys[i].device == keys[j].device ==>
      i == j
  }

  predicate VersionsDistinct(keys: Rows) {
    forall i, j :: i in keys && j in keys && keys[i].device == keys[j].device && keys[i].version == keys[j].version ==>
      i == j
  }

  predicate ActiveIsNewest(keys: Rows) {
    forall i, j :: i in keys && j in keys && keys[i].active && keys[i].device == keys[j].device ==>
      keys[j].version <= keys[i].version
  }

  predicate LinksOk(keys: Rows) {
    forall i :: i in keys ==> LinkOk(keys, keys[i])
  }

  lemma SoundMeans(keys: Rows)
    requires Sound(keys)
    ensures OneActive(keys) && VersionsDistinct(keys) && ActiveIsNewest(keys) && LinksOk(keys)
  {
    forall i | i in keys ensures LinkOk(keys, keys[i]) {
      assert RowOk(keys, keys[i]);
    }
    hide RowOk, LinkOk;
    assert forall i, j :: i in keys && j in keys && i != j ==> PairOk(keys[i], keys[j]);
  }

  ghost predicate IsRun(states: seq<Db>, steps: seq<Step>) {
    && |states| == |steps| + 1
    && states[0] == Db(map[], map[])
    && forall i :: 0 <= i < |steps| ==> Follows(states[i], steps[i], states[i + 1])
  }

  ghost predicate Follows(db: Db, step: Step, after: Db) {
    Enabled(db, step) && after == Exec(db, step)
  }

  lemma {:induction false} RunKeeps(states: seq<Db>, steps: seq<Step>, k: nat)
    requires IsRun(states, steps) && k < |states|
    ensures Inv(states[k])
  {
    if k > 0 {
      hide Inv, Enabled, Exec;
      RunKeeps(states, steps, k - 1);
      assert Follows(states[k - 1], steps[k - 1], states[k]);
      StepKeeps(states[k - 1], steps[k - 1]);
    }
  }

  /** Over every serial run: one active key, distinct gapless versions, the active newest, links one version down. */
  lemma RunsKeepKeysInOrder(states: seq<Db>, steps: seq<Step>, k: nat)
    requires IsRun(states, steps) && k < |states|
    ensures var keys := states[k].keys;
      && OneActive(keys) && VersionsDistinct(keys) && ActiveIsNewest(keys) && LinksOk(keys)
      && (forall i, v :: i in keys && 1 <= v <= keys[i].version ==> HasVersion(keys, keys[i].device, v))
  {
    RunKeeps(states, steps, k);
    var keys := states[k].keys;
    SoundMeans(keys);
    forall i, v | i in keys && 1 <= v <= keys[i].version ensures HasVersion(keys, keys[i].device, v) {
      VersionsDescend(keys, keys[i].device, keys[i].version, v);
    }
  }

  /** No transaction removes a key, renumbers it, gives it to another device or makes a retired one active again. */
  lemma KeysOnlyRetire(db: Db, step: Step, id: nat)
    requires Inv(db) && Enabled(db, step) && id in db.keys
    ensures id in Exec(db, step).keys
    ensures Exec(db, step).keys[id] == db.keys[id] || Exec(db, step).keys[id] == db.keys[id].(active := false)
  {
  }

  /** No other device has this key active. */
  ghost predicate NotElsewhere(keys: Rows, key: Key, device: nat) {
    forall i :: i in keys && keys[i].active && keys[i].key == key ==> keys[i].device == device
  }

  lemma FreeAfterRetiring(keys: Rows, row: KeyRow)
    requires row.active
    ensures FreeKey(Retire(keys, {row.device}), row) <==> row.key.formatted && NotElsewhere(keys, row.key, row.device)
  {
    var after := Retire(keys, {row.device});
    assert forall i :: i in keys ==> (after[i].active <==> keys[i].active && keys[i].device != row.device);
  }

  lemma RetireNone(keys: Rows)
    ensures Retire(keys, {}) == keys
  {
  }

  // ----- the object -----

  class Registry {
    var devices: map<nat, Device>
    var keys: Rows

    ghost function Value(): Db
      reads this
    {
      Db(devices, keys)
    }

    constructor ()
      ensures Value() == Db(map[], map[])
    {
      devices, keys := map[], map[];
    }

    method InsertKey(id: nat, row: KeyRow) returns (ok: bool)
      requires id !in keys
      modifies this`keys
      ensures ok <==> Accepts(old(keys), row)
      ensures keys == if ok then old(keys)[id := row] else old(keys)
    {
      var todo := keys.Keys;
      if row.version <= 0 || !row.key.formatted {
        return false;
      }
      while todo != {}
        invariant todo <= keys.Keys
        invariant forall i :: i in keys && i !in todo ==>
          && !(keys[i].device == row.device && keys[i].version == row.version)
          && !(row.active && keys[i].device == row.device && keys[i].active)
          && !(row.active && keys[i].active && keys[i].key == row.key)
        decreases |todo|
      {
        var i :| i in todo;
        todo := todo - {i};
        if keys[i].device == row.device && keys[i].version == row.version {
          return false;
        }
        if row.active && keys[i].active && (keys[i].device == row.device || keys[i].key == row.key) {
          return false;
        }
      }
      keys := keys[id := row];
      ok := true;
    }

    method FindActive(device: nat) returns (r: Option<nat>)
      ensures r.Some? ==> IsActiveKey(keys, r.value, device)
      ensures r.None? ==> HasNoActiveKey(keys, device)
    {
      var todo := keys.Keys;
      while todo != {}
        invariant todo <= keys.Keys
        invariant forall i :: i in keys && i !in todo ==> !(keys[i].device == device && keys[i].active)
        decreases |todo|
      {
        var i :| i in todo;
        todo := todo - {i};
        if keys[i].device == device && keys[i].active {
          return Some(i);
        }
      }
      return None;
    }

    method NextVersion(device: nat) returns (version: int)
      requires forall i :: i in keys ==> keys[i].version > 0
      ensures IsNextVersion(keys, device, version)
    {
      var todo, highest := keys.Keys, 0;
      while todo != {}
        invariant todo <= keys.Keys && highest >= 0
        invariant forall i :: i in keys && i !in todo && keys[i].device == device ==> keys[i].version <= highest
        invariant highest > 0 ==> exists i :: i in keys && keys[i].device == device && keys[i].version == highest
        decreases |todo|
      {
        var i :| i in todo;
        todo := todo - {i};
        if keys[i].device == device && keys[i].version > highest {
          highest := keys[i].version;
        }
      }
      version := highest + 1;
    }

    /** Pairing: the device and its first key, or neither. */
    method Claim(device: nat, owner: nat, hostname: nat, mobile: bool, key: Key, id: nat) returns (ok: bool)
      requires Inv(Value()) && device !in devices && id !in keys
      modifies this
      ensures Inv(Value())
      ensures ok ==> Value() == Exec(old(Value()), Step.Claim(device, id, owner, hostname, mobile, key))
      ensures !ok ==> Value() == old(Value())
      ensures ok <==> FreeKey(old(keys), KeyRow(device, 1, key, true, None))
    {
      hide Sound, Fits, FreeKey, FreeSlot, FreeVersion, IsNextVersion;
      ghost var db, step := Value(), Step.Claim(device, id, owner, hostname, mobile, key);
      NewRowFits(db, step);
      OnlyTheKeyIsRejected(db, step);
      ok := InsertKey(id, KeyRow(device, 1, key, true, None));
      if ok {
        StepKeeps(db, step);
        devices := devices[device := Device(owner, hostname, mobile, false, true)];
      }
    }

    method Rotate(device: nat, owner: nat, key: Key, id: nat) returns (version: Option<int>)
      requires Inv(Value()) && id !in keys
      modifies this
      ensures Inv(Value())
      ensures version.None? ==> Value() == old(Value())
      ensures version.Some? ==> exists o ::
        && Enabled(old(Value()), Step.Rotate(device, id, owner, key, o))
        && Value() == Exec(old(Value()), Step.Rotate(device, id, owner, key, o))
        && version.value == old(keys)[o].version + 1
      ensures version.Some? <==>
        && device in old(devices) && old(devices)[device].active && old(devices)[device].owner == owner
        && !HasNoActiveKey(old(keys), device)
        && key.formatted && NotElsewhere(old(keys), key, device)
    {
      hide Sound, Fits, FreeKey, FreeSlot, FreeVersion, Retire, IsNextVersion, NotElsewhere, Accepts, Inv;
      if device !in devices || !devices[device].active || devices[device].owner != owner {
        return None;
      }
      var before := keys;
      var found := FindActive(device);
      if found.None? {
        return None;
      }
      ghost var db, step := Value(), Step.Rotate(device, id, owner, key, found.value);
      NewRowFits(db, step);
      OnlyTheKeyIsRejected(db, step);
      var row := KeyRow(device, keys[found.value].version + 1, key, true, Some(found.value));
      FreeAfterRetiring(keys, row);
      keys := Retire(keys, {device});
      var ok := InsertKey(id, row);
      if !ok {
        keys := before;
        return None;
      }
      StepKeeps(db, step);
      version := Some(row.version);
    }

    /** The key half of mobile enrolment, for a device the first half has found or made. */
    method Enroll(device: nat, key: Key, id: nat) returns (ok: bool)
      requires Inv(Value()) && id !in keys && device in devices
      modifies this
      ensures Inv(Value()) && devices == old(devices)
      ensures !ok ==> Value() == old(Value())
      ensures ok ==> exists i :: IsActiveKey(keys, i, device) && keys[i].key == key
      ensures ok ==> exists step: Step ::
        && (step.FirstKey? || step.SameKey? || step.NextKey?) && step.device == device && step.key == key
        && Enabled(old(Value()), step) && Value() == Exec(old(Value()), step)
    {
      var before := keys;
      var found := FindActive(device);
      hide Sound, Fits, FreeKey, FreeSlot, FreeVersion;
      ghost var db, step := Value(), Disconnect(0);
      var row;
      if found.None? {
        VersionsArePositive(keys);
        var version := NextVersion(device);
        row := KeyRow(device, version, key, true, None);
        step := FirstKey(device, id, key, version);
      } else if keys[found.value].key == key {
        step := SameKey(device, found.value, key);
        assert Enabled(db, step);
        return true;
      } else {
        row := KeyRow(device, keys[found.value].version + 1, key, true, Some(found.value));
        step := NextKey(device, id, key, found.value);
        keys := keys[found.value := keys[found.value].(active := false)];
      }
      assert Guard(db, step) && keys == Prepared(db, step) && row == NewRow(db, step);
      ok := InsertKey(id, row);
      if !ok {
        keys := before;
        return;
      }
      StepKeeps(db, step);
      assert IsActiveKey(keys, id, device);
    }

    method RevokeDevices(owner: nat) returns (ids: seq<nat>)
      modifies this`devices
      ensures devices == Exec(old(Value()), Disconnect(owner)).devices
      ensures (set d | d in ids) == RevokedBy(old(Value()), owner)
    {
      ids := [];
      var before := devices;
      var todo := devices.Keys;
      while todo != {}
        invariant todo <= before.Keys && devices.Keys == before.Keys
        invariant forall d :: d in ids <==> d in before && d !in todo && Revokes(before[d], owner)
        invariant forall d :: d in before ==> devices[d] == if d in ids then before[d].(active := false) else before[d]
        decreases |todo|
      {
        var d :| d in todo;
        todo := todo - {d};
        if Revokes(devices[d], owner) {
          devices := devices[d := devices[d].(active := false)];
          ids := ids + [d];
        }
      }
    }

    method DisconnectAll(owner: nat) returns (ids: seq<nat>)
      requires Inv(Value())
      modifies this
      ensures Inv(Value()) && Value() == Exec(old(Value()), Disconnect(owner))
      ensures (set d | d in ids) == RevokedBy(old(Value()), owner)
      ensures forall d :: d in ids ==> HasNoActiveKey(keys, d)
    {
      hide Sound, RevokedBy;
      ghost var db := Value();
      StepKeeps(db, Disconnect(owner));
      ids := RevokeDevices(owner);
      ghost var gone := set d | d in ids;
      if ids == [] {
        assert gone == {};
        RetireNone(keys);
      } else {
        keys := Retire(keys, set d | d in ids);
      }
      assert keys == Retire(db.keys, gone);
      assert forall d :: d in ids ==> d in gone;
      assert gone == RevokedBy(db, owner);
      assert keys == Exec(db, Disconnect(owner)).keys;
      assert Value() == Exec(db, Disconnect(owner));
    }
  }
}
