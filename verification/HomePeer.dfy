/**
 The home machine's peer: leases, the generation-guarded expiry timer, and the
 TCP clients it has admitted. A step is what runs under the lock, or one thing
 the outside world does.
 */
module HomePeer {
  import opened Options
  import opened PeerTable
  import opened PeerChanges

  type Connection = nat

  datatype Home = Home(
    now: int,
    active: Peers,
    clients: map<Connection, Address>,   // tracked until their forwarder has cleaned up
    open: set<Connection>,
    generation: nat,
    timers: map<nat, int>,               // callbacks that may still run: generation -> due time
    device: Table,
    up: bool,
    // history, which guards no step
    stopped: bool,                       // Close ran after the last schedule
    faithful: bool,                      // every configuration call succeeded, on separable peers
    admittedAs: map<Connection, KeyText> // the key a connection's address had at admission
  )

  datatype Step =
    | Tick(d: nat)
    | Apply(peers: seq<Peer>, added: seq<Address>, gone: seq<Address>, earliest: Option<int>)
    | ApplyFails(peers: seq<Peer>, torn: Table)
    | Fire(g: nat, gone: seq<Address>, earliest: Option<int>)
    | FireFails(g: nat)
    | FireStale(g: nat)
    | Cancelled(g: nat)
    | Accept(c: Connection, a: Address)
    | Hangup(c: Connection)
    | Forget(c: Connection)
    | Close
    | DeviceCloses

  function Start(now: int): Home {
    Home(now, map[], map[], {}, 0, map[], EMPTY, true, false, true, map[])
  }

  /** The checks a snapshot passes before the lock is taken: keys decode and no address repeats. */
  predicate Accepted(own: Address, peers: seq<Peer>) {
    && (forall i :: 0 <= i < |peers| ==> peers[i].key.raw.Some? && peers[i].address != own)
    && (forall i, j :: 0 <= i < j < |peers| ==> peers[i].address != peers[j].address)
  }

  function Unexpired(peers: Peers, now: int): Peers {
    map a | a in peers && Live(peers[a], now) :: peers[a]
  }

  ghost predicate IsEarliest(peers: Peers, e: Option<int>) {
    match e
    case None => forall a :: a in peers ==> peers[a].validUntil.None?
    case Some(v) =>
      && (exists a :: a in peers && peers[a].validUntil == Some(v))
      && (forall a :: a in peers && peers[a].validUntil.Some? ==> v <= peers[a].validUntil.value)
  }

  predicate Due(s: Home, g: nat) {
    g in s.timers && s.timers[g] <= s.now
  }

  predicate RetiredClient(s: Home, next: Peers, c: Connection) {
    && c in s.clients
    && (s.clients[c] !in next
        || (s.clients[c] in s.active && s.active[s.clients[c]].key != next[s.clients[c]].key))
  }

  function ClosedRetired(s: Home, next: Peers): set<Connection> {
    set c | c in s.open && !RetiredClient(s, next, c)
  }

  ghost predicate Enabled(s: Home, own: Address, step: Step) {
    match step
    case Tick(d) => true
    case Apply(peers, added, gone, earliest) =>
      && Accepted(own, peers)
      && Orders(s.active, Leases(peers, s.now), added, gone)
      && IsEarliest(Leases(peers, s.now), earliest)
      && (s.up || added == [])  // a closed device takes no new peer
    case ApplyFails(peers, torn) => Accepted(own, peers)
    case Fire(g, gone, earliest) =>
      && Due(s, g) && g == s.generation
      && Orders(s.active, Unexpired(s.active, s.now), [], gone)
      && IsEarliest(Unexpired(s.active, s.now), earliest)
    case FireFails(g) => Due(s, g) && g == s.generation
    case FireStale(g) => Due(s, g) && g != s.generation
    case Cancelled(g) => g in s.timers && g != s.generation
    case Accept(c, a) => c !in s.admittedAs
    case Hangup(c) => c in s.open
    case Forget(c) => c in s.clients
    case Close => true
    case DeviceCloses => true
  }

  /** A new generation, whose timer is due at the earliest lease. */
  function Scheduled(s: Home, earliest: Option<int>): Home {
    s.(generation := s.generation + 1, stopped := false,
       timers := if earliest.Some? then s.timers[s.generation + 1 := earliest.value] else s.timers)
  }

  ghost function Applied(s: Home, next: Peers, added: seq<Address>, gone: seq<Address>): Home
    requires Decodes(s.active) && Decodes(next) && Orders(s.active, next, added, gone)
  {
    s.(open := ClosedRetired(s, next), active := next,
       device := if s.up then Outcome(s.device, s.active, next, added, gone) else EMPTY,
       faithful := s.faithful && Separable(s.active, next))
  }

  lemma AcceptedDecodes(own: Address, peers: seq<Peer>, now: int)
    requires Accepted(own, peers)
    ensures Decodes(Leases(peers, now))
  {
  }

  ghost function Exec(s: Home, own: Address, step: Step): Home
    requires Enabled(s, own, step) && Decodes(s.active)
  {
    match step
    case Tick(d) => s.(now := s.now + d)
    case Apply(peers, added, gone, earliest) =>
      AcceptedDecodes(own, peers, s.now);
      Scheduled(Applied(s, Leases(peers, s.now), added, gone), earliest)
    case ApplyFails(peers, torn) =>
      s.(open := ClosedRetired(s, Leases(peers, s.now)), device := if s.up then torn else EMPTY, faithful := false)
    case Fire(g, gone, earliest) =>
      Scheduled(Applied(s, Unexpired(s.active, s.now), [], gone), earliest).(
        timers := Scheduled(s.(timers := s.timers - {g}), earliest).timers)
    case FireFails(g) =>
      s.(timers := s.timers - {g}, active := map[], open := s.open - s.clients.Keys, device := EMPTY, up := false,
         faithful := false)
    case FireStale(g) => s.(timers := s.timers - {g})
    case Cancelled(g) => s.(timers := s.timers - {g})
    case Accept(c, a) =>
      if a in s.active && Live(s.active[a], s.now) then
        s.(clients := s.clients[c := a], open := s.open + {c}, admittedAs := s.admittedAs[c := s.active[a].key])
      else s
    case Hangup(c) => s.(open := s.open - {c})
    case Forget(c) => s.(open := s.open - {c}, clients := s.clients - {c})
    case Close =>
      s.(generation := s.generation + 1, stopped := true, open := s.open - s.clients.Keys)
    case DeviceCloses => s.(device := EMPTY, up := false)
  }

  // ----- what every step keeps -----

  predicate LeasesOk(s: Home) {
    Decodes(s.active) && forall a :: a in s.active ==> s.active[a].address == a
  }

  /** The timer of the current generation is due no later than the earliest lease. */
  predicate TimerOk(s: Home) {
    && (forall g :: g in s.timers ==> g <= s.generation)
    && (s.stopped ==> s.generation !in s.timers)
    && (!s.stopped ==> forall a :: a in s.active && s.active[a].validUntil.Some? ==>
          s.generation in s.timers && s.timers[s.generation] <= s.active[a].validUntil.value)
  }

  /** An open tracked client's address is active under the key it had at admission. */
  predicate ClientsOk(s: Home) {
    && (forall c :: c in s.clients ==> c in s.admittedAs)
    && (forall c :: c in s.open ==> c in s.admittedAs)
    && (forall c :: c in s.clients && c in s.open ==>
          s.clients[c] in s.active && s.active[s.clients[c]].key == s.admittedAs[c])
  }

  ghost predicate DeviceOk(s: Home)
    requires Decodes(s.active)
  {
    && (!s.up ==> s.device == EMPTY)
    && (s.faithful ==> Distinct(s.active))
    && (s.faithful && s.up ==> Exact(s.device, s.active) && Reachable(s.device, s.active))
  }

  ghost predicate Inv(s: Home) {
    LeasesOk(s) && TimerOk(s) && ClientsOk(s) && DeviceOk(s)
  }

  lemma StartHolds(now: int)
    ensures Inv(Start(now))
  {
  }

  lemma LeasesStep(s: Home, own: Address, step: Step)
    requires LeasesOk(s) && Enabled(s, own, step)
    ensures LeasesOk(Exec(s, own, step))
  {
    if step.Apply? {
      AcceptedDecodes(own, step.peers, s.now);
    }
  }

  lemma TimerStep(s: Home, own: Address, step: Step)
    requires LeasesOk(s) && TimerOk(s) && Enabled(s, own, step)
    ensures TimerOk(Exec(s, own, step))
  {
    hide Leases, Outcome, Orders, Separable;
  }

  lemma ClientsStep(s: Home, own: Address, step: Step)
    requires LeasesOk(s) && ClientsOk(s) && Enabled(s, own, step)
    ensures ClientsOk(Exec(s, own, step))
  {
    hide Leases, Outcome, Orders, Separable, IsEarliest;
  }

  lemma SeparableKeepsDistinct(previous: Peers, next: Peers)
    requires Decodes(previous) && Decodes(next) && Distinct(previous) && Separable(previous, next)
    ensures Distinct(next)
  {
  }

  lemma ExpiryIsSeparable(peers: Peers, now: int)
    requires Decodes(peers)
    ensures Decodes(Unexpired(peers, now))
    ensures Distinct(peers) ==> Separable(peers, Unexpired(peers, now))
  {
  }

  lemma AppliedDevice(s: Home, next: Peers, added: seq<Address>, gone: seq<Address>)
    requires Decodes(s.active) && Decodes(next) && Orders(s.active, next, added, gone) && DeviceOk(s)
    ensures DeviceOk(Applied(s, next, added, gone))
  {
    if s.faithful && Separable(s.active, next) {
      SeparableKeepsDistinct(s.active, next);
      if s.up {
        SeparableIsEnough(s.device, s.active, next, added, gone);
        EndpointsFollow(s.device, s.active, next, added, gone);
      }
    }
    hide Separable, Outcome, Orders, Exact, Reachable, Distinct;
  }

  lemma DeviceStep(s: Home, own: Address, step: Step)
    requires LeasesOk(s) && DeviceOk(s) && Enabled(s, own, step)
    ensures LeasesOk(Exec(s, own, step)) && DeviceOk(Exec(s, own, step))
  {
    LeasesStep(s, own, step);
    if step.Apply? {
      AcceptedDecodes(own, step.peers, s.now);
      AppliedDevice(s, Leases(step.peers, s.now), step.added, step.gone);
    } else if step.Fire? {
      ExpiryIsSeparable(s.active, s.now);
      AppliedDevice(s, Unexpired(s.active, s.now), [], step.gone);
    }
    hide Leases, Outcome, Orders, Separable, IsEarliest, Exact, Reachable;
  }

  lemma StepKeeps(s: Home, own: Address, step: Step)
    requires Inv(s) && Enabled(s, own, step)
    ensures Inv(Exec(s, own, step))
  {
    hide Exec, Enabled, LeasesOk, TimerOk, ClientsOk, DeviceOk;
    DeviceStep(s, own, step);
    TimerStep(s, own, step);
    ClientsStep(s, own, step);
  }

  // ----- runs -----

  ghost predicate Follows(s: Home, own: Address, step: Step, t: Home) {
    Decodes(s.active) && Enabled(s, own, step) && t == Exec(s, own, step)
  }

  ghost predicate IsRun(own: Address, states: seq<Home>, steps: seq<Step>) {
    && |states| == |steps| + 1
    && states[0] == Start(states[0].now)
    && forall i :: 0 <= i < |steps| ==> Follows(states[i], own, steps[i], states[i + 1])
  }

  lemma {:induction false} RunKeeps(own: Address, states: seq<Home>, steps: seq<Step>, k: nat)
    requires IsRun(own, states, steps) && k < |states|
    ensures Inv(states[k])
  {
    if k == 0 {
      StartHolds(states[0].now);
    } else {
      RunKeeps(own, states, steps, k - 1);
      assert Follows(states[k - 1], own, steps[k - 1], states[k]);
      StepKeeps(states[k - 1], own, steps[k - 1]);
    }
    hide *;
  }

  lemma StepGrows(s: Home, own: Address, step: Step)
    requires Decodes(s.active) && Enabled(s, own, step)
    ensures var t := Exec(s, own, step);
      && s.generation <= t.generation && s.now <= t.now
      && (forall c :: c in s.admittedAs ==> c in t.admittedAs && t.admittedAs[c] == s.admittedAs[c])
  {
    hide Leases, Outcome, Orders, Separable, IsEarliest, Unexpired, ClosedRetired;
  }

  lemma {:induction false} RunGrows(own: Address, states: seq<Home>, steps: seq<Step>, i: nat, k: nat)
    requires IsRun(own, states, steps) && i <= k < |states|
    ensures states[i].generation <= states[k].generation && states[i].now <= states[k].now
    ensures forall c :: c in states[i].admittedAs ==>
      c in states[k].admittedAs && states[k].admittedAs[c] == states[i].admittedAs[c]
    decreases k
  {
    hide Exec, Enabled, Decodes;
    if i < k {
      RunGrows(own, states, steps, i, k - 1);
      assert Follows(states[k - 1], own, steps[k - 1], states[k]);
      StepGrows(states[k - 1], own, steps[k - 1]);
    }
  }

  /**
   While a peer has a finite lease, the current generation has a timer, due no later than that lease,
   exactly when Close has not intervened since the last schedule; so a lease that has run out is only
   ever waiting for a callback that is already due.
   */
  lemma EveryLeaseHasItsTimer(own: Address, states: seq<Home>, steps: seq<Step>, k: nat, a: Address)
    requires IsRun(own, states, steps) && k < |states|
    requires a in states[k].active && states[k].active[a].validUntil.Some?
    ensures var s := states[k];
      && (s.generation in s.timers && s.timers[s.generation] <= s.active[a].validUntil.value <==> !s.stopped)
      && (!s.stopped && !Live(s.active[a], s.now) ==> Due(s, s.generation))
  {
    RunKeeps(own, states, steps, k);
  }

  /** Step k is the callback of generation g doing its work, well or badly. */
  predicate Fires(step: Step, g: nat) {
    (step.Fire? || step.FireFails?) && step.g == g
  }

  /** After the callback, the device routes exactly the unexpired peers, or nothing at all. */
  lemma FiringLeavesNoExpiredPeer(own: Address, states: seq<Home>, steps: seq<Step>, k: nat, g: nat)
    requires IsRun(own, states, steps) && k < |steps| && Fires(steps[k], g)
    requires states[k].faithful
    ensures var s, t := states[k], states[k + 1];
      && Decodes(s.active)
      && (forall a :: a in t.device.routes ==>
            a in s.active && Live(s.active[a], s.now) && t.device.routes[a] == RawAt(s.active, a))
      && (t.up ==> forall a :: a in s.active && Live(s.active[a], s.now) ==> a in t.device.routes)
      && (forall a :: a in t.active ==> Live(t.active[a], t.now))
  {
    RunKeeps(own, states, steps, k);
    RunKeeps(own, states, steps, k + 1);
    assert Follows(states[k], own, steps[k], states[k + 1]);
    ExpiryIsSeparable(states[k].active, states[k].now);
    hide Leases, Outcome, Orders, Separable, Reachable, IsEarliest;
  }

  /** Some peer that has expired has key k. */
  ghost predicate ExpiredKey(s: Home, k: Key)
    requires Decodes(s.active)
  {
    exists a :: a in s.active && !Live(s.active[a], s.now) && RawAt(s.active, a) == k
  }

  lemma ExpiryOutcome(t: Table, active: Peers, now: int, gone: seq<Address>)
    requires Decodes(active) && Decodes(Unexpired(active, now)) && Orders(active, Unexpired(active, now), [], gone)
    ensures Outcome(t, active, Unexpired(active, now), [], gone) == DoAll(t, Removes(active, gone))
    ensures forall a: Address :: a in gone <==> a in active && !Live(active[a], now)
  {
    assert Assigns(Unexpired(active, now), []) == [];
  }

  /**
   Whatever earlier calls left behind, the callback removes the key of every expired peer; on a device that
   stays up it removes nothing else, so an address is still routed exactly when it was, to no expired peer's key.
   */
  lemma FiringRemovesEveryExpiredKey(own: Address, states: seq<Home>, steps: seq<Step>, k: nat, g: nat)
    requires IsRun(own, states, steps) && k < |steps| && Fires(steps[k], g)
    ensures var s, t := states[k], states[k + 1];
      && Decodes(s.active)
      && (forall x: Key :: ExpiredKey(s, x) ==> x !in t.device.peers)
      && (t.up ==> forall a: Address :: a in t.device.routes <==>
            a in s.device.routes && !ExpiredKey(s, s.device.routes[a]))
      && (t.up ==> forall a: Address :: a in t.device.routes ==> t.device.routes[a] == s.device.routes[a])
  {
    RunKeeps(own, states, steps, k);
    assert Follows(states[k], own, steps[k], states[k + 1]);
    var s := states[k];
    ExpiryIsSeparable(s.active, s.now);
    if steps[k].Fire? {
      ExpiryOutcome(s.device, s.active, s.now, steps[k].gone);
      RemovesLeave(s.device, s.active, steps[k].gone);
    }
    hide Leases, Outcome, Orders, Separable, Reachable, IsEarliest, DoAll, Unexpired;
  }

  /** Address a has its own live peer's key. */
  predicate RoutesLive(s: Home, routes: map<Address, Key>, a: Address)
    requires Decodes(s.active)
  {
    a in routes && a in s.active && Live(s.active[a], s.now) && routes[a] == RawAt(s.active, a)
  }

  /**
   The callback leaves nothing but unexpired peers routed if and only if, before it, every address led to its own
   unexpired peer or to an expired one's key; and it leaves them all routed if and only if they were, and none
   shares its key with an expired peer.
   */
  lemma FiringIsExactIff(own: Address, states: seq<Home>, steps: seq<Step>, k: nat, g: nat)
    requires IsRun(own, states, steps) && k < |steps| && Fires(steps[k], g) && states[k + 1].up
    ensures Decodes(states[k].active)
    ensures var s, before, after := states[k], states[k].device.routes, states[k + 1].device.routes;
      && ((forall a: Address :: a in after ==> RoutesLive(s, after, a)) <==>
          forall a: Address :: a in before ==> RoutesLive(s, before, a) || ExpiredKey(s, before[a]))
      && ((forall a: Address :: a in s.active && Live(s.active[a], s.now) ==> RoutesLive(s, after, a)) <==>
          forall a: Address :: a in s.active && Live(s.active[a], s.now) ==>
            RoutesLive(s, before, a) && !ExpiredKey(s, RawAt(s.active, a)))
  {
    FiringRemovesEveryExpiredKey(own, states, steps, k, g);
    hide IsRun, Fires, ExpiredKey;
  }

  /** Once a snapshot is applied or the peer is closed, no callback armed before does anything. */
  lemma OldCallbacksNeverFire(own: Address, states: seq<Home>, steps: seq<Step>, i: nat, k: nat, g: nat)
    requires IsRun(own, states, steps) && i < k < |steps|
    requires steps[i].Apply? || steps[i].Close? || Fires(steps[i], g)
    requires g <= states[i].generation
    ensures !Fires(steps[k], g)
  {
    assert Follows(states[i], own, steps[i], states[i + 1]);
    assert Follows(states[k], own, steps[k], states[k + 1]);
    RunGrows(own, states, steps, i + 1, k);
    if steps[i].FireFails? {
      FiredOnce(own, states, steps, i, k, g);
    }
    hide Leases, Outcome, Orders, Separable, IsEarliest;
  }

  lemma StepNeverRearms(s: Home, own: Address, step: Step, g: nat)
    requires Decodes(s.active) && Enabled(s, own, step) && g <= s.generation
    requires g !in s.timers || (step.FireFails? && step.g == g)
    ensures g !in Exec(s, own, step).timers && g <= Exec(s, own, step).generation
  {
    hide Leases, Outcome, Orders, Separable, IsEarliest, Unexpired, ClosedRetired;
  }

  /** A generation whose callback has run has no callback left. */
  lemma {:induction false} FiredOnce(own: Address, states: seq<Home>, steps: seq<Step>, i: nat, k: nat, g: nat)
    requires IsRun(own, states, steps) && i < k < |states|
    requires steps[i].FireFails? && steps[i].g == g
    ensures g !in states[k].timers && g <= states[k].generation
    decreases k
  {
    assert Follows(states[k - 1], own, steps[k - 1], states[k]);
    if i + 1 < k {
      hide Exec, Enabled, Decodes;
      FiredOnce(own, states, steps, i, k - 1, g);
      StepNeverRearms(states[k - 1], own, steps[k - 1], g);
    } else {
      StepNeverRearms(states[i], own, steps[i], g);
      hide Leases, Outcome, Orders, Separable, IsEarliest, Unexpired, ClosedRetired;
    }
  }

  /** Step j admitted connection c from address a. */
  predicate Admits(s: Home, step: Step, c: Connection, a: Address) {
    step == Accept(c, a) && c !in s.admittedAs && a in s.active && Live(s.active[a], s.now)
  }

  lemma StepTracks(s: Home, own: Address, step: Step, c: Connection)
    requires Decodes(s.active) && Enabled(s, own, step) && c in Exec(s, own, step).clients
    ensures var t := Exec(s, own, step);
      || Admits(s, step, c, t.clients[c])
      || (c in s.clients && s.clients[c] == t.clients[c] && (c in t.open ==> c in s.open))
  {
    hide Leases, Outcome, Orders, Separable, IsEarliest, Unexpired;
  }

  lemma {:induction false} ClientWasAdmitted(own: Address, states: seq<Home>, steps: seq<Step>, k: nat, c: Connection)
    requires IsRun(own, states, steps) && k < |states| && c in states[k].clients
    ensures exists j :: 0 <= j < k && Admits(states[j], steps[j], c, states[k].clients[c])
    decreases k
  {
    hide Exec, Enabled, Decodes, Admits;
    assert k > 0;
    assert Follows(states[k - 1], own, steps[k - 1], states[k]);
    StepTracks(states[k - 1], own, steps[k - 1], c);
    if !Admits(states[k - 1], steps[k - 1], c, states[k].clients[c]) {
      ClientWasAdmitted(own, states, steps, k - 1, c);
    }
  }

  /** A connection open now was open and tracked ever since its admission. */
  lemma {:induction false} OpenSinceAdmission(own: Address, states: seq<Home>, steps: seq<Step>, i: nat, k: nat,
                                              c: Connection)
    requires IsRun(own, states, steps) && i <= k < |states|
    requires c in states[i].admittedAs && c in states[k].clients && c in states[k].open
    ensures c in states[i].clients && c in states[i].open && states[i].clients[c] == states[k].clients[c]
    decreases k
  {
    hide Exec, Enabled, Decodes;
    if i < k {
      RunGrows(own, states, steps, i, k - 1);
      assert Follows(states[k - 1], own, steps[k - 1], states[k]);
      StepTracks(states[k - 1], own, steps[k - 1], c);
      OpenSinceAdmission(own, states, steps, i, k - 1, c);
    }
  }

  lemma AdmittedIsActive(s: Home, step: Step, c: Connection, a: Address)
    requires Admits(s, step, c, a)
    ensures a in s.active
  {
  }

  lemma AdmissionNotesTheKey(s: Home, own: Address, step: Step, c: Connection, a: Address)
    requires Decodes(s.active) && Enabled(s, own, step) && Admits(s, step, c, a)
    ensures var t := Exec(s, own, step); c in t.admittedAs && t.admittedAs[c] == s.active[a].key
  {
  }

  /** Address a has one key in all of states[j..k + 1]. */
  predicate SameKey(states: seq<Home>, j: nat, k: nat, a: Address) {
    forall m :: j <= m <= k < |states| ==>
      a in states[j].active && a in states[m].active && states[m].active[a].key == states[j].active[a].key
  }

  /** Every open client was admitted under a live lease, and its address has had that one key ever since. */
  lemma OpenClientKeepsItsPeer(own: Address, states: seq<Home>, steps: seq<Step>, k: nat, c: Connection)
    requires IsRun(own, states, steps) && k < |states| && c in states[k].clients && c in states[k].open
    ensures exists j :: 0 <= j < k && Admits(states[j], steps[j], c, states[k].clients[c])
                        && SameKey(states, j, k, states[k].clients[c])
  {
    hide Exec, Enabled, Decodes, Admits;
    var a := states[k].clients[c];
    ClientWasAdmitted(own, states, steps, k, c);
    var j :| 0 <= j < k && Admits(states[j], steps[j], c, a);
    assert Follows(states[j], own, steps[j], states[j + 1]);
    AdmissionNotesTheKey(states[j], own, steps[j], c, a);
    assert a in states[j].active by { AdmittedIsActive(states[j], steps[j], c, a); }
    forall m | j < m <= k ensures a in states[m].active && states[m].active[a].key == states[j].active[a].key {
      RunGrows(own, states, steps, j + 1, m);
      OpenSinceAdmission(own, states, steps, m, k, c);
      RunKeeps(own, states, steps, m);
    }
  }

  /** Without the `faithful` premise: a configuration call that fails halfway can leave a peer nothing will retire. */
  lemma FailedCallOutlivesLease(own: Address, a: Address, k: Key)
    requires own != a
    ensures var peer := Peer(KeyText(Some(k), 0), a, None, Some(5));
      var torn := Table(map[k := None], map[a := k]);
      var steps := [ApplyFails([peer], torn), Tick(10)];
      exists states: seq<Home> :: IsRun(own, states, steps) && states[0].now == 1
                                     && a in states[2].device.routes && !Live(peer, states[2].now)
                                     && states[2].up && states[2].timers == map[]
  {
    var peer := Peer(KeyText(Some(k), 0), a, None, Some(5));
    var torn := Table(map[k := None], map[a := k]);
    var first, last := ApplyFails([peer], torn), Tick(10);
    var s0 := Start(1);
    var s1 := Exec(s0, own, first);
    var s2 := Exec(s1, own, last);
    var states, steps := [s0, s1, s2], [first, last];
    assert Follows(states[0], own, steps[0], states[1]) && Follows(states[1], own, steps[1], states[2]);
    assert IsRun(own, states, steps);
  }

  /** One peer q arriving alone, and leaving again. */
  lemma AloneIsOrdered(q: Peer, now: int)
    requires Live(q, now)
    ensures Leases([q], now) == map[q.address := q]
    ensures Orders(map[], map[q.address := q], [q.address], [])
    ensures Orders(map[q.address := q], map[], [], [q.address])
  {
    LeasesKeepTheLive([q], now, 0);
  }

  lemma ArrivesAlone(own: Address, q: Peer)
    requires q.key.raw.Some? && q.address != own && q.endpoint == None && q.validUntil == Some(5)
    ensures Follows(Start(1), own, Apply([q], [q.address], [], Some(5)),
      Home(1, map[q.address := q], map[], {}, 1, map[1 := 5],
        Table(map[q.key.raw.value := None], map[q.address := q.key.raw.value]), true, false, true, map[]))
  {
    var b, l := q.address, q.key.raw.value;
    var next: Peers := map[b := q];
    AloneIsOrdered(q, 1);
    assert q.address in next && next[q.address].validUntil == Some(5);
    assert IsEarliest(next, Some(5));
    hide Leases, Orders;
    assert Assigns(next, [b]) == [Assign(l, b, None)] && Removes(map[], []) == [];
    assert DoAll(EMPTY, []) == EMPTY;
    assert DoAll(EMPTY, [Assign(l, b, None)]) == Do(EMPTY, Assign(l, b, None)) by {
      assert [Assign(l, b, None)][..0] == [];
    }
    assert Without(map[], l) == map[];
    assert ClosedRetired(Start(1), next) == {};
  }

  lemma TearsAndWaits(s: Home, own: Address, p: Peer, torn: Table)
    requires Decodes(s.active) && s.up && s.open == {} && p.key.raw.Some? && p.address != own
    ensures var t := s.(device := torn, faithful := false);
      && Follows(s, own, ApplyFails([p], torn), t)
      && Follows(t, own, Tick(10), t.(now := s.now + 10))
  {
    hide Leases;
    assert ClosedRetired(s, Leases([p], s.now)) == {};
  }

  lemma FiresAlone(s: Home, own: Address, q: Peer) returns (t: Home)
    requires s.active == map[q.address := q] && q.key.raw.Some? && q.validUntil == Some(5)
    requires s.now == 11 && s.generation == 1 && s.timers == map[1 := 5] && s.up
    ensures Follows(s, own, Step.Fire(1, [q.address], None), t)
    ensures t.up && t.active == map[] && t.timers == map[]
  {
    AloneIsOrdered(q, 1);
    assert Unexpired(s.active, s.now) == map[];
    hide Orders, Outcome, Separable;
    t := Exec(s, own, Step.Fire(1, [q.address], None));
  }

  lemma FourSteps(own: Address, s: seq<Home>, steps: seq<Step>)
    requires |s| == 5 && |steps| == 4 && s[0] == Start(s[0].now)
    requires Follows(s[0], own, steps[0], s[1]) && Follows(s[1], own, steps[1], s[2])
    requires Follows(s[2], own, steps[2], s[3]) && Follows(s[3], own, steps[3], s[4])
    ensures IsRun(own, s, steps)
  {
    hide Follows;
  }

  /**
   Nor need a callback mend it. Peer q has a lease; the next snapshot has p in its place, and its configuration
   call adds p and then fails. When both leases have run out, q's callback fires and p is still routed.
   */
  lemma FiringLeavesTornPeer(own: Address, p: Peer, q: Peer) returns (states: seq<Home>, steps: seq<Step>)
    requires p.key.raw.Some? && q.key.raw.Some? && p.key.raw != q.key.raw
    requires p.address != own && q.address != own && p.address != q.address
    requires p.validUntil == Some(5) && q.validUntil == Some(5) && q.endpoint == None
    ensures IsRun(own, states, steps) && |steps| == 4 && Fires(steps[3], 1)
    ensures steps[0] == Apply([q], [q.address], [], Some(5)) && steps[1].ApplyFails? && steps[1].peers == [p]
    ensures states[0].now == 1 && steps[1].torn == Do(states[1].device, Assign(p.key.raw.value, p.address, p.endpoint))
    ensures var last := states[4];
      && last.up && last.active == map[] && last.timers == map[] && !Live(p, last.now)
      && p.address in last.device.routes && last.device.routes[p.address] == p.key.raw.value
  {
    var k := p.key.raw.value;
    ArrivesAlone(own, q);
    var l := q.key.raw.value;
    var s1 := Home(1, map[q.address := q], map[], {}, 1, map[1 := 5],
                   Table(map[l := None], map[q.address := l]), true, false, true, map[]);
    var torn := Do(s1.device, Assign(k, p.address, p.endpoint));
    TearsAndWaits(s1, own, p, torn);
    var s2 := s1.(device := torn, faithful := false);
    var s3 := s2.(now := 11);
    var s4 := FiresAlone(s3, own, q);
    states := [Start(1), s1, s2, s3, s4];
    steps := [Apply([q], [q.address], [], Some(5)), ApplyFails([p], torn), Tick(10), Step.Fire(1, [q.address], None)];
    FourSteps(own, states, steps);
    FiringRemovesEveryExpiredKey(own, states, steps, 3, 1);
    assert s4.now == 11 by { assert Follows(s3, own, steps[3], s4); }
    hide IsRun, Follows;
    assert !ExpiredKey(s3, k);
  }

  // ----- the object -----

  /** Every value of `active`, listed in some order. */
  ghost predicate Lists(peers: seq<Peer>, active: Peers) {
    && (forall i, j :: 0 <= i < j < |peers| ==> peers[i].address != peers[j].address)
    && (forall i :: 0 <= i < |peers| ==> peers[i].address in active && active[peers[i].address] == peers[i])
    && (forall a :: a in active ==> active[a] in peers)
  }

  lemma ListedLeases(peers: seq<Peer>, active: Peers, now: int)
    requires Lists(peers, active) && forall a :: a in active ==> active[a].address == a
    ensures Leases(peers, now) == Unexpired(active, now)
  {
    forall a | a in active && Live(active[a], now)
      ensures a in Leases(peers, now) && Leases(peers, now)[a] == active[a]
    {
      var i :| 0 <= i < |peers| && peers[i] == active[a];
      LeasesKeepTheLive(peers, now, i);
    }
  }

  lemma SomethingChanged(previous: Peers, next: Peers, added: seq<Address>, gone: seq<Address>)
    requires Orders(previous, next, added, gone) && added != []
    ensures exists a :: Changed(previous, next, a)
  {
    assert added[0] in added;
  }

  lemma ExpiryChangesNothing(active: Peers, now: int)
    ensures forall a: Address :: !Changed(active, Unexpired(active, now), a)
  {
  }

  lemma NothingIsAdded(active: Peers, now: int, added: seq<Address>, gone: seq<Address>)
    requires Orders(active, Unexpired(active, now), added, gone)
    ensures added == []
  {
    hide Orders, Changed, Unexpired;
    if added != [] {
      SomethingChanged(active, Unexpired(active, now), added, gone);
      ExpiryChangesNothing(active, now);
    }
  }

  lemma OnlyClientsAreClosed(s: Home, next: Peers)
    ensures ClosedRetired(s, next) - s.clients.Keys == s.open - s.clients.Keys
  {
  }

  lemma StaleIs(s: Home, own: Address, g: nat)
    requires Decodes(s.active) && Due(s, g) && g != s.generation
    ensures Enabled(s, own, FireStale(g)) && Exec(s, own, FireStale(g)) == s.(timers := s.timers - {g})
  {
  }

  lemma FiringIs(s: Home, own: Address, g: nat, gone: seq<Address>, earliest: Option<int>)
    requires Decodes(s.active) && Due(s, g) && g == s.generation
    ensures Enabled(s, own, FireFails(g)) && Exec(s, own, FireFails(g)) ==
      s.(timers := s.timers - {g}, active := map[], open := s.open - s.clients.Keys, device := EMPTY, up := false,
         faithful := false)
    ensures var next := Unexpired(s.active, s.now);
      Orders(s.active, next, [], gone) && IsEarliest(next, earliest) ==>
        && Enabled(s, own, Step.Fire(g, gone, earliest))
        && Exec(s, own, Step.Fire(g, gone, earliest))
           == Scheduled(Applied(s.(timers := s.timers - {g}), next, [], gone), earliest)
  {
    hide Orders, Separable, Outcome, IsEarliest;
  }

  class Machine {
    const own: Address
    var active: Peers
    var clients: map<Connection, Address>
    var open: set<Connection>
    var generation: nat
    var timers: map<nat, int>
    var device: Table
    var up: bool
    ghost var stopped: bool
    ghost var faithful: bool
    ghost var admittedAs: map<Connection, KeyText>

    ghost function State(now: int): Home
      reads this
    {
      Home(now, active, clients, open, generation, timers, device, up, stopped, faithful, admittedAs)
    }

    constructor (own: Address, ghost now: int)
      ensures this.own == own && State(now) == Start(now)
    {
      this.own := own;
      active, clients, open, generation, timers := map[], map[], {}, 0, map[];
      device, up := EMPTY, true;
      stopped, faithful, admittedAs := false, true, map[];
    }

    method CloseRetiredClients(next: Peers, ghost now: int)
      modifies this`open
      ensures State(now) == old(State(now)).(open := ClosedRetired(old(State(now)), next))
    {
      var todo := clients.Keys;
      while todo != {}
        invariant todo <= clients.Keys
        invariant open == set c | c in old(open) && (c in todo || !RetiredClient(old(State(now)), next, c))
        decreases |todo|
      {
        var client :| client in todo;
        todo := todo - {client};
        var address := clients[client];
        if address !in next || (address in active && active[address].key != next[address].key) {
          open := open - {client};
        }
      }
    }

    /** Times are after the zero time 0, which stands for "none yet". */
    method ScheduleExpiry(ghost now: int) returns (ghost earliest: Option<int>)
      requires forall a :: a in active && active[a].validUntil.Some? ==> active[a].validUntil.value > 0
      modifies this`generation, this`timers, this`stopped
      ensures IsEarliest(active, earliest) && State(now) == Scheduled(old(State(now)), earliest)
    {
      generation, stopped := generation + 1, false;
      var first := 0;
      var todo := active.Keys;
      while todo != {}
        invariant todo <= active.Keys && first >= 0
        invariant first == 0 ==> forall a :: a in active && a !in todo ==> active[a].validUntil.None?
        invariant first > 0 ==> exists a :: a in active && active[a].validUntil == Some(first)
        invariant first > 0 ==> forall a :: a in active && a !in todo && active[a].validUntil.Some? ==>
          first <= active[a].validUntil.value
        decreases |todo|
      {
        var a :| a in todo;
        todo := todo - {a};
        if active[a].validUntil.Some? && (first == 0 || active[a].validUntil.value < first) {
          first := active[a].validUntil.value;
        }
      }
      if first == 0 {
        return None;
      }
      timers := timers[generation := first];
      return Some(first);
    }

    /** `fails` and `torn` are what the device does with a configuration it cannot take. */
    method ApplyLocked(peers: seq<Peer>, now: int, fails: bool, torn: Table)
      returns (ok: bool, ghost added: seq<Address>, ghost gone: seq<Address>, ghost earliest: Option<int>)
      requires Decodes(active) && Decodes(Leases(peers, now)) && now > 0 && (!up ==> device == EMPTY)
      modifies this
      ensures ok ==>
        && Orders(old(active), Leases(peers, now), added, gone) && IsEarliest(Leases(peers, now), earliest)
        && (old(up) || added == [])
        && State(now) == Scheduled(Applied(old(State(now)), Leases(peers, now), added, gone), earliest)
      ensures !ok ==> State(now) == old(State(now)).(
        open := ClosedRetired(old(State(now)), Leases(peers, now)), device := if old(up) then torn else EMPTY,
        faithful := false)
    {
      hide Orders, Separable, Assigns, Removes, DoAll, ClosedRetired, IsEarliest;
      earliest := None;
      var next := LivePeers(peers, now);
      ok, added, gone := Reconfigure(next, now, fails, torn);
      if !ok {
        faithful := false;
        return false, added, gone, None;
      }
      faithful := faithful && Separable(active, next);
      active := next;
      earliest := ScheduleExpiry(now);
    }

    method Reconfigure(next: Peers, ghost now: int, fails: bool, torn: Table)
      returns (ok: bool, ghost added: seq<Address>, ghost gone: seq<Address>)
      requires Decodes(active) && Decodes(next) && (!up ==> device == EMPTY)
      modifies this`open, this`device
      ensures open == ClosedRetired(old(State(now)), next)
      ensures ok ==> Orders(active, next, added, gone) && (up || added == [])
      ensures ok ==> device == if up then Outcome(old(device), active, next, added, gone) else EMPTY
      ensures !ok ==> device == if up then torn else EMPTY
    {
      hide Separable, ClosedRetired;
      var ops;
      ops, added, gone := Emit(active, next);
      CloseRetiredClients(next, now);
      var config := ops.value;
      DoAllConcat(device, Assigns(next, added), Removes(active, gone));
      assert added != [] ==> config[0] in config && config[0].Assign?;
      if config != [] {
        if fails || (!up && exists op :: op in config && op.Assign?) {
          device := if up then torn else EMPTY;
          return false, added, gone;
        }
        device := if up then DoAll(device, config) else EMPTY;
      }
      ok := true;
    }

    method Apply(overlay: Address, peers: seq<Peer>, now: int, fails: bool, torn: Table)
      returns (ok: bool, ghost step: Option<Step>)
      requires LeasesOk(State(now)) && now > 0 && (!up ==> device == EMPTY)
      modifies this
      ensures step.None? <==> overlay != own || !Accepted(own, peers)
      ensures step.None? ==> !ok && State(now) == old(State(now))
      ensures step.Some? ==>
        && (ok <==> step.value.Apply?) && (!ok <==> step.value.ApplyFails?)
        && step.value.peers == peers
        && Enabled(old(State(now)), own, step.value) && State(now) == Exec(old(State(now)), own, step.value)
    {
      if overlay != own || !Accepted(own, peers) {
        return false, None;
      }
      AcceptedDecodes(own, peers, now);
      ghost var added, gone, earliest;
      ok, added, gone, earliest := ApplyLocked(peers, now, fails, torn);
      step := Some(if ok then Step.Apply(peers, added, gone, earliest) else ApplyFails(peers, torn));
    }

    method ListActive() returns (remaining: seq<Peer>)
      requires forall a :: a in active ==> active[a].address == a
      ensures Lists(remaining, active)
    {
      remaining := [];
      var todo := active.Keys;
      while todo != {}
        invariant todo <= active.Keys
        invariant forall i, j :: 0 <= i < j < |remaining| ==> remaining[i].address != remaining[j].address
        invariant forall i :: 0 <= i < |remaining| ==>
          && remaining[i].address in active && remaining[i].address !in todo
          && active[remaining[i].address] == remaining[i]
        invariant forall a :: a in active && a !in todo ==> active[a] in remaining
        decreases |todo|
      {
        var a :| a in todo;
        todo := todo - {a};
        remaining := remaining + [active[a]];
      }
    }

    /** The callback armed for generation g. */
    method Fire(g: nat, now: int, fails: bool, torn: Table) returns (ghost step: Step)
      requires LeasesOk(State(now)) && now > 0 && (!up ==> device == EMPTY) && Due(State(now), g)
      modifies this
      ensures step.Fire? || step.FireFails? || step.FireStale?
      ensures step.FireStale? <==> g != old(generation)
      ensures Enabled(old(State(now)), own, step) && State(now) == Exec(old(State(now)), own, step)
    {
      hide Exec, Enabled;
      if generation != g {
        StaleIs(State(now), own, g);
        timers := timers - {g};
        return FireStale(g);
      }
      step := FireCurrent(now, fails, torn);
    }

    method FireCurrent(now: int, fails: bool, torn: Table) returns (ghost step: Step)
      requires LeasesOk(State(now)) && now > 0 && (!up ==> device == EMPTY) && Due(State(now), generation)
      modifies this
      ensures step.Fire? || step.FireFails?
      ensures Enabled(old(State(now)), own, step) && State(now) == Exec(old(State(now)), own, step)
    {
      hide Exec, Enabled, Orders, IsEarliest, Separable, Outcome, ClosedRetired;
      hide Unexpired, Leases, Applied, Scheduled, Live;
      ghost var s := State(now);
      ghost var disarmed := s.(timers := s.timers - {s.generation});
      timers := timers - {generation};
      assert State(now) == disarmed;
      var remaining := ListActive();
      ListedLeases(remaining, active, now);
      ExpiryIsSeparable(active, now);
      ghost var added, gone, earliest;
      var ok;
      ok, added, gone, earliest := ApplyLocked(remaining, now, fails, torn);
      if !ok {
        OnlyClientsAreClosed(disarmed, Leases(remaining, now));
        active := map[];
        open := open - clients.Keys;
        device, up := EMPTY, false;
        FiringIs(s, own, s.generation, [], None);
        return FireFails(s.generation);
      }
      NothingIsAdded(s.active, now, added, gone);
      FiringIs(s, own, s.generation, gone, earliest);
      step := Step.Fire(s.generation, gone, earliest);
    }

    method Accept(c: Connection, remote: Option<Address>, now: int) returns (admitted: bool)
      requires c !in admittedAs && LeasesOk(State(now))
      modifies this
      ensures admitted <==> remote.Some? && remote.value in active && Live(active[remote.value], now)
      ensures State(now) ==
        if remote.Some? then Exec(old(State(now)), own, Step.Accept(c, remote.value)) else old(State(now))
    {
      if remote.None? || remote.value !in active || !Live(active[remote.value], now) {
        return false;
      }
      clients, open := clients[c := remote.value], open + {c};
      admittedAs := admittedAs[c := active[remote.value].key];
      admitted := true;
    }

    /** A forwarder's deferred cleanup. */
    method Forget(c: Connection, ghost now: int)
      requires LeasesOk(State(now)) && c in clients
      modifies this`open, this`clients
      ensures State(now) == Exec(old(State(now)), own, Step.Forget(c))
    {
      open := open - {c};
      clients := clients - {c};
    }

    method Close(ghost now: int)
      modifies this`generation, this`stopped, this`open
      ensures State(now) ==
        old(State(now)).(generation := old(generation) + 1, stopped := true, open := old(open - clients.Keys))
    {
      generation, stopped := generation + 1, true;
      var todo := clients.Keys;
      while todo != {}
        invariant todo <= clients.Keys
        invariant open == old(open) - (clients.Keys - todo)
        invariant generation == old(generation) + 1 && stopped
        decreases |todo|
      {
        var client :| client in todo;
        todo := todo - {client};
        open := open - {client};
      }
    }
  }
}
