/**
 The session custody protocol of internal/auth: rows shared by many processes
 under row locks, in-flight requests that hold them, each process's cache, and
 an upstream authority (UOA) that rotates and revokes refresh families.

 A step is what happens between two lock or commit points. Database errors,
 lost replies and crashes are the step `Fail`, allowed at any point.
 */
module SessionCustody {
  import opened Options
  import opened SessionCache

  datatype Kind = Refresh | Broker | Development

  datatype Row = Row(user: Option<nat>, subject: nat, seal: Seal, kind: Kind,
                     closing: bool, cleanupAfter: int, expires: int)

  const ADMISSION_SECONDS: int := 30
  const RETRY_SECONDS: int := 120

  /** A request between two steps. */
  datatype Op =
    // resolve: holds the process's flight for id
    | Entered(p: nat, id: nat, user: nat)
    // resolve: holds the row lock, capability not yet exchanged
    | Holding(p: nat, id: nat, user: nat, row: Row)
    // resolve: holds the row lock; UOA has issued the successor, not yet saved
    | Exchanged(p: nat, id: nat, user: nat, row: Row, token: Token, subject: nat, accessExpires: int)
    // resolve: transaction committed, profile check ahead
    | Saved(p: nat, id: nat, user: nat, kind: Kind, claims: Claims)
    // resolve: profile check passed, cache ahead
    | Checked(p: nat, id: nat, user: nat, kind: Kind, claims: Claims)
    // logout: closing is committed, revocation ahead
    | Closing(id: nat, user: nat, kind: Kind, token: Token)
    // logout: revocation confirmed (or not needed), deletion ahead
    | ClosingRevoked(id: nat, user: nat, kind: Kind, token: Token)
    // cleanup: holds the row lock, revocation ahead
    | Cleaning(id: nat, row: Row)
    // cleanup: holds the row lock, revocation confirmed (or not needed)
    | CleaningRevoked(id: nat, row: Row)

  predicate HoldsFlight(op: Op) {
    op.Entered? || op.Holding? || op.Exchanged? || op.Saved? || op.Checked?
  }

  predicate HoldsLock(op: Op) {
    op.Holding? || op.Exchanged? || op.Cleaning? || op.CleaningRevoked?
  }

  /** The fields after `used` are history: they record what has happened and guard no step. */
  datatype State = State(
    now: int,
    rows: map<nat, Row>,
    locks: map<nat, nat>,                    // row id -> request
    ops: map<nat, Op>,
    caches: map<nat, Entries>,               // process -> cache
    flights: map<nat, map<nat, nat>>,        // process -> row id -> request
    nonce: nat,
    newest: map<nat, nat>,                   // UOA: family -> serial of its newest token
    revoked: set<nat>,                       // UOA: families it has confirmed revoked
    used: set<nat>,                          // row ids ever inserted; they are never drawn again
    home: map<nat, nat>,                     // family -> row that took custody of it
    lost: set<nat>,                          // families with a successor that was never saved
    loggedOut: set<nat>,
    admitted: set<nat>,
    swept: set<nat>,                         // rows deleted by cleanup while nobody owned them
    rotations: map<Seal, (nat, Claims)>,     // committed rotations, by the seal they wrote
    puts: map<(nat, nat), int>               // when an entry was last stored
  )

  datatype Step =
    | Tick(d: nat)
    | Stage(id: nat, subject: nat, family: nat, ttl: int)
    | Create(id: nat, user: nat, subject: nat, kind: Kind, family: nat, ttl: int)
    | Admit(id: nat, user: nat)
    | Hasten(id: nat)
    | Postpone(id: nat)
    | Enter(o: nat, p: nat, id: nat, user: nat)
    | Hit(o: nat)
    | Lock(o: nat)
    | Exchange(o: nat, subject: nat, accessExpires: int)
    | Save(o: nat, ttl: int)
    | SaveUnacknowledged(o: nat, ttl: int)
    | Bypass(o: nat)
    | Check(o: nat)
    | Finish(o: nat, victim: Option<nat>)
    | Logout(o: nat, id: nat, user: nat)
    | Revoke(o: nat)
    | Drop(o: nat)
    | Clean(o: nat, id: nat)
    | CleanRevoke(o: nat)
    | CleanDelete(o: nat)
    | Fail(o: nat)
    | RevokedElsewhere(family: nat)

  function Init(now: int): State {
    State(now, map[], map[], map[], map[], map[], 0, map[], {}, {}, map[], {}, {}, {}, {}, map[], map[])
  }

  function CacheOf(s: State, p: nat): Entries {
    if p in s.caches then s.caches[p] else map[]
  }

  function TableOf(flights: map<nat, map<nat, nat>>, p: nat): map<nat, nat> {
    if p in flights then flights[p] else map[]
  }

  function FlightsOf(s: State, p: nat): map<nat, nat> {
    TableOf(s.flights, p)
  }

  /** The row a resolve's locking SELECT returns. */
  predicate Selectable(s: State, id: nat, user: nat) {
    && id in s.rows && id !in s.locks
    && s.rows[id].user == Some(user) && s.rows[id].expires > s.now
  }

  predicate Free(s: State, id: nat) {
    id in s.rows && id !in s.locks
  }

  predicate Enabled(s: State, step: Step) {
    match step
    case Tick(d) => true
    case Stage(id, subject, family, ttl) => id !in s.used && family !in s.newest && ttl > 0
    case Create(id, user, subject, kind, family, ttl) => id !in s.used && family !in s.newest && ttl > 0
    case Admit(id, user) =>
      Free(s, id) && s.rows[id].user == None && s.rows[id].closing && s.rows[id].expires > s.now
    case Hasten(id) => Free(s, id) && s.rows[id].closing
    case Postpone(id) => Free(s, id) && s.rows[id].closing
    case Enter(o, p, id, user) =>
      o !in s.ops && id !in FlightsOf(s, p) && |FlightsOf(s, p)| < MAX_ENTRIES
    case Hit(o) =>
      && o in s.ops && s.ops[o].Entered? && Selectable(s, s.ops[o].id, s.ops[o].user)
      && !s.rows[s.ops[o].id].closing && s.rows[s.ops[o].id].kind == Refresh
      && IsHit(CacheOf(s, s.ops[o].p), s.ops[o].id, s.rows[s.ops[o].id].seal, s.now)
    case Lock(o) =>
      && o in s.ops && s.ops[o].Entered? && Selectable(s, s.ops[o].id, s.ops[o].user)
      && !s.rows[s.ops[o].id].closing
      && !(s.rows[s.ops[o].id].kind == Refresh
           && IsHit(CacheOf(s, s.ops[o].p), s.ops[o].id, s.rows[s.ops[o].id].seal, s.now))
    case Exchange(o, subject, accessExpires) =>
      o in s.ops && s.ops[o].Holding? && s.ops[o].row.kind == Refresh
    case Save(o, ttl) =>
      o in s.ops && s.ops[o].Exchanged? && s.ops[o].subject == s.ops[o].row.subject && ttl > 0
    case SaveUnacknowledged(o, ttl) =>
      o in s.ops && s.ops[o].Exchanged? && s.ops[o].subject == s.ops[o].row.subject && ttl > 0
    case Bypass(o) => o in s.ops && s.ops[o].Holding? && s.ops[o].row.kind != Refresh
    case Check(o) =>
      && o in s.ops && s.ops[o].Saved? && s.ops[o].id in s.rows
      && !s.rows[s.ops[o].id].closing && s.rows[s.ops[o].id].expires > s.now
      && (s.ops[o].claims.fingerprint.Some? ==> s.ops[o].claims.fingerprint.value == s.rows[s.ops[o].id].seal)
    case Finish(o, victim) => o in s.ops && s.ops[o].Checked? && VictimFits(CacheOf(s, s.ops[o].p), victim)
    case Logout(o, id, user) => o !in s.ops && Free(s, id) && s.rows[id].user == Some(user)
    case Revoke(o) => o in s.ops && s.ops[o].Closing?
    case Drop(o) => o in s.ops && s.ops[o].ClosingRevoked? && s.ops[o].id !in s.locks
    case Clean(o, id) => o !in s.ops && Free(s, id) && s.rows[id].closing && s.rows[id].cleanupAfter <= s.now
    case CleanRevoke(o) => o in s.ops && s.ops[o].Cleaning?
    case CleanDelete(o) => o in s.ops && s.ops[o].CleaningRevoked?
    case Fail(o) => o in s.ops
    case RevokedElsewhere(family) => true
  }

  /** The request ends: its lock, if any, and its flight, if any, are given up. */
  function Ended(s: State, o: nat): State
    requires o in s.ops
  {
    var op := s.ops[o];
    s.(ops := s.ops - {o},
       locks := if HoldsLock(op) then s.locks - {op.id} else s.locks,
       flights := if HoldsFlight(op) then s.flights[op.p := FlightsOf(s, op.p) - {op.id}] else s.flights)
  }

  /** The committed UPDATE of `rotate`: the successor, freshly sealed, replaces the spent token. */
  function Saving(s: State, o: nat, ttl: int): State
    requires o in s.ops && s.ops[o].Exchanged?
  {
    var op := s.ops[o];
    var seal := Seal(s.nonce, op.token);
    var claims := Claims(op.subject, Some(seal), Some(op.accessExpires));
    s.(rows := s.rows[op.id := op.row.(seal := seal, expires := s.now + ttl)],
       locks := s.locks - {op.id},
       ops := s.ops[o := Saved(op.p, op.id, op.user, Refresh, claims)],
       nonce := s.nonce + 1,
       rotations := s.rotations[seal := (op.id, claims)])
  }

  /** A resolve that passed its profile check: the claims may be cached and the flight is given up. */
  function Finished(s: State, o: nat, victim: Option<nat>): State
    requires o in s.ops && s.ops[o].Checked?
  {
    var op := s.ops[o];
    var stored := op.kind == Refresh && Storable(op.claims, s.now);
    s.(ops := s.ops - {o},
       flights := s.flights[op.p := FlightsOf(s, op.p) - {op.id}],
       caches := if stored
                 then s.caches[op.p := AfterPut(CacheOf(s, op.p), op.id, op.claims, s.now, victim)] else s.caches,
       puts := if stored then s.puts[(op.p, op.id) := s.now] else s.puts)
  }

  function Inserted(s: State, id: nat, row: Row, family: nat): State {
    s.(rows := s.rows[id := row], nonce := s.nonce + 1, used := s.used + {id},
       newest := s.newest[family := 0],
       home := if row.kind == Refresh then s.home[family := id] else s.home)
  }

  function Exec(s: State, step: Step): State
    requires Enabled(s, step)
  {
    match step
    case Tick(d) => s.(now := s.now + d)
    case Stage(id, subject, family, ttl) =>
      Inserted(s, id, Row(None, subject, Seal(s.nonce, Token(family, 0)), Refresh, true,
                          s.now + ADMISSION_SECONDS, s.now + ttl), family)
    case Create(id, user, subject, kind, family, ttl) =>
      Inserted(s, id, Row(Some(user), subject, Seal(s.nonce, Token(family, 0)), kind, false,
                          s.now, s.now + ttl), family)
    case Admit(id, user) =>
      s.(rows := s.rows[id := s.rows[id].(user := Some(user), closing := false)], admitted := s.admitted + {id})
    case Hasten(id) => s.(rows := s.rows[id := s.rows[id].(cleanupAfter := s.now)])
    case Postpone(id) => s.(rows := s.rows[id := s.rows[id].(cleanupAfter := s.now + RETRY_SECONDS)])
    case Enter(o, p, id, user) =>
      s.(ops := s.ops[o := Entered(p, id, user)],
         flights := s.flights[p := FlightsOf(s, p)[id := o]])
    case Hit(o) => Ended(s, o)
    case Lock(o) =>
      var op := s.ops[o];
      var row := s.rows[op.id];
      s.(locks := s.locks[op.id := o],
         ops := s.ops[o := Holding(op.p, op.id, op.user, row)],
         caches := if row.kind == Refresh
                   then s.caches[op.p := AfterGet(CacheOf(s, op.p), op.id, row.seal, s.now)] else s.caches)
    case Exchange(o, subject, accessExpires) =>
      var op := s.ops[o];
      var family := op.row.seal.token.family;
      var serial := (if family in s.newest then s.newest[family] else 0) + 1;
      s.(ops := s.ops[o := Exchanged(op.p, op.id, op.user, op.row, Token(family, serial), subject, accessExpires)],
         newest := s.newest[family := serial])
    case Save(o, ttl) => Saving(s, o, ttl)
    case SaveUnacknowledged(o, ttl) => Ended(Saving(s, o, ttl), o)
    case Bypass(o) =>
      var op := s.ops[o];
      s.(locks := s.locks - {op.id},
         ops := s.ops[o := Saved(op.p, op.id, op.user, op.row.kind, Claims(op.row.subject, None, None))])
    case Check(o) =>
      var op := s.ops[o];
      s.(ops := s.ops[o := Checked(op.p, op.id, op.user, op.kind, op.claims)])
    case Finish(o, victim) => Finished(s, o, victim)
    case Logout(o, id, user) =>
      s.(rows := s.rows[id := s.rows[id].(closing := true, cleanupAfter := s.now)],
         ops := s.ops[o := Closing(id, user, s.rows[id].kind, s.rows[id].seal.token)],
         loggedOut := s.loggedOut + {id})
    case Revoke(o) =>
      var op := s.ops[o];
      s.(ops := s.ops[o := ClosingRevoked(op.id, op.user, op.kind, op.token)],
         revoked := if op.kind == Refresh then s.revoked + {op.token.family} else s.revoked)
    case Drop(o) =>
      var op := s.ops[o];
      var matches := op.id in s.rows && s.rows[op.id].user == Some(op.user) && s.rows[op.id].closing;
      Ended(s, o).(rows := if matches then s.rows - {op.id} else s.rows)
    case Clean(o, id) =>
      s.(locks := s.locks[id := o], ops := s.ops[o := Cleaning(id, s.rows[id])])
    case CleanRevoke(o) =>
      var op := s.ops[o];
      s.(ops := s.ops[o := CleaningRevoked(op.id, op.row)],
         revoked := if op.row.kind == Refresh then s.revoked + {op.row.seal.token.family} else s.revoked)
    case CleanDelete(o) =>
      var op := s.ops[o];
      Ended(s, o).(rows := s.rows - {op.id},
                   swept := if op.row.user == None then s.swept + {op.id} else s.swept)
    case Fail(o) =>
      var op := s.ops[o];
      Ended(s, o).(lost := if op.Exchanged? then s.lost + {op.token.family} else s.lost)
    case RevokedElsewhere(family) => s.(revoked := s.revoked + {family})
  }
}
