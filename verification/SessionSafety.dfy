/**
 What every interleaving of the session custody protocol keeps. The invariant
 is stated one request, row, family, process and cache entry at a time, so that
 a step is checked against the one item observed and the one item it changes.
 */
module SessionSafety {
  import opened Options
  import opened SessionCache
  import opened SessionCustody

  // ----- the invariant -----

  /** claims are what the rotation that wrote seal, for row id, committed. */
  ghost predicate FromRotation(s: State, id: nat, seal: Option<Seal>, claims: Claims) {
    seal.Some? && seal.value.nonce < s.nonce && seal.value in s.rotations && s.rotations[seal.value] == (id, claims)
  }

  /** token is the newest UOA has issued for its family, unless a successor of it was lost. */
  ghost predicate IsNewest(s: State, token: Token) {
    token.family !in s.lost ==> token.family in s.newest && token.serial == s.newest[token.family]
  }

  ghost predicate OpOk(s: State, o: nat)
    requires o in s.ops
  {
    var op := s.ops[o];
    // a resolving request is the one its process's flight table names
    && (HoldsFlight(op) ==>
          op.id in FlightsOf(s, op.p) && FlightsOf(s, op.p)[op.id] == o)
    // a lock holder's row is still as the holder read it
    && (HoldsLock(op) ==>
          op.id in s.locks && s.locks[op.id] == o && op.id in s.rows && s.rows[op.id] == op.row)
    && (op.Holding? || op.Exchanged? ==> !op.row.closing && op.row.user == Some(op.user))
    && (op.Cleaning? || op.CleaningRevoked? ==> op.row.closing)
    && (op.Exchanged? ==>
          op.row.kind == Refresh && op.token.family == op.row.seal.token.family && IsNewest(s, op.token))
    && ((op.Saved? || op.Checked?) && op.kind == Refresh ==> FromRotation(s, op.id, op.claims.fingerprint, op.claims))
    && (op.Closing? || op.ClosingRevoked? ==>
          && op.id in s.loggedOut
          && (op.id in s.rows ==> s.rows[op.id].kind == op.kind && s.rows[op.id].seal.token == op.token))
    && (op.Closing? && op.kind == Refresh ==>
          && op.token.family in s.newest && IsNewest(s, op.token)
          && op.token.family in s.home && s.home[op.token.family] == op.id)
    && (op.ClosingRevoked? && op.kind == Refresh ==> op.token.family in s.revoked)
    && (op.CleaningRevoked? && op.row.kind == Refresh ==> op.row.seal.token.family in s.revoked)
  }

  /** The row's lock holder has exchanged its token and not yet saved the successor. */
  predicate MidRotation(s: State, id: nat) {
    id in s.locks && s.locks[id] in s.ops && s.ops[s.locks[id]].Exchanged?
  }

  ghost predicate RowOk(s: State, id: nat) {
    && (id in s.locks ==> s.locks[id] in s.ops && HoldsLock(s.ops[s.locks[id]]) && s.ops[s.locks[id]].id == id)
    // a session once logged out stays owned and closing until its row is gone
    && (id in s.loggedOut ==> id in s.used && (id in s.rows ==> s.rows[id].closing && s.rows[id].user.Some?))
    && (id in s.admitted ==> id in s.used && id !in s.swept && (id in s.rows ==> s.rows[id].user.Some?))
    && (id in s.swept ==> id in s.used && id !in s.rows)
    && (id in s.rows ==>
          var row := s.rows[id];
          && id in s.used
          && row.seal.nonce < s.nonce
          && row.seal.token.family in s.newest
          && (row.user == None ==> row.closing)
          && (row.kind == Refresh ==>
                && row.seal.token.family in s.home && s.home[row.seal.token.family] == id
                && (!MidRotation(s, id) ==> IsNewest(s, row.seal.token))))
  }

  /** A family taken into custody has its row, or UOA has confirmed its revocation. */
  ghost predicate FamilyOk(s: State, f: nat) {
    f in s.home ==>
      && f in s.newest && s.home[f] in s.used
      && (f !in s.revoked ==>
            s.home[f] in s.rows && s.rows[s.home[f]].kind == Refresh && s.rows[s.home[f]].seal.token.family == f)
  }

  ghost predicate ProcessOk(s: State, p: nat) {
    |FlightsOf(s, p)| <= MAX_ENTRIES && |CacheOf(s, p)| <= MAX_ENTRIES
  }

  ghost predicate EntryOk(s: State, p: nat, id: nat) {
    id in CacheOf(s, p) ==>
      var e := CacheOf(s, p)[id];
      && FromRotation(s, id, e.fingerprint, e.claims)
      && (p, id) in s.puts && s.puts[(p, id)] <= s.now && e.expires <= s.puts[(p, id)] + CACHE_SECONDS
      && e.claims.expiresAt.Some? && e.expires <= e.claims.expiresAt.value
  }

  ghost predicate RotationOk(s: State, c: Seal) {
    c in s.rotations ==>
      && c.nonce < s.nonce && s.rotations[c].0 in s.used
      && (s.rotations[c].0 in s.rows ==> s.rotations[c].1.subject == s.rows[s.rotations[c].0].subject)
  }

  ghost predicate Inv(s: State) {
    && (forall o :: o in s.ops ==> OpOk(s, o))
    && (forall id: nat :: RowOk(s, id))
    && (forall f: nat :: FamilyOk(s, f))
    && (forall p: nat :: ProcessOk(s, p))
    && (forall p: nat, id: nat :: EntryOk(s, p, id))
    && (forall c: Seal :: RotationOk(s, c))
  }

  lemma InitHolds(now: int)
    ensures Inv(Init(now))
  {
  }

  // ----- every step keeps it -----

  ghost predicate ObservedOp(s: State, o: nat) {
    o in s.ops ==> OpOk(s, o) && RowOk(s, s.ops[o].id)
  }

  ghost predicate ObservedRow(s: State, id: nat) {
    RowOk(s, id) && (id in s.locks ==> OpOk(s, s.locks[id]))
  }

  ghost predicate ObservedFamily(s: State, f: nat) {
    FamilyOk(s, f) && (f in s.home ==> RowOk(s, s.home[f]))
  }

  lemma AtOp(s: State, o: nat)
    requires Inv(s)
    ensures ObservedOp(s, o)
  {
  }

  lemma AtRow(s: State, id: nat)
    requires Inv(s)
    ensures ObservedRow(s, id)
  {
  }

  /** The request a step belongs to. */
  function Actor(step: Step): Option<nat> {
    match step
    case Enter(o, _, _, _) => Some(o)
    case Hit(o) => Some(o)
    case Lock(o) => Some(o)
    case Exchange(o, _, _) => Some(o)
    case Save(o, _) => Some(o)
    case SaveUnacknowledged(o, _) => Some(o)
    case Bypass(o) => Some(o)
    case Check(o) => Some(o)
    case Finish(o, _) => Some(o)
    case Logout(o, _, _) => Some(o)
    case Revoke(o) => Some(o)
    case Drop(o) => Some(o)
    case Clean(o, _) => Some(o)
    case CleanRevoke(o) => Some(o)
    case CleanDelete(o) => Some(o)
    case Fail(o) => Some(o)
    case _ => None
  }

  /** The row a step is about. */
  function Target(s: State, step: Step): nat {
    match step
    case Stage(id, _, _, _) => id
    case Create(id, _, _, _, _, _) => id
    case Admit(id, _) => id
    case Hasten(id) => id
    case Postpone(id) => id
    case Enter(_, _, id, _) => id
    case Logout(_, id, _) => id
    case Clean(_, id) => id
    case _ => if Actor(step).Some? && Actor(step).value in s.ops then s.ops[Actor(step).value].id else 0
  }

  /** What the invariant says about the request and the row a step is about. */
  ghost predicate Around(s: State, step: Step) {
    && ObservedRow(s, Target(s, step))
    && (Actor(step).Some? ==> ObservedOp(s, Actor(step).value))
  }

  lemma AtStep(s: State, step: Step)
    requires Inv(s)
    ensures Around(s, step)
  {
  }

  lemma FinishEffect(s: State, o: nat, victim: Option<nat>)
    requires Enabled(s, Finish(o, victim))
    ensures o in s.ops && s.ops[o].Checked?
    ensures Exec(s, Finish(o, victim)) == Finished(s, o, victim)
  {
  }

  lemma OpStepRows(s: State, step: Step, o: nat)
    requires step.Tick? || step.Admit? || step.Hasten? || step.Postpone? || step.RevokedElsewhere?
    requires Around(s, step) && ObservedOp(s, o) && Enabled(s, step) && o in Exec(s, step).ops
    ensures OpOk(Exec(s, step), o)
  {
    hide IsHit, AfterGet, AfterPut, VictimFits, Storable, CacheOf;
  }

  lemma OpStepInsert(s: State, step: Step, o: nat)
    requires step.Stage? || step.Create?
    requires Around(s, step) && ObservedOp(s, o) && Enabled(s, step) && o in Exec(s, step).ops
    ensures OpOk(Exec(s, step), o)
  {
    hide IsHit, AfterGet, AfterPut, VictimFits, Storable, CacheOf;
  }

  lemma OpStepEnter(s: State, step: Step, o: nat)
    requires step.Enter?
    requires Around(s, step) && ObservedOp(s, o) && Enabled(s, step) && o in Exec(s, step).ops
    ensures OpOk(Exec(s, step), o)
  {
    hide IsHit, AfterGet, AfterPut, VictimFits, Storable, CacheOf;
  }

  lemma OpStepLock(s: State, step: Step, o: nat)
    requires step.Hit? || step.Lock?
    requires Around(s, step) && ObservedOp(s, o) && Enabled(s, step) && o in Exec(s, step).ops
    ensures OpOk(Exec(s, step), o)
  {
    hide IsHit, AfterGet, AfterPut, VictimFits, Storable, CacheOf;
  }

  lemma OpStepExchange(s: State, step: Step, o: nat)
    requires step.Exchange? || step.Bypass?
    requires Around(s, step) && ObservedOp(s, o) && Enabled(s, step) && o in Exec(s, step).ops
    ensures OpOk(Exec(s, step), o)
  {
    hide IsHit, AfterGet, AfterPut, VictimFits, Storable, CacheOf;
  }

  lemma OpStepCheck(s: State, step: Step, o: nat)
    requires step.Check?
    requires Around(s, step) && ObservedOp(s, o) && Enabled(s, step) && o in Exec(s, step).ops
    ensures OpOk(Exec(s, step), o)
  {
    hide IsHit, AfterGet, AfterPut, VictimFits, Storable, CacheOf;
  }

  lemma OpStepSave(s: State, step: Step, o: nat)
    requires step.Save?
    requires Around(s, step) && ObservedOp(s, o) && Enabled(s, step) && o in Exec(s, step).ops
    ensures OpOk(Exec(s, step), o)
  {
    hide IsHit, AfterGet, AfterPut, VictimFits, Storable, CacheOf;
  }

  lemma OpStepSaveEnd(s: State, step: Step, o: nat)
    requires step.SaveUnacknowledged?
    requires Around(s, step) && ObservedOp(s, o) && Enabled(s, step) && o in Exec(s, step).ops
    ensures OpOk(Exec(s, step), o)
  {
    hide IsHit, AfterGet, AfterPut, VictimFits, Storable, CacheOf;
  }

  lemma OpStepFinish(s: State, step: Step, o: nat)
    requires step.Finish?
    requires Around(s, step) && ObservedOp(s, o) && Enabled(s, step) && o in Exec(s, step).ops
    ensures OpOk(Exec(s, step), o)
  {
    FinishEffect(s, step.o, step.victim);
    hide Exec, Enabled, AfterPut, Storable, CacheOf, RowOk;
  }

  lemma OpStepLogout(s: State, step: Step, o: nat)
    requires step.Logout? || step.Revoke?
    requires Around(s, step) && ObservedOp(s, o) && Enabled(s, step) && o in Exec(s, step).ops
    ensures OpOk(Exec(s, step), o)
  {
    hide IsHit, AfterGet, AfterPut, VictimFits, Storable, CacheOf;
  }

  lemma OpStepDrop(s: State, step: Step, o: nat)
    requires step.Drop? || step.Clean?
    requires Around(s, step) && ObservedOp(s, o) && Enabled(s, step) && o in Exec(s, step).ops
    ensures OpOk(Exec(s, step), o)
  {
    hide IsHit, AfterGet, AfterPut, VictimFits, Storable, CacheOf;
  }

  lemma OpStepCleanRevoke(s: State, step: Step, o: nat)
    requires step.CleanRevoke?
    requires Around(s, step) && ObservedOp(s, o) && Enabled(s, step) && o in Exec(s, step).ops
    ensures OpOk(Exec(s, step), o)
  {
    hide IsHit, AfterGet, AfterPut, VictimFits, Storable, CacheOf;
  }

  lemma OpStepCleanDelete(s: State, step: Step, o: nat)
    requires step.CleanDelete?
    requires Around(s, step) && ObservedOp(s, o) && Enabled(s, step) && o in Exec(s, step).ops
    ensures OpOk(Exec(s, step), o)
  {
    hide IsHit, AfterGet, AfterPut, VictimFits, Storable, CacheOf;
  }

  lemma OpStepFail(s: State, step: Step, o: nat)
    requires step.Fail?
    requires Around(s, step) && ObservedOp(s, o) && Enabled(s, step) && o in Exec(s, step).ops
    ensures OpOk(Exec(s, step), o)
  {
    hide IsHit, AfterGet, AfterPut, VictimFits, Storable, CacheOf;
  }

  lemma OpStep(s: State, step: Step, o: nat)
    requires Inv(s) && Enabled(s, step) && o in Exec(s, step).ops
    ensures OpOk(Exec(s, step), o)
  {
    AtStep(s, step);
    AtOp(s, o);
    hide Inv, Exec, Enabled, OpOk, RowOk, FamilyOk, EntryOk, RotationOk;
    if step.Tick? || step.Admit? || step.Hasten? || step.Postpone? || step.RevokedElsewhere? {
      OpStepRows(s, step, o);
    } else if step.Stage? || step.Create? {
      OpStepInsert(s, step, o);
    } else if step.Enter? {
      OpStepEnter(s, step, o);
    } else if step.Hit? || step.Lock? {
      OpStepLock(s, step, o);
    } else if step.Exchange? || step.Bypass? {
      OpStepExchange(s, step, o);
    } else if step.Check? {
      OpStepCheck(s, step, o);
    } else if step.Save? {
      OpStepSave(s, step, o);
    } else if step.SaveUnacknowledged? {
      OpStepSaveEnd(s, step, o);
    } else if step.Finish? {
      OpStepFinish(s, step, o);
    } else if step.Logout? || step.Revoke? {
      OpStepLogout(s, step, o);
    } else if step.Drop? || step.Clean? {
      OpStepDrop(s, step, o);
    } else if step.CleanRevoke? {
      OpStepCleanRevoke(s, step, o);
    } else if step.CleanDelete? {
      OpStepCleanDelete(s, step, o);
    } else {
      OpStepFail(s, step, o);
    }
  }

  lemma RowStepRows(s: State, step: Step, id: nat)
    requires step.Tick? || step.Admit? || step.Hasten? || step.Postpone? || step.RevokedElsewhere?
    requires Around(s, step) && ObservedRow(s, id) && Enabled(s, step)
    ensures RowOk(Exec(s, step), id)
  {
    hide IsHit, AfterGet, AfterPut, VictimFits, Storable, CacheOf, FlightsOf;
  }

  lemma RowStepEnter(s: State, step: Step, id: nat)
    requires step.Enter? || step.Hit? || step.Check?
    requires Around(s, step) && ObservedRow(s, id) && Enabled(s, step)
    ensures RowOk(Exec(s, step), id)
  {
    hide IsHit, AfterGet, AfterPut, VictimFits, Storable, CacheOf, FlightsOf;
  }

  lemma RowStepInsert(s: State, step: Step, id: nat)
    requires step.Stage? || step.Create?
    requires Around(s, step) && ObservedRow(s, id) && Enabled(s, step)
    ensures RowOk(Exec(s, step), id)
  {
    hide IsHit, AfterGet, AfterPut, VictimFits, Storable, CacheOf, FlightsOf;
  }

  lemma RowStepLock(s: State, step: Step, id: nat)
    requires step.Exchange? || step.Lock? || step.Bypass?
    requires Around(s, step) && ObservedRow(s, id) && Enabled(s, step)
    ensures RowOk(Exec(s, step), id)
  {
    hide IsHit, AfterGet, AfterPut, VictimFits, Storable, CacheOf, FlightsOf;
  }

  lemma RowStepSave(s: State, step: Step, id: nat)
    requires step.Save? || step.SaveUnacknowledged?
    requires Around(s, step) && ObservedRow(s, id) && Enabled(s, step)
    ensures RowOk(Exec(s, step), id)
  {
    hide IsHit, AfterGet, AfterPut, VictimFits, Storable, CacheOf, FlightsOf;
  }

  lemma RowStepLogout(s: State, step: Step, id: nat)
    requires step.Logout?
    requires Around(s, step) && ObservedRow(s, id) && Enabled(s, step)
    ensures RowOk(Exec(s, step), id)
  {
    hide IsHit, AfterGet, AfterPut, VictimFits, Storable, CacheOf, FlightsOf;
  }

  lemma RowStepRevoke(s: State, step: Step, id: nat)
    requires step.Revoke?
    requires Around(s, step) && ObservedRow(s, id) && Enabled(s, step)
    ensures RowOk(Exec(s, step), id)
  {
    hide IsHit, AfterGet, AfterPut, VictimFits, Storable, CacheOf, FlightsOf;
  }

  lemma RowStepDrop(s: State, step: Step, id: nat)
    requires step.Drop?
    requires Around(s, step) && ObservedRow(s, id) && Enabled(s, step)
    ensures RowOk(Exec(s, step), id)
  {
    hide IsHit, AfterGet, AfterPut, VictimFits, Storable, CacheOf, FlightsOf;
  }

  lemma RowStepFinish(s: State, step: Step, id: nat)
    requires step.Finish?
    requires Around(s, step) && ObservedRow(s, id) && Enabled(s, step)
    ensures RowOk(Exec(s, step), id)
  {
    FinishEffect(s, step.o, step.victim);
    hide Exec, Enabled, AfterPut, Storable, CacheOf, FlightsOf;
  }

  lemma RowStepClean(s: State, step: Step, id: nat)
    requires step.Clean? || step.CleanRevoke?
    requires Around(s, step) && ObservedRow(s, id) && Enabled(s, step)
    ensures RowOk(Exec(s, step), id)
  {
    hide IsHit, AfterGet, AfterPut, VictimFits, Storable, CacheOf, FlightsOf;
  }

  lemma RowStepCleanDelete(s: State, step: Step, id: nat)
    requires step.CleanDelete?
    requires Around(s, step) && ObservedRow(s, id) && Enabled(s, step)
    ensures RowOk(Exec(s, step), id)
  {
    hide IsHit, AfterGet, AfterPut, VictimFits, Storable, CacheOf, FlightsOf;
  }

  lemma RowStepFail(s: State, step: Step, id: nat)
    requires step.Fail?
    requires Around(s, step) && ObservedRow(s, id) && Enabled(s, step)
    ensures RowOk(Exec(s, step), id)
  {
    hide IsHit, AfterGet, AfterPut, VictimFits, Storable, CacheOf, FlightsOf;
  }

  lemma RowStep(s: State, step: Step, id: nat)
    requires Inv(s) && Enabled(s, step)
    ensures RowOk(Exec(s, step), id)
  {
    AtStep(s, step);
    AtRow(s, id);
    hide Inv, Exec, Enabled, OpOk, RowOk, FamilyOk, EntryOk, RotationOk;
    if step.Tick? || step.Admit? || step.Hasten? || step.Postpone? || step.RevokedElsewhere? {
      RowStepRows(s, step, id);
    } else if step.Enter? || step.Hit? || step.Check? {
      RowStepEnter(s, step, id);
    } else if step.Stage? || step.Create? {
      RowStepInsert(s, step, id);
    } else if step.Exchange? || step.Lock? || step.Bypass? {
      RowStepLock(s, step, id);
    } else if step.Save? || step.SaveUnacknowledged? {
      RowStepSave(s, step, id);
    } else if step.Logout? {
      RowStepLogout(s, step, id);
    } else if step.Revoke? {
      RowStepRevoke(s, step, id);
    } else if step.Drop? {
      RowStepDrop(s, step, id);
    } else if step.Finish? {
      RowStepFinish(s, step, id);
    } else if step.Clean? || step.CleanRevoke? {
      RowStepClean(s, step, id);
    } else if step.CleanDelete? {
      RowStepCleanDelete(s, step, id);
    } else {
      RowStepFail(s, step, id);
    }
  }

  // The steps in four groups, for the parts of the invariant that few of them touch.

  predicate EarlyStep(step: Step) {
    || step.Tick? || step.Stage? || step.Create? || step.Admit? || step.Hasten? || step.Postpone?
    || step.RevokedElsewhere? || step.Enter? || step.Hit? || step.Lock? || step.Exchange? || step.Check?
  }

  predicate MiddleStep(step: Step) {
    step.Save? || step.SaveUnacknowledged? || step.Bypass? || step.Logout? || step.Revoke?
  }

  predicate LateStep(step: Step) {
    step.Drop? || step.Clean? || step.CleanRevoke?
  }

  predicate EndStep(step: Step) {
    step.CleanDelete? || step.Fail?
  }

  lemma FamilyStepEarly(s: State, step: Step, f: nat)
    requires EarlyStep(step)
    requires Around(s, step) && ObservedFamily(s, f) && Enabled(s, step)
    ensures FamilyOk(Exec(s, step), f)
  {
    hide IsHit, AfterGet, AfterPut, VictimFits, Storable, CacheOf, FlightsOf;
  }

  lemma FamilyStepMiddle(s: State, step: Step, f: nat)
    requires MiddleStep(step) || step.Finish?
    requires Around(s, step) && ObservedFamily(s, f) && Enabled(s, step)
    ensures FamilyOk(Exec(s, step), f)
  {
    hide IsHit, AfterGet, AfterPut, VictimFits, Storable, CacheOf, FlightsOf;
  }

  lemma FamilyStepLate(s: State, step: Step, f: nat)
    requires LateStep(step)
    requires Around(s, step) && ObservedFamily(s, f) && Enabled(s, step)
    ensures FamilyOk(Exec(s, step), f)
  {
    hide IsHit, AfterGet, AfterPut, VictimFits, Storable, CacheOf, FlightsOf;
  }

  lemma FamilyStepEnd(s: State, step: Step, f: nat)
    requires EndStep(step)
    requires Around(s, step) && ObservedFamily(s, f) && Enabled(s, step)
    ensures FamilyOk(Exec(s, step), f)
  {
    hide IsHit, AfterGet, AfterPut, VictimFits, Storable, CacheOf, FlightsOf;
  }

  lemma FamilyStep(s: State, step: Step, f: nat)
    requires Inv(s) && Enabled(s, step)
    ensures FamilyOk(Exec(s, step), f)
  {
    AtStep(s, step);
    AtFamily(s, f);
    hide Inv, Exec, Enabled, OpOk, RowOk, FamilyOk, EntryOk, RotationOk;
    if EarlyStep(step) {
      FamilyStepEarly(s, step, f);
    } else if MiddleStep(step) || step.Finish? {
      FamilyStepMiddle(s, step, f);
    } else if LateStep(step) {
      FamilyStepLate(s, step, f);
    } else {
      FamilyStepEnd(s, step, f);
    }
  }

  lemma AtFamily(s: State, f: nat)
    requires Inv(s)
    ensures ObservedFamily(s, f)
  {
  }

  lemma EntryStepEarly(s: State, step: Step, p: nat, id: nat)
    requires EarlyStep(step)
    requires Around(s, step) && EntryOk(s, p, id) && Enabled(s, step)
    ensures EntryOk(Exec(s, step), p, id)
  {
    hide IsHit, VictimFits, FlightsOf;
  }

  lemma EntryStepMiddle(s: State, step: Step, p: nat, id: nat)
    requires MiddleStep(step)
    requires Around(s, step) && EntryOk(s, p, id) && Enabled(s, step)
    ensures EntryOk(Exec(s, step), p, id)
  {
    hide IsHit, VictimFits, FlightsOf;
  }

  lemma EntryStepFinish(s: State, step: Step, p: nat, id: nat)
    requires step.Finish?
    requires Around(s, step) && EntryOk(s, p, id) && Enabled(s, step)
    ensures EntryOk(Exec(s, step), p, id)
  {
    FinishEffect(s, step.o, step.victim);
    assert s.ops[step.o].kind == Refresh ==>
      FromRotation(s, s.ops[step.o].id, s.ops[step.o].claims.fingerprint, s.ops[step.o].claims);
    hide EntryOk, Exec, Enabled, Finished, FromRotation;
    FinishedEntry(s, step.o, step.victim, p, id);
  }

  lemma EntryStepLate(s: State, step: Step, p: nat, id: nat)
    requires LateStep(step)
    requires Around(s, step) && EntryOk(s, p, id) && Enabled(s, step)
    ensures EntryOk(Exec(s, step), p, id)
  {
    hide IsHit, VictimFits, FlightsOf;
  }

  lemma EntryStepEnd(s: State, step: Step, p: nat, id: nat)
    requires EndStep(step)
    requires Around(s, step) && EntryOk(s, p, id) && Enabled(s, step)
    ensures EntryOk(Exec(s, step), p, id)
  {
    hide IsHit, VictimFits, FlightsOf;
  }

  lemma EntryStep(s: State, step: Step, p: nat, id: nat)
    requires Inv(s) && Enabled(s, step)
    ensures EntryOk(Exec(s, step), p, id)
  {
    AtStep(s, step);
    AtEntry(s, p, id);
    hide Inv, Exec, Enabled, OpOk, RowOk, FamilyOk, EntryOk, RotationOk;
    if EarlyStep(step) {
      EntryStepEarly(s, step, p, id);
    } else if MiddleStep(step) {
      EntryStepMiddle(s, step, p, id);
    } else if step.Finish? {
      EntryStepFinish(s, step, p, id);
    } else if LateStep(step) {
      EntryStepLate(s, step, p, id);
    } else {
      EntryStepEnd(s, step, p, id);
    }
  }

  lemma FinishedEntry(s: State, o: nat, victim: Option<nat>, p: nat, id: nat)
    requires o in s.ops && s.ops[o].Checked? && EntryOk(s, p, id)
    requires s.ops[o].kind == Refresh ==> FromRotation(s, s.ops[o].id, s.ops[o].claims.fingerprint, s.ops[o].claims)
    ensures EntryOk(Finished(s, o, victim), p, id)
  {
    hide AfterPut, FlightsOf;
    var op, t := s.ops[o], Finished(s, o, victim);
    assert t.rotations == s.rotations && t.nonce == s.nonce && t.now == s.now;
    if !(op.kind == Refresh && Storable(op.claims, s.now)) || p != op.p {
      assert CacheOf(t, p) == CacheOf(s, p);
      assert (p, id) in s.puts ==> (p, id) in t.puts && t.puts[(p, id)] == s.puts[(p, id)];
    } else {
      assert CacheOf(t, p) == AfterPut(CacheOf(s, p), op.id, op.claims, s.now, victim);
      if id in CacheOf(t, p) {
        PutContents(CacheOf(s, p), op.id, op.claims, s.now, victim, id);
        assert id != op.id && (p, id) in s.puts ==> (p, id) in t.puts && t.puts[(p, id)] == s.puts[(p, id)];
        assert id == op.id ==> (p, id) in t.puts && t.puts[(p, id)] == s.now;
      }
    }
  }

  lemma AtEntry(s: State, p: nat, id: nat)
    requires Inv(s)
    ensures EntryOk(s, p, id)
  {
  }

  lemma RotationStepEarly(s: State, step: Step, c: Seal)
    requires EarlyStep(step)
    requires Around(s, step) && RotationOk(s, c) && Enabled(s, step)
    ensures RotationOk(Exec(s, step), c)
  {
    hide IsHit, AfterGet, AfterPut, VictimFits, Storable, CacheOf, FlightsOf;
  }

  lemma RotationStepMiddle(s: State, step: Step, c: Seal)
    requires MiddleStep(step) || step.Finish?
    requires Around(s, step) && RotationOk(s, c) && Enabled(s, step)
    ensures RotationOk(Exec(s, step), c)
  {
    hide IsHit, AfterGet, AfterPut, VictimFits, Storable, CacheOf, FlightsOf;
  }

  lemma RotationStepLate(s: State, step: Step, c: Seal)
    requires LateStep(step)
    requires Around(s, step) && RotationOk(s, c) && Enabled(s, step)
    ensures RotationOk(Exec(s, step), c)
  {
    hide IsHit, AfterGet, AfterPut, VictimFits, Storable, CacheOf, FlightsOf;
  }

  lemma RotationStepEnd(s: State, step: Step, c: Seal)
    requires EndStep(step)
    requires Around(s, step) && RotationOk(s, c) && Enabled(s, step)
    ensures RotationOk(Exec(s, step), c)
  {
    hide IsHit, AfterGet, AfterPut, VictimFits, Storable, CacheOf, FlightsOf;
  }

  lemma RotationStep(s: State, step: Step, c: Seal)
    requires Inv(s) && Enabled(s, step)
    ensures RotationOk(Exec(s, step), c)
  {
    AtStep(s, step);
    AtRotation(s, c);
    hide Inv, Exec, Enabled, OpOk, RowOk, FamilyOk, EntryOk, RotationOk;
    if EarlyStep(step) {
      RotationStepEarly(s, step, c);
    } else if MiddleStep(step) || step.Finish? {
      RotationStepMiddle(s, step, c);
    } else if LateStep(step) {
      RotationStepLate(s, step, c);
    } else {
      RotationStepEnd(s, step, c);
    }
  }

  lemma AtRotation(s: State, c: Seal)
    requires Inv(s)
    ensures RotationOk(s, c)
  {
  }

  lemma LandedFlight(flights: map<nat, map<nat, nat>>, q: nat, id: nat, p: nat)
    ensures |TableOf(flights[q := TableOf(flights, q) - {id}], p)| <= |TableOf(flights, p)|
  {
    RemovedSize(TableOf(flights, q), id);
  }

  lemma EndedFlights(s: State, o: nat, p: nat)
    requires o in s.ops
    ensures |FlightsOf(Ended(s, o), p)| <= |FlightsOf(s, p)|
  {
    hide HoldsLock, TableOf;
    if HoldsFlight(s.ops[o]) {
      LandedFlight(s.flights, s.ops[o].p, s.ops[o].id, p);
    }
  }

  lemma TakenFlight(flights: map<nat, map<nat, nat>>, q: nat, id: nat, o: nat, p: nat)
    requires |TableOf(flights, q)| < MAX_ENTRIES && |TableOf(flights, p)| <= MAX_ENTRIES
    ensures |TableOf(flights[q := TableOf(flights, q)[id := o]], p)| <= MAX_ENTRIES
  {
    UpdatedSize(TableOf(flights, q), id, o);
  }

  lemma FlightBoundStep(s: State, step: Step, p: nat)
    requires Enabled(s, step) && |FlightsOf(s, p)| <= MAX_ENTRIES
    ensures |FlightsOf(Exec(s, step), p)| <= MAX_ENTRIES
  {
    hide TableOf, IsHit, VictimFits, Storable, AfterGet, AfterPut, CacheOf;
    if step.Enter? {
      TakenFlight(s.flights, step.p, step.id, step.o, p);
    } else if step.Finish? {
      LandedFlight(s.flights, s.ops[step.o].p, s.ops[step.o].id, p);
    } else if step.Hit? || step.SaveUnacknowledged? || step.Drop? || step.CleanDelete? || step.Fail? {
      FlightBoundEnd(s, step, p);
    } else {
      hide HoldsLock, HoldsFlight, Selectable, Free;
    }
  }

  lemma FlightBoundEnd(s: State, step: Step, p: nat)
    requires Enabled(s, step) && |FlightsOf(s, p)| <= MAX_ENTRIES
    requires step.Hit? || step.SaveUnacknowledged? || step.Drop? || step.CleanDelete? || step.Fail?
    ensures |FlightsOf(Exec(s, step), p)| <= MAX_ENTRIES
  {
    hide Ended, HoldsLock, HoldsFlight, Selectable, Free, IsHit, CacheOf, TableOf;
    if step.SaveUnacknowledged? {
      EndedFlights(Saving(s, step.o, step.ttl), step.o, p);
    } else {
      EndedFlights(s, step.o, p);
    }
  }

  lemma GetStaysBounded(entries: Entries, id: nat, fingerprint: Seal, now: int)
    ensures |AfterGet(entries, id, fingerprint, now)| <= |entries|
  {
    RemovedSize(entries, id);
  }

  lemma CacheBoundStep(s: State, step: Step, p: nat)
    requires Enabled(s, step) && |CacheOf(s, p)| <= MAX_ENTRIES
    ensures |CacheOf(Exec(s, step), p)| <= MAX_ENTRIES
  {
    hide Exec, HoldsLock, HoldsFlight, Free, FlightsOf, AfterPut, AfterGet, IsHit, Storable, VictimFits;
    if step.Lock? {
      LockCaches(s, step.o);
      GetStaysBounded(CacheOf(s, s.ops[step.o].p), s.ops[step.o].id, s.rows[s.ops[step.o].id].seal, s.now);
    } else if step.Finish? {
      FinishEffect(s, step.o, step.victim);
      if s.ops[step.o].p == p {
        PutStaysBounded(CacheOf(s, p), s.ops[step.o].id, s.ops[step.o].claims, s.now, step.victim);
      }
    } else {
      OtherCaches(s, step);
    }
  }

  lemma LockCaches(s: State, o: nat)
    requires Enabled(s, Lock(o))
    ensures var op, t := s.ops[o], Exec(s, Lock(o));
      t.caches == s.caches || t.caches == s.caches[op.p := AfterGet(CacheOf(s, op.p), op.id, s.rows[op.id].seal, s.now)]
  {
  }

  lemma OtherCaches(s: State, step: Step)
    requires Enabled(s, step) && !step.Lock? && !step.Finish?
    ensures Exec(s, step).caches == s.caches
  {
    hide HoldsLock, HoldsFlight, Free, FlightsOf, IsHit;
  }

  lemma StepKeeps(s: State, step: Step)
    requires Inv(s) && Enabled(s, step)
    ensures Inv(Exec(s, step))
  {
    hide Exec, Enabled, OpOk, RowOk, FamilyOk, EntryOk, RotationOk;
    var t := Exec(s, step);
    forall o | o in t.ops ensures OpOk(t, o) { OpStep(s, step, o); }
    forall id: nat ensures RowOk(t, id) { RowStep(s, step, id); }
    forall f: nat ensures FamilyOk(t, f) { FamilyStep(s, step, f); }
    forall p: nat ensures ProcessOk(t, p) {
      assert ProcessOk(s, p);
      FlightBoundStep(s, step, p);
      CacheBoundStep(s, step, p);
    }
    forall p: nat, id: nat ensures EntryOk(t, p, id) { EntryStep(s, step, p, id); }
    forall c: Seal ensures RotationOk(t, c) { RotationStep(s, step, c); }
  }
}
