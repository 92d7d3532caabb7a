/**
 What the session custody protocol promises about whole runs, for any number of
 processes and requests and any interleaving of their steps.
 */
module SessionRuns {
  import opened Options
  import opened SessionCache
  import opened SessionCustody
  import opened SessionSafety

  datatype Run = Run(states: seq<State>, steps: seq<Step>)

  ghost predicate IsRun(r: Run) {
    && |r.states| == |r.steps| + 1
    && r.states[0] == Init(r.states[0].now)
    && forall i :: 0 <= i < |r.steps| ==> Follows(r.states[i], r.steps[i], r.states[i + 1])
  }

  ghost predicate Follows(s: State, step: Step, t: State) {
    Enabled(s, step) && t == Exec(s, step)
  }

  lemma {:induction false} RunKeeps(r: Run, k: nat)
    requires IsRun(r) && k < |r.states|
    ensures Inv(r.states[k])
  {
    hide Inv, Exec, Enabled;
    if k == 0 {
      InitHolds(r.states[0].now);
    } else {
      RunKeeps(r, k - 1);
      assert Follows(r.states[k - 1], r.steps[k - 1], r.states[k]);
      StepKeeps(r.states[k - 1], r.steps[k - 1]);
    }
  }

  /** Steps that write no row. */
  predicate Quiet(step: Step) {
    QuietEarly(step) || QuietLate(step)
  }

  predicate QuietEarly(step: Step) {
    step.Tick? || step.Enter? || step.Hit? || step.Lock? || step.Exchange? || step.Bypass? || step.Check?
  }

  predicate QuietLate(step: Step) {
    step.Finish? || step.Revoke? || step.Clean? || step.CleanRevoke? || step.Fail? || step.RevokedElsewhere?
  }

  ghost predicate SameRows(s: State, t: State) {
    t.rows == s.rows && t.used == s.used && t.home == s.home && t.rotations == s.rotations
  }

  lemma QuietEarlyKeepsRows(s: State, step: Step)
    requires Enabled(s, step) && QuietEarly(step)
    ensures SameRows(s, Exec(s, step))
  {
    hide IsHit, AfterGet, AfterPut, VictimFits, Storable, CacheOf, FlightsOf;
  }

  lemma QuietLateKeepsRows(s: State, step: Step)
    requires Enabled(s, step) && QuietLate(step)
    ensures SameRows(s, Exec(s, step)) && Exec(s, step).newest == s.newest
  {
    hide IsHit, AfterGet, AfterPut, VictimFits, Storable, CacheOf, FlightsOf;
  }

  lemma QuietStepsKeepRows(s: State, step: Step)
    requires Enabled(s, step) && Quiet(step)
    ensures SameRows(s, Exec(s, step))
  {
    hide Enabled, Exec, SameRows;
    if QuietEarly(step) {
      QuietEarlyKeepsRows(s, step);
    } else {
      QuietLateKeepsRows(s, step);
    }
  }

  // ----- what only grows -----

  ghost predicate Grows(s: State, t: State) {
    && s.used <= t.used && s.loggedOut <= t.loggedOut && s.admitted <= t.admitted && s.swept <= t.swept
    && s.revoked <= t.revoked && s.lost <= t.lost && s.now <= t.now && s.nonce <= t.nonce
    && (forall f :: f in s.home ==> f in t.home && t.home[f] == s.home[f])
    && (forall f :: f in s.newest ==> f in t.newest && s.newest[f] <= t.newest[f])
  }

  lemma RowSetsGrow(s: State, step: Step)
    requires Enabled(s, step)
    ensures var t := Exec(s, step);
      s.used <= t.used && s.loggedOut <= t.loggedOut && s.admitted <= t.admitted && s.swept <= t.swept
  {
    hide IsHit, AfterGet, AfterPut, VictimFits, Storable, CacheOf, FlightsOf;
  }

  lemma TokenSetsGrow(s: State, step: Step)
    requires Enabled(s, step)
    ensures s.revoked <= Exec(s, step).revoked && s.lost <= Exec(s, step).lost
  {
    hide IsHit, AfterGet, AfterPut, VictimFits, Storable, CacheOf, FlightsOf;
  }

  lemma CountersGrow(s: State, step: Step)
    requires Enabled(s, step)
    ensures s.now <= Exec(s, step).now && s.nonce <= Exec(s, step).nonce
  {
    hide IsHit, AfterGet, AfterPut, VictimFits, Storable, CacheOf, FlightsOf;
  }

  lemma SerialsGrow(s: State, step: Step, f: nat)
    requires Enabled(s, step) && f in s.newest
    ensures f in Exec(s, step).newest && s.newest[f] <= Exec(s, step).newest[f]
  {
    if QuietLate(step) {
      hide Exec, Enabled;
      QuietLateKeepsRows(s, step);
    } else {
      hide IsHit, AfterGet, AfterPut, VictimFits, Storable, CacheOf, FlightsOf;
    }
  }

  lemma HomesStay(s: State, step: Step, f: nat)
    requires Enabled(s, step) && FamilyOk(s, f) && f in s.home
    ensures f in Exec(s, step).home && Exec(s, step).home[f] == s.home[f]
  {
    if Quiet(step) {
      hide Exec, Enabled, FamilyOk;
      QuietStepsKeepRows(s, step);
    } else {
      hide IsHit, AfterGet, AfterPut, VictimFits, Storable, CacheOf, FlightsOf;
    }
  }

  lemma StepGrows(s: State, step: Step)
    requires Inv(s) && Enabled(s, step)
    ensures Grows(s, Exec(s, step))
  {
    hide Inv, Exec, Enabled, FamilyOk, RowOk;
    RowSetsGrow(s, step);
    TokenSetsGrow(s, step);
    CountersGrow(s, step);
    forall f: nat | f in s.newest
      ensures f in Exec(s, step).newest && s.newest[f] <= Exec(s, step).newest[f]
    {
      SerialsGrow(s, step, f);
    }
    forall f: nat | f in s.home
      ensures f in Exec(s, step).home && Exec(s, step).home[f] == s.home[f]
    {
      AtFamily(s, f);
      HomesStay(s, step, f);
    }
  }

  lemma {:induction false} RunGrows(r: Run, i: nat, k: nat)
    requires IsRun(r) && i <= k < |r.states|
    ensures Grows(r.states[i], r.states[k])
    decreases k
  {
    if i < k {
      RunGrows(r, i, k - 1);
      RunKeeps(r, k - 1);
      assert Follows(r.states[k - 1], r.steps[k - 1], r.states[k]);
      StepGrows(r.states[k - 1], r.steps[k - 1]);
      hide Inv, Exec, Enabled;
    }
  }

  // ----- logout -----

  /** The session was owned and is closing or gone. */
  ghost predicate Closed(s: State, id: nat) {
    id in s.used && (id in s.rows ==> s.rows[id].closing && s.rows[id].user.Some?)
  }

  lemma StepStaysClosed(s: State, step: Step, id: nat)
    requires Inv(s) && Enabled(s, step) && Closed(s, id)
    ensures Closed(Exec(s, step), id)
  {
    if Quiet(step) {
      hide Inv, Exec, Enabled;
      QuietStepsKeepRows(s, step);
    } else {
      AtStep(s, step);
      AtRow(s, id);
      hide Inv, IsHit, AfterGet, AfterPut, VictimFits, Storable, CacheOf, FlightsOf;
    }
  }

  /** An owned row that became closing never becomes usable again. */
  lemma {:induction false} ClosingIsFinal(r: Run, i: nat, k: nat, id: nat)
    requires IsRun(r) && i <= k < |r.states|
    requires id in r.states[i].rows && r.states[i].rows[id].user.Some? && r.states[i].rows[id].closing
    ensures id in r.states[k].rows ==> r.states[k].rows[id].closing && r.states[k].rows[id].user.Some?
    ensures Closed(r.states[k], id)
    decreases k
  {
    if i < k {
      ClosingIsFinal(r, i, k - 1, id);
      RunKeeps(r, k - 1);
      assert Follows(r.states[k - 1], r.steps[k - 1], r.states[k]);
      StepStaysClosed(r.states[k - 1], r.steps[k - 1], id);
    } else {
      RunKeeps(r, i);
      AtRow(r.states[i], id);
    }
  }

  /** The step that settles a resolve as successful: a cache hit, or the profile check's read of the row. */
  predicate Resolves(s: State, step: Step) {
    (step.Hit? || step.Check?) && Enabled(s, step)
  }

  function ResolvedId(s: State, step: Step): nat
    requires Resolves(s, step)
  {
    s.ops[step.o].id
  }

  /** No resolve succeeds once a logout of its session has committed, whenever the resolve began. */
  lemma NoResolveAfterLogout(r: Run, i: nat, k: nat)
    requires IsRun(r) && i < k < |r.steps|
    requires r.steps[i].Logout? && Resolves(r.states[k], r.steps[k])
    ensures ResolvedId(r.states[k], r.steps[k]) != r.steps[i].id
  {
    var id := r.steps[i].id;
    assert Follows(r.states[i], r.steps[i], r.states[i + 1]);
    assert id in r.states[i + 1].loggedOut;
    RunGrows(r, i + 1, k);
    RunKeeps(r, k);
    AtRow(r.states[k], id);
    hide Inv;
  }

  lemma StepChecks(s: State, step: Step, o: nat)
    requires Enabled(s, step) && o in Exec(s, step).ops && Exec(s, step).ops[o].Checked?
    ensures step == Check(o) || (o in s.ops && s.ops[o] == Exec(s, step).ops[o])
    ensures step == Check(o) ==> s.ops[o].id == Exec(s, step).ops[o].id
  {
    hide IsHit, AfterGet, AfterPut, VictimFits, Storable, CacheOf, FlightsOf;
  }

  /** A resolve past its profile check after a logout has been past it ever since the logout committed. */
  lemma {:induction false} CheckedBeforeLogout(r: Run, i: nat, m: nat, k: nat, o: nat)
    requires IsRun(r) && i < m <= k < |r.states| && r.steps[i].Logout?
    requires o in r.states[k].ops && r.states[k].ops[o].Checked? && r.states[k].ops[o].id == r.steps[i].id
    ensures o in r.states[m].ops && r.states[m].ops[o] == r.states[k].ops[o]
    decreases k
  {
    hide Exec, Enabled;
    if m < k {
      assert Follows(r.states[k - 1], r.steps[k - 1], r.states[k]);
      StepChecks(r.states[k - 1], r.steps[k - 1], o);
      if r.steps[k - 1] == Check(o) {
        NoResolveAfterLogout(r, i, k - 1);
      } else {
        CheckedBeforeLogout(r, i, m, k - 1, o);
      }
    }
  }

  /** A resolve that begins after a committed logout of its session never returns successfully. */
  lemma NoReturnAfterLogout(r: Run, i: nat, j: nat, k: nat)
    requires IsRun(r) && i < j < k < |r.steps| && r.steps[i].Logout? && r.steps[j].Enter?
    requires r.steps[k].Hit? || r.steps[k].Finish?
    requires Enabled(r.states[k], r.steps[k]) && r.steps[k].o == r.steps[j].o
    ensures r.states[k].ops[r.steps[k].o].id != r.steps[i].id
  {
    var o := r.steps[k].o;
    assert Follows(r.states[j], r.steps[j], r.states[j + 1]);
    assert o !in r.states[j].ops;
    if r.states[k].ops[o].id == r.steps[i].id {
      if r.steps[k].Hit? {
        NoResolveAfterLogout(r, i, k);
      } else {
        CheckedBeforeLogout(r, i, j, k, o);
      }
    }
  }

  // ----- admission -----

  lemma StepOwns(s: State, step: Step, id: nat)
    requires Inv(s) && Enabled(s, step)
    requires id in s.used && (id in s.rows ==> s.rows[id].user == None)
    requires !(step.Admit? && step.id == id)
    ensures var t := Exec(s, step); id in t.used && (id in t.rows ==> t.rows[id].user == None)
  {
    if Quiet(step) {
      hide Inv, Exec, Enabled;
      QuietStepsKeepRows(s, step);
    } else {
      AtStep(s, step);
      AtRow(s, id);
      hide Inv, IsHit, AfterGet, AfterPut, VictimFits, Storable, CacheOf, FlightsOf;
    }
  }

  /** A staged row is unowned as long as it has not been admitted. */
  lemma {:induction false} UnadmittedIsUnowned(r: Run, i: nat, k: nat)
    requires IsRun(r) && i < k < |r.states| && r.steps[i].Stage?
    requires forall j :: i < j < k ==> !(r.steps[j].Admit? && r.steps[j].id == r.steps[i].id)
    ensures var id := r.steps[i].id;
      id in r.states[k].used && (id in r.states[k].rows ==> r.states[k].rows[id].user == None)
    decreases k
  {
    if i + 1 < k {
      UnadmittedIsUnowned(r, i, k - 1);
      RunKeeps(r, k - 1);
      assert Follows(r.states[k - 1], r.steps[k - 1], r.states[k]);
      StepOwns(r.states[k - 1], r.steps[k - 1], r.steps[i].id);
    } else {
      assert Follows(r.states[i], r.steps[i], r.states[k]);
    }
  }

  /** A staged session resolves only after its admission. */
  lemma StagedNeverResolves(r: Run, i: nat, k: nat)
    requires IsRun(r) && i < k < |r.steps| && r.steps[i].Stage?
    requires Resolves(r.states[k], r.steps[k]) && ResolvedId(r.states[k], r.steps[k]) == r.steps[i].id
    ensures exists j :: i < j < k && r.steps[j].Admit? && r.steps[j].id == r.steps[i].id
  {
    if forall j :: i < j < k ==> !(r.steps[j].Admit? && r.steps[j].id == r.steps[i].id) {
      UnadmittedIsUnowned(r, i, k);
      RunKeeps(r, k);
      AtRow(r.states[k], r.steps[i].id);
      hide Inv;
      assert false;
    }
  }

  /** Step k deletes, by cleanup, a row nobody owned. */
  predicate SweepsStaged(s: State, step: Step, id: nat) {
    step.CleanDelete? && Enabled(s, step) && s.ops[step.o].id == id && s.ops[step.o].row.user == None
  }

  /** Of one staged row, admission and cleanup never both succeed, in either order. */
  lemma AdmittedOrSwept(r: Run, i: nat, k: nat, id: nat)
    requires IsRun(r) && i < |r.steps| && k < |r.steps|
    requires r.steps[i].Admit? && r.steps[i].id == id
    ensures !SweepsStaged(r.states[k], r.steps[k], id)
  {
    if SweepsStaged(r.states[k], r.steps[k], id) {
      var n := |r.steps|;
      assert Follows(r.states[i], r.steps[i], r.states[i + 1]);
      assert Follows(r.states[k], r.steps[k], r.states[k + 1]);
      assert id in r.states[i + 1].admitted && id in r.states[k + 1].swept;
      RunGrows(r, i + 1, n);
      RunGrows(r, k + 1, n);
      RunKeeps(r, n);
      AtRow(r.states[n], id);
      hide Inv;
      assert false;
    }
  }

  // ----- custody -----

  /** Some row still holds a token of family f. */
  ghost predicate InCustody(s: State, f: nat) {
    exists id :: id in s.rows && s.rows[id].kind == Refresh && s.rows[id].seal.token.family == f
  }

  predicate TakesCustody(step: Step, f: nat) {
    (step.Stage? && step.family == f) || (step.Create? && step.kind == Refresh && step.family == f)
  }

  /** Once a family is taken into custody, a row holds it until UOA has confirmed its revocation. */
  lemma CustodyIsConserved(r: Run, i: nat, k: nat, f: nat)
    requires IsRun(r) && i < k < |r.states| && TakesCustody(r.steps[i], f)
    ensures InCustody(r.states[k], f) || f in r.states[k].revoked
  {
    assert Follows(r.states[i], r.steps[i], r.states[i + 1]);
    assert f in r.states[i + 1].home;
    RunGrows(r, i + 1, k);
    RunKeeps(r, k);
    AtFamily(r.states[k], f);
    hide Inv;
    if f !in r.states[k].revoked {
      assert r.states[k].home[f] in r.states[k].rows;
    }
  }

  lemma OnlyTheseDelete(s: State, step: Step, id: nat)
    requires Enabled(s, step) && id in s.rows && id !in Exec(s, step).rows
    ensures step.Drop? || step.CleanDelete?
  {
    if Quiet(step) {
      hide Inv, Exec, Enabled;
      QuietStepsKeepRows(s, step);
    } else {
      hide IsHit, AfterGet, AfterPut, VictimFits, Storable, CacheOf, FlightsOf;
    }
  }

  /** A refresh row disappears only after UOA has confirmed the revocation of its family. */
  lemma DeletedOnlyAfterRevocation(s: State, step: Step, id: nat)
    requires Inv(s) && Enabled(s, step)
    requires id in s.rows && s.rows[id].kind == Refresh && id !in Exec(s, step).rows
    ensures s.rows[id].seal.token.family in s.revoked
  {
    OnlyTheseDelete(s, step, id);
    AtOp(s, step.o);
    hide Inv, RowOk, IsHit, AfterGet, AfterPut, VictimFits, Storable, CacheOf, FlightsOf;
  }

  // ----- rotation -----

  /** The token a step presents to UOA. */
  function Presented(s: State, step: Step): Token
    requires Enabled(s, step) && (step.Exchange? || step.Revoke? || step.CleanRevoke?)
  {
    if step.Revoke? then s.ops[step.o].token else s.ops[step.o].row.seal.token
  }

  predicate PresentsRefresh(s: State, step: Step) {
    && Enabled(s, step)
    && (|| step.Exchange?
        || (step.Revoke? && s.ops[step.o].kind == Refresh)
        || (step.CleanRevoke? && s.ops[step.o].row.kind == Refresh))
  }

  /** Unless a successor was lost, exchange, logout and cleanup present the newest token UOA issued. */
  lemma NewestIsPresented(s: State, step: Step)
    requires Inv(s) && PresentsRefresh(s, step)
    ensures IsNewest(s, Presented(s, step))
  {
    AtStep(s, step);
    hide Inv;
  }

  /** In a run that loses no successor of the family, no token is exchanged twice. */
  lemma NoTokenExchangedTwice(r: Run, i: nat, k: nat)
    requires IsRun(r) && i < k < |r.steps| && r.steps[i].Exchange? && r.steps[k].Exchange?
    requires Enabled(r.states[i], r.steps[i]) && Enabled(r.states[k], r.steps[k])
    requires Presented(r.states[k], r.steps[k]).family !in r.states[k].lost
    ensures Presented(r.states[i], r.steps[i]) != Presented(r.states[k], r.steps[k])
  {
    var token, f := Presented(r.states[i], r.steps[i]), Presented(r.states[k], r.steps[k]).family;
    assert Follows(r.states[i], r.steps[i], r.states[i + 1]);
    RunKeeps(r, i);
    RunKeeps(r, k);
    NewestIsPresented(r.states[i], r.steps[i]);
    NewestIsPresented(r.states[k], r.steps[k]);
    RunGrows(r, i, k);
    RunGrows(r, i + 1, k);
    hide Inv;
  }

  // ----- caches -----

  /** Step i is the committed rotation that wrote seal into row id, with these claims. */
  predicate Rotates(s: State, step: Step, id: nat, seal: Seal, claims: Claims) {
    && (step.Save? || step.SaveUnacknowledged?) && Enabled(s, step)
    && s.ops[step.o].id == id && seal == Seal(s.nonce, s.ops[step.o].token)
    && claims == Claims(s.ops[step.o].subject, Some(seal), Some(s.ops[step.o].accessExpires))
  }

  lemma StepRotates(s: State, step: Step, seal: Seal)
    requires Enabled(s, step) && seal in Exec(s, step).rotations
    ensures var (id, claims) := Exec(s, step).rotations[seal];
      (seal in s.rotations && s.rotations[seal] == (id, claims)) || Rotates(s, step, id, seal, claims)
  {
    if Quiet(step) {
      hide Inv, Exec, Enabled;
      QuietStepsKeepRows(s, step);
    } else {
      hide IsHit, AfterGet, AfterPut, VictimFits, Storable, CacheOf, FlightsOf;
    }
  }

  lemma {:induction false} RotationHappened(r: Run, k: nat, seal: Seal)
    requires IsRun(r) && k < |r.states| && seal in r.states[k].rotations
    ensures var (id, claims) := r.states[k].rotations[seal];
      exists i :: 0 <= i < k && Rotates(r.states[i], r.steps[i], id, seal, claims)
    decreases k
  {
    var (id, claims) := r.states[k].rotations[seal];
    assert k > 0;
    assert Follows(r.states[k - 1], r.steps[k - 1], r.states[k]);
    StepRotates(r.states[k - 1], r.steps[k - 1], seal);
    if !Rotates(r.states[k - 1], r.steps[k - 1], id, seal, claims) {
      RotationHappened(r, k - 1, seal);
    }
  }

  /**
   A cache hit returns the claims of the very rotation that wrote the seal now in the row, for
   the row's subject, within 30 seconds of storing them and before the access token expires.
   */
  lemma HitRepeatsTheRowsRotation(r: Run, k: nat)
    requires IsRun(r) && k < |r.steps| && r.steps[k].Hit? && Enabled(r.states[k], r.steps[k])
    ensures var s, op := r.states[k], r.states[k].ops[r.steps[k].o];
      && op.id in CacheOf(s, op.p)
      && var claims := CacheOf(s, op.p)[op.id].claims;
      && (exists i :: 0 <= i < k && Rotates(r.states[i], r.steps[i], op.id, s.rows[op.id].seal, claims))
      && claims.subject == s.rows[op.id].subject
      && (StoredAt(s, op) <= s.now < StoredAt(s, op) + CACHE_SECONDS)
      && claims.expiresAt.Some? && s.now < claims.expiresAt.value
  {
    var s, op := r.states[k], r.states[k].ops[r.steps[k].o];
    RunKeeps(r, k);
    AtEntry(s, op.p, op.id);
    AtRotation(s, s.rows[op.id].seal);
    hide Inv;
    RotationHappened(r, k, s.rows[op.id].seal);
  }

  /** When the entry a resolve would use was stored. */
  function StoredAt(s: State, op: Op): int
    requires op.Entered?
  {
    if (op.p, op.id) in s.puts then s.puts[(op.p, op.id)] else s.now
  }

  /** At most one resolve per process and session is past `acquire`, and tables stay bounded. */
  lemma SingleFlight(r: Run, k: nat, o: nat, o': nat)
    requires IsRun(r) && k < |r.states| && o in r.states[k].ops && o' in r.states[k].ops
    requires HoldsFlight(r.states[k].ops[o]) && HoldsFlight(r.states[k].ops[o'])
    requires r.states[k].ops[o].p == r.states[k].ops[o'].p && r.states[k].ops[o].id == r.states[k].ops[o'].id
    ensures o == o'
    ensures forall p: nat :: |FlightsOf(r.states[k], p)| <= MAX_ENTRIES && |CacheOf(r.states[k], p)| <= MAX_ENTRIES
  {
    RunKeeps(r, k);
    AtOp(r.states[k], o);
    AtOp(r.states[k], o');
    forall p: nat ensures |FlightsOf(r.states[k], p)| <= MAX_ENTRIES && |CacheOf(r.states[k], p)| <= MAX_ENTRIES {
      assert ProcessOk(r.states[k], p);
    }
  }
}
