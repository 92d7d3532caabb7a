/**
 The in-memory fixed-window rate limiter, with its periodic sweep and its cap on
 the number of buckets.
 */
module MemoryLimiter {
  import opened Text

  const SWEEP_EVERY: nat := 64
  const MAX_BUCKETS: nat := 100000

  datatype Bucket = Bucket(count: int, expireAt: int)
  type Buckets = map<string, Bucket>
  datatype Limiter = Limiter(buckets: Buckets, sinceSweep: nat)

  datatype Call = Call(key: string, limit: int, window: int, now: int)

  datatype Outcome =
    | Invalid
    | Overloaded
    | Decided(allowed: bool, count: int, expireAt: int)

  predicate WellFormed(call: Call) {
    (exists i :: 0 <= i < |call.key| && !IsSpace(call.key[i])) && call.limit > 0 && call.window > 0
  }

  predicate LiveAt(buckets: Buckets, key: string, now: int) {
    key in buckets && buckets[key].expireAt > now
  }

  function Swept(buckets: Buckets, now: int): Buckets {
    map k | k in buckets && buckets[k].expireAt > now :: buckets[k]
  }

  /** The bucket a counted call leaves: one more in a live window, or a new window of its own. */
  function Counted(buckets: Buckets, call: Call): Bucket {
    if LiveAt(buckets, call.key, call.now)
    then buckets[call.key].(count := buckets[call.key].count + 1)
    else Bucket(1, call.now + call.window)
  }

  function Verdict(call: Call, b: Bucket): Outcome {
    Decided(b.count <= call.limit, b.count, b.expireAt)
  }

  function Maintained(l: Limiter, now: int): Limiter {
    if l.sinceSweep + 1 >= SWEEP_EVERY then Limiter(Swept(l.buckets, now), 0) else l.(sinceSweep := l.sinceSweep + 1)
  }

  function Step(l: Limiter, call: Call): (Limiter, Outcome) {
    if !WellFormed(call) then (l, Invalid)
    else
      var m := Maintained(l, call.now);
      if call.key !in m.buckets && |m.buckets| >= MAX_BUCKETS then (m, Overloaded)
      else
        var b := Counted(m.buckets, call);
        (m.(buckets := m.buckets[call.key := b]), Verdict(call, b))
  }

  function After(calls: seq<Call>): Limiter {
    if calls == [] then Limiter(map[], 0) else Step(After(calls[..|calls| - 1]), calls[|calls| - 1]).0
  }

  function OutcomeOf(calls: seq<Call>, i: nat): Outcome
    requires i < |calls|
  {
    Step(After(calls[..i]), calls[i]).1
  }

  predicate InOrder(calls: seq<Call>) {
    forall i, j :: 0 <= i < j < |calls| ==> calls[i].now <= calls[j].now
  }

  /** The readings of this key's calls do not decrease in lock order. */
  predicate KeyInOrder(calls: seq<Call>, key: string) {
    forall i, j :: 0 <= i < j < |calls| && calls[i].key == key && calls[j].key == key ==> calls[i].now <= calls[j].now
  }

  /** Call i makes the limiter sweep. */
  predicate Sweeps(calls: seq<Call>, i: nat)
    requires i < |calls|
  {
    WellFormed(calls[i]) && After(calls[..i]).sinceSweep + 1 >= SWEEP_EVERY
  }

  /** No call is stamped earlier than a sweep before it. */
  predicate SweepsInOrder(calls: seq<Call>) {
    forall i, j :: 0 <= i < j < |calls| && Sweeps(calls, i) ==> calls[i].now <= calls[j].now
  }

  // ----- the map stays small -----

  lemma InsertedSize(m: Buckets, k: string, b: Bucket)
    ensures |m[k := b]| == if k in m then |m| else |m| + 1
  {
    assert m[k := b].Keys == m.Keys + {k};
    assert |m[k := b].Keys| == |m[k := b]| && |m.Keys| == |m|;
  }

  lemma {:induction false} SubsetSize<T>(a: set<T>, b: set<T>)
    requires a <= b
    ensures |a| <= |b|
  {
    if a != {} {
      var x :| x in a;
      SubsetSize(a - {x}, b - {x});
    }
  }

  lemma SweptSize(m: Buckets, now: int)
    ensures |Swept(m, now)| <= |m|
  {
    SubsetSize(Swept(m, now).Keys, m.Keys);
    assert |Swept(m, now).Keys| == |Swept(m, now)| && |m.Keys| == |m|;
  }

  lemma StepBounded(l: Limiter, call: Call)
    requires |l.buckets| <= MAX_BUCKETS && l.sinceSweep < SWEEP_EVERY
    ensures |Step(l, call).0.buckets| <= MAX_BUCKETS && Step(l, call).0.sinceSweep < SWEEP_EVERY
  {
    SweptSize(l.buckets, call.now);
    var m := Maintained(l, call.now).buckets;
    InsertedSize(m, call.key, Counted(m, call));
    hide Swept, Counted;
  }

  /** The map never holds more than 100000 buckets. */
  lemma {:induction false} NeverOverCap(calls: seq<Call>)
    ensures |After(calls).buckets| <= MAX_BUCKETS && After(calls).sinceSweep < SWEEP_EVERY
  {
    if calls != [] {
      var n := |calls| - 1;
      NeverOverCap(calls[..n]);
      StepBounded(After(calls[..n]), calls[n]);
    }
  }

  // ----- when a refusal is real -----

  lemma {:induction false} SameSize<T>(a: set<T>, b: set<T>)
    requires a <= b && |a| >= |b|
    ensures a == b
  {
    if x :| x in b && x !in a {
      SubsetSize(a, b - {x});
    }
  }

  lemma NothingSwept(m: Buckets, now: int)
    ensures |Swept(m, now)| >= |m| <==> forall k :: k in m ==> LiveAt(m, k, now)
  {
    assert |Swept(m, now).Keys| == |Swept(m, now)| && |m.Keys| == |m|;
    if |Swept(m, now)| >= |m| {
      SameSize(Swept(m, now).Keys, m.Keys);
      assert forall k :: k in m.Keys ==> k in Swept(m, now).Keys;
    }
    assert (forall k :: k in m ==> LiveAt(m, k, now)) ==> Swept(m, now) == m;
  }

  /** A refusal means that live windows fill the map exactly when the call swept or no bucket had expired. */
  lemma OverloadIsRealIff(l: Limiter, call: Call)
    requires |l.buckets| <= MAX_BUCKETS && Step(l, call).1 == Overloaded
    ensures |Swept(l.buckets, call.now)| >= MAX_BUCKETS <==>
      (l.sinceSweep + 1 >= SWEEP_EVERY || forall k :: k in l.buckets ==> LiveAt(l.buckets, k, call.now))
  {
    NothingSwept(l.buckets, call.now);
    SweptSize(l.buckets, call.now);
    hide Swept, LiveAt;
  }

  /** The i-th of a flood of different keys. */
  function FloodKey(i: nat): string {
    seq(i + 1, _ => 'x')
  }

  function Flood(n: nat, window: int): seq<Call> {
    seq(n, i requires 0 <= i < n => Call(FloodKey(i), 1, window, 0))
  }

  lemma FloodKeyIs(n: nat, window: int, now: int)
    requires window > 0
    ensures WellFormed(Call(FloodKey(n), 1, window, now)) && |FloodKey(n)| == n + 1
  {
    assert !IsSpace(FloodKey(n)[0]);
  }

  /** n buckets of keys no longer than n, all with one expiry. */
  ghost predicate Flooded(l: Limiter, n: nat, window: int) {
    && |l.buckets| == n && l.sinceSweep == n % SWEEP_EVERY
    && (forall k :: k in l.buckets ==> l.buckets[k].expireAt == window && |k| <= n)
  }

  lemma FloodStep(l: Limiter, n: nat, window: int)
    requires Flooded(l, n, window) && n < MAX_BUCKETS && window > 0
    ensures Flooded(Step(l, Call(FloodKey(n), 1, window, 0)).0, n + 1, window)
  {
    var call := Call(FloodKey(n), 1, window, 0);
    FloodKeyIs(n, window, 0);
    hide FloodKey, WellFormed;
    assert Swept(l.buckets, 0) == l.buckets;
    InsertedSize(l.buckets, call.key, Bucket(1, window));
    assert Step(l, call).0.buckets == l.buckets[call.key := Bucket(1, window)];
  }

  lemma {:induction false} FloodFills(n: nat, window: int)
    requires n <= MAX_BUCKETS && window > 0
    ensures Flooded(After(Flood(n, window)), n, window)
  {
    hide Flooded, Step, FloodKey;
    if n == 0 {
      FloodStart(window);
    } else {
      FloodFills(n - 1, window);
      FloodStep(After(Flood(n - 1, window)), n - 1, window);
      assert Flood(n, window)[..n - 1] == Flood(n - 1, window);
    }
  }

  lemma FloodStart(window: int)
    ensures Flooded(After([]), 0, window) && Flood(0, window) == []
  {
  }

  /**
   A run in which the refusal is not real: 100000 calls for different keys at time 0, none of them refused,
   then one more key when every window is over.
   */
  lemma OverloadByExpiredBuckets(n: nat, window: int)
    requires n == MAX_BUCKETS && window > 0
    ensures var calls := Flood(n, window) + [Call(FloodKey(n), 1, window, window)];
      && InOrder(calls) && OutcomeOf(calls, n) == Overloaded
      && |Swept(After(calls[..n]).buckets, window)| == 0
  {
    var last := Call(FloodKey(n), 1, window, window);
    var calls := Flood(n, window) + [last];
    assert calls[..n] == Flood(n, window);
    FloodFills(n, window);
    FloodKeyIs(n, window, window);
    var l := After(Flood(n, window));
    hide FloodKey, After, Flood, WellFormed;
    assert Swept(l.buckets, window) == map[];
    assert last.key !in l.buckets;
  }

  // ----- the limiter that never sweeps or refuses -----

  function PlainStep(buckets: Buckets, call: Call): (Buckets, Outcome) {
    var b := Counted(buckets, call);
    (buckets[call.key := b], Verdict(call, b))
  }

  /** The plain limiter after the calls the real one did not refuse. */
  function PlainAfter(calls: seq<Call>): Buckets {
    if calls == [] then map[]
    else
      var n := |calls| - 1;
      if OutcomeOf(calls, n).Decided? then PlainStep(PlainAfter(calls[..n]), calls[n]).0 else PlainAfter(calls[..n])
  }

  /** From time `now` on the two maps cannot be told apart. */
  ghost predicate Alike(a: Buckets, b: Buckets, now: int) {
    forall k: string, t: int :: t >= now ==> AlikeAt(a, b, k, t)
  }

  predicate AlikeAt(a: Buckets, b: Buckets, k: string, t: int) {
    (LiveAt(a, k, t) <==> LiveAt(b, k, t)) && (LiveAt(a, k, t) ==> a[k] == b[k])
  }

  lemma StepAlike(l: Limiter, plain: Buckets, call: Call, k: string, t: int)
    requires AlikeAt(l.buckets, plain, call.key, call.now) && AlikeAt(l.buckets, plain, k, t)
    requires WellFormed(call) && l.sinceSweep + 1 >= SWEEP_EVERY ==> t >= call.now
    ensures var (m, o) := Step(l, call);
      && (o.Decided? ==> o == PlainStep(plain, call).1 && AlikeAt(m.buckets, PlainStep(plain, call).0, k, t))
      && (!o.Decided? ==> AlikeAt(m.buckets, plain, k, t))
  {
  }

  lemma SweepsOfPrefix(calls: seq<Call>, n: nat)
    requires n <= |calls|
    ensures forall i :: 0 <= i < n ==> Sweeps(calls[..n], i) == Sweeps(calls, i)
    ensures SweepsInOrder(calls) ==> SweepsInOrder(calls[..n])
  {
    forall i | 0 <= i < n ensures Sweeps(calls[..n], i) == Sweeps(calls, i) {
      assert calls[..n][..i] == calls[..i];
    }
    hide Sweeps;
  }

  lemma {:induction false} AfterAlike(calls: seq<Call>, now: int)
    requires SweepsInOrder(calls) && forall i :: 0 <= i < |calls| && Sweeps(calls, i) ==> calls[i].now <= now
    ensures Alike(After(calls).buckets, PlainAfter(calls), now)
  {
    if calls != [] {
      var n := |calls| - 1;
      var rest, call := calls[..n], calls[n];
      SweepsOfPrefix(calls, n);
      assert Sweeps(calls, n) <==> WellFormed(call) && After(rest).sinceSweep + 1 >= SWEEP_EVERY;
      hide Step, PlainStep, AlikeAt, Sweeps;
      AfterAlike(rest, call.now);
      AfterAlike(rest, now);
      forall k: string, t: int | t >= now ensures AlikeAt(After(calls).buckets, PlainAfter(calls), k, t) {
        assert AlikeAt(After(rest).buckets, PlainAfter(rest), k, t);
        assert AlikeAt(After(rest).buckets, PlainAfter(rest), call.key, call.now);
        StepAlike(After(rest), PlainAfter(rest), call, k, t);
      }
    }
  }

  /**
   Every decision the limiter gives is the one a limiter that never sweeps or caps would give, also when
   clock readings reach the lock out of order, as long as none is older than a sweep before it.
   */
  lemma SweepAndCapAreInvisible(calls: seq<Call>, i: nat)
    requires SweepsInOrder(calls) && i < |calls| && OutcomeOf(calls, i).Decided?
    ensures OutcomeOf(calls, i) == PlainStep(PlainAfter(calls[..i]), calls[i]).1
  {
    var rest, call := calls[..i], calls[i];
    SweepsOfPrefix(calls, i);
    hide Sweeps, Step, PlainStep;
    AfterAlike(rest, call.now);
    assert AlikeAt(After(rest).buckets, PlainAfter(rest), call.key, call.now);
    StepAlikeHere(After(rest), PlainAfter(rest), call);
  }

  lemma StepAlikeHere(l: Limiter, plain: Buckets, call: Call)
    requires AlikeAt(l.buckets, plain, call.key, call.now) && Step(l, call).1.Decided?
    ensures Step(l, call).1 == PlainStep(plain, call).1
  {
    StepAlike(l, plain, call, call.key, call.now);
  }

  function Repeat(call: Call, n: nat): seq<Call> {
    seq(n, _ => call)
  }

  ghost predicate Waiting(l: Limiter, plain: Buckets, a: string, b: string, n: nat) {
    && l.sinceSweep == n + 1 && l.buckets.Keys <= {a, b}
    && a in l.buckets && l.buckets[a] == Bucket(1, 10) && a in plain && plain[a] == Bucket(1, 10)
  }

  lemma WaitingStep(l: Limiter, plain: Buckets, a: string, b: string, n: nat)
    requires a != b && n < 62 && WellFormed(Call(b, 1, 10, 0)) && Waiting(l, plain, a, b, n)
    ensures var (m, o) := Step(l, Call(b, 1, 10, 0));
      o.Decided? && Waiting(m, PlainStep(plain, Call(b, 1, 10, 0)).0, a, b, n + 1)
  {
    hide WellFormed;
    FewBuckets(l.buckets, a, b);
  }

  lemma WaitingStart(a: string, b: string)
    requires WellFormed(Call(a, 1, 10, 0))
    ensures Waiting(After([Call(a, 1, 10, 0)]), PlainAfter([Call(a, 1, 10, 0)]), a, b, 0)
  {
    hide WellFormed;
    var calls := [Call(a, 1, 10, 0)];
    assert calls[..0] == [];
  }

  /** A call for key a, then n calls for key b, all at time 0. */
  lemma {:induction false} BeforeTheSweep(a: string, b: string, n: nat)
    requires a != b && n <= 62 && WellFormed(Call(a, 1, 10, 0)) && WellFormed(Call(b, 1, 10, 0))
    ensures var calls := [Call(a, 1, 10, 0)] + Repeat(Call(b, 1, 10, 0), n);
      Waiting(After(calls), PlainAfter(calls), a, b, n)
  {
    hide WellFormed, Step, PlainStep, Waiting;
    var first, more := Call(a, 1, 10, 0), Call(b, 1, 10, 0);
    var calls := [first] + Repeat(more, n);
    if n == 0 {
      assert calls == [first];
      WaitingStart(a, b);
    } else {
      BeforeTheSweep(a, b, n - 1);
      var rest := [first] + Repeat(more, n - 1);
      assert calls[..n] == rest && calls[n] == more;
      WaitingStep(After(rest), PlainAfter(rest), a, b, n - 1);
      assert OutcomeOf(calls, n) == Step(After(rest), more).1;
    }
  }

  lemma FewBuckets(m: Buckets, a: string, b: string)
    requires m.Keys <= {a, b}
    ensures |m| < MAX_BUCKETS
  {
    SubsetSize(m.Keys, {a, b});
    assert |m.Keys| == |m|;
  }

  lemma SweepForgets(l: Limiter, a: string, b: string)
    requires a != b && WellFormed(Call(b, 1, 10, 10)) && l.sinceSweep == 63
    requires l.buckets.Keys <= {a, b} && a in l.buckets && l.buckets[a] == Bucket(1, 10)
    ensures var (m, o) := Step(l, Call(b, 1, 10, 10));
      o.Decided? && m.sinceSweep == 0 && a !in m.buckets && m.buckets.Keys <= {a, b}
  {
    hide WellFormed;
    SweptSize(l.buckets, 10);
    FewBuckets(l.buckets, a, b);
  }

  lemma ForgottenStartsAnew(m: Limiter, a: string, b: string)
    requires WellFormed(Call(a, 1, 10, 5)) && m.sinceSweep == 0 && a !in m.buckets && m.buckets.Keys <= {a, b}
    ensures Step(m, Call(a, 1, 10, 5)).1 == Decided(true, 1, 15)
  {
    hide WellFormed;
    FewBuckets(m.buckets, a, b);
  }

  /**
   A run in which a sweep shows: key b sweeps at time 10, then key a's second call arrives with the older
   reading 5, and is counted as the first of a new window.
   */
  lemma LateStampSeesTheSweep(a: string, b: string, n: nat)
    requires a != b && WellFormed(Call(a, 1, 10, 0)) && WellFormed(Call(b, 1, 10, 0)) && n == 62
    ensures var calls := [Call(a, 1, 10, 0)] + Repeat(Call(b, 1, 10, 0), n) + [Call(b, 1, 10, 10), Call(a, 1, 10, 5)];
      && OutcomeOf(calls, n + 2) == Decided(true, 1, 15)
      && PlainStep(PlainAfter(calls[..n + 2]), calls[n + 2]).1 == Decided(false, 2, 10)
  {
    assert WellFormed(Call(b, 1, 10, 10)) && WellFormed(Call(a, 1, 10, 5));
    BeforeTheSweep(a, b, n);
    var before := [Call(a, 1, 10, 0)] + Repeat(Call(b, 1, 10, 0), n);
    assert |before| == n + 1;
    hide WellFormed, Step, Repeat;
    var sweep, late := Call(b, 1, 10, 10), Call(a, 1, 10, 5);
    var calls, through := before + [sweep, late], before + [sweep];
    assert calls[..n + 2] == through && through[..n + 1] == before && calls[n + 2] == late && through[n + 1] == sweep;
    SweepForgets(After(before), a, b);
    assert OutcomeOf(through, n + 1) == Step(After(before), sweep).1;
    ForgottenStartsAnew(After(through), a, b);
  }

  // ----- at most twice the limit in any window -----

  predicate Fixed(calls: seq<Call>, key: string, limit: int, window: int) {
    forall i :: 0 <= i < |calls| && calls[i].key == key ==> calls[i].limit == limit && calls[i].window == window
  }

  predicate Passes(calls: seq<Call>, i: nat, key: string, t: int, window: int)
    requires i < |calls|
  {
    && calls[i].key == key && t <= calls[i].now <= t + window
    && OutcomeOf(calls, i).Decided? && OutcomeOf(calls, i).allowed
  }

  /** How many of the calls for key in [t, t + window] were allowed. */
  function Passed(calls: seq<Call>, key: string, t: int, window: int): nat {
    if calls == [] then 0
    else
      var n := |calls| - 1;
      Passed(calls[..n], key, t, window) + (if Passes(calls, n, key, t, window) then 1 else 0)
  }

  function Min(a: int, b: int): int {
    if a < b then a else b
  }

  /**
   How many calls may have been allowed in [t, t + window] so far, by where the key's current window lies:
   over before t, covering t, begun inside the interval, or begun after it.
   */
  function Allowance(buckets: Buckets, key: string, t: int, limit: int, window: int): int {
    if key !in buckets || buckets[key].expireAt <= t then 0
    else
      var start, spent := buckets[key].expireAt - window, Min(buckets[key].count, limit);
      if start <= t then spent
      else if start <= t + window then limit + spent
      else 2 * limit
  }

  predicate WindowOk(buckets: Buckets, key: string, now: int, window: int) {
    key in buckets ==> buckets[key].expireAt - window <= now && buckets[key].count >= 1
  }

  lemma StepAllowance(buckets: Buckets, call: Call, t: int, last: int)
    requires call.limit > 0 && call.window > 0 && last <= call.now
    requires WindowOk(buckets, call.key, last, call.window)
    ensures var (after, o) := PlainStep(buckets, call);
      && WindowOk(after, call.key, call.now, call.window)
      && Allowance(after, call.key, t, call.limit, call.window)
         >= Allowance(buckets, call.key, t, call.limit, call.window)
            + if t <= call.now <= t + call.window && o.allowed then 1 else 0
  {
  }

  lemma {:induction false} PassedWithinAllowance(calls: seq<Call>, key: string, limit: int, window: int, t: int,
                                                 last: int)
    requires KeyInOrder(calls, key) && SweepsInOrder(calls)
    requires Fixed(calls, key, limit, window) && limit > 0 && window > 0
    requires forall i :: 0 <= i < |calls| && calls[i].key == key ==> calls[i].now <= last
    ensures Passed(calls, key, t, window) <= Allowance(PlainAfter(calls), key, t, limit, window)
    ensures WindowOk(PlainAfter(calls), key, last, window)
  {
    if calls != [] {
      var n := |calls| - 1;
      var rest, call := calls[..n], calls[n];
      SweepsOfPrefix(calls, n);
      PassedWithinAllowance(rest, key, limit, window, t, if call.key == key then call.now else last);
      hide Allowance, PlainStep, OutcomeOf;
      if OutcomeOf(calls, n).Decided? {
        SweepAndCapAreInvisible(calls, n);
        if call.key == key {
          StepAllowance(PlainAfter(rest), call, t, call.now);
        } else {
          OtherKeyUntouched(PlainAfter(rest), call, key, t, limit, window);
        }
      }
    }
  }

  lemma OtherKeyUntouched(buckets: Buckets, call: Call, key: string, t: int, limit: int, window: int)
    requires call.key != key
    ensures var after := PlainStep(buckets, call).0;
      && Allowance(after, key, t, limit, window) == Allowance(buckets, key, t, limit, window)
      && (key in after <==> key in buckets) && (key in buckets ==> after[key] == buckets[key])
  {
  }

  /** Any interval one window long, ends included, holds at most twice the limit of allowed calls. */
  lemma AtMostTwiceTheLimit(calls: seq<Call>, key: string, limit: int, window: int, t: int)
    requires KeyInOrder(calls, key) && SweepsInOrder(calls)
    requires Fixed(calls, key, limit, window) && limit > 0 && window > 0
    ensures Passed(calls, key, t, window) <= 2 * limit
  {
    hide Passed, PlainAfter, Sweeps, SweepsInOrder;
    var last := LatestOf(calls);
    PassedWithinAllowance(calls, key, limit, window, t, last);
  }

  lemma {:induction false} LatestOf(calls: seq<Call>) returns (last: int)
    ensures forall i :: 0 <= i < |calls| ==> calls[i].now <= last
  {
    last := 0;
    if calls != [] {
      var n := |calls| - 1;
      var before := LatestOf(calls[..n]);
      last := if before < calls[n].now then calls[n].now else before;
      assert forall i :: 0 <= i < n ==> calls[i] == calls[..n][i];
    }
  }

  /** With all readings in order, both premises hold. */
  lemma InOrderIsEnough(calls: seq<Call>, key: string)
    requires InOrder(calls)
    ensures KeyInOrder(calls, key) && SweepsInOrder(calls)
  {
  }

  /** The bound is reached: one call as a window opens and one as it closes. */
  lemma TwiceTheLimitHappens(key: string, window: int)
    requires WellFormed(Call(key, 1, window, 0))
    ensures var calls := [Call(key, 1, window, 0), Call(key, 1, window, window)];
      InOrder(calls) && Fixed(calls, key, 1, window) && Passed(calls, key, 0, window) == 2
  {
    var first, second := Call(key, 1, window, 0), Call(key, 1, window, window);
    var calls := [first, second];
    assert calls[..1] == [first] && [first][..0] == [] && calls[..0] == [];
    var empty := Limiter(map[], 0);
    assert Step(empty, first) == (Limiter(map[key := Bucket(1, window)], 1), Decided(true, 1, window));
    assert After([first]) == Limiter(map[key := Bucket(1, window)], 1);
    assert OutcomeOf(calls, 1) == Decided(true, 1, window + window);
    assert Passes([first], 0, key, 0, window) && Passes(calls, 1, key, 0, window);
    assert Passed([first], key, 0, window) == 1;
  }

  function Stamped(key: string, nows: seq<int>): seq<Call> {
    seq(|nows|, i requires 0 <= i < |nows| => Call(key, 2, 10, nows[i]))
  }

  predicate Knows(l: Limiter, n: nat, key: string, count: int, expireAt: int) {
    l == Limiter(map[key := Bucket(count, expireAt)], n)
  }

  /** One call on a limiter that knows this key only. */
  lemma OneKeyStep(l: Limiter, key: string, n: nat, count: int, expireAt: int, now: int)
    requires WellFormed(Call(key, 2, 10, now)) && n + 1 < SWEEP_EVERY && Knows(l, n, key, count, expireAt)
    ensures var b := if expireAt > now then Bucket(count + 1, expireAt) else Bucket(1, now + 10);
      var (m, o) := Step(l, Call(key, 2, 10, now));
      Knows(m, n + 1, key, b.count, b.expireAt) && o == Decided(b.count <= 2, b.count, b.expireAt)
  {
    var b := if expireAt > now then Bucket(count + 1, expireAt) else Bucket(1, now + 10);
    assert map[key := Bucket(count, expireAt)][key := b] == map[key := b];
  }

  lemma FirstKeyStep(key: string)
    requires WellFormed(Call(key, 2, 10, 0))
    ensures Knows(After(Stamped(key, [0])), 1, key, 1, 10) && Passed(Stamped(key, [0]), key, 0, 10) == 1
  {
    var call := Call(key, 2, 10, 0);
    var calls := Stamped(key, [0]);
    assert calls == [call] && calls[..0] == [];
    assert Step(Limiter(map[], 0), call) == (Limiter(map[key := Bucket(1, 10)], 1), Decided(true, 1, 10));
    assert Passes(calls, 0, key, 0, 10);
  }

  /** The run so far, one call longer. */
  lemma OneMoreStamp(key: string, nows: seq<int>, now: int, count: int, expireAt: int)
    requires WellFormed(Call(key, 2, 10, now)) && |nows| + 1 < SWEEP_EVERY
    requires Knows(After(Stamped(key, nows)), |nows|, key, count, expireAt)
    ensures var calls := Stamped(key, nows + [now]);
      var b := if expireAt > now then Bucket(count + 1, expireAt) else Bucket(1, now + 10);
      && Knows(After(calls), |nows| + 1, key, b.count, b.expireAt)
      && Passed(calls, key, 0, 10) ==
         Passed(Stamped(key, nows), key, 0, 10) + if 0 <= now <= 10 && b.count <= 2 then 1 else 0
  {
    hide Step, Knows, WellFormed;
    var calls := Stamped(key, nows + [now]);
    assert calls[..|nows|] == Stamped(key, nows) && calls[|nows|] == Call(key, 2, 10, now);
    OneKeyStep(After(Stamped(key, nows)), key, |nows|, count, expireAt, now);
  }

  /**
   The clock is read before the lock is taken, so readings can be out of order; then the bound fails. With
   limit 2 and window 10, the readings 0, 0, 10, 10, 20, 10 let five calls stamped 0 to 10 through.
   */
  lemma OutOfOrderBreaksTheBound(key: string)
    requires WellFormed(Call(key, 2, 10, 0))
    ensures var calls := Stamped(key, [0, 0, 10, 10, 20, 10]);
      Fixed(calls, key, 2, 10) && !KeyInOrder(calls, key) && Passed(calls, key, 0, 10) == 5
  {
    assert WellFormed(Call(key, 2, 10, 10)) && WellFormed(Call(key, 2, 10, 20));
    hide Stamped, WellFormed, Passed, After, Knows, Fixed, KeyInOrder;
    OutOfOrder(key);
    FirstKeyStep(key);
    Spelled();
    OneMoreStamp(key, [0], 0, 1, 10);
    OneMoreStamp(key, [0, 0], 10, 2, 10);
    OneMoreStamp(key, [0, 0, 10], 10, 1, 20);
    OneMoreStamp(key, [0, 0, 10, 10], 20, 2, 20);
    OneMoreStamp(key, [0, 0, 10, 10, 20], 10, 1, 30);
  }

  lemma OutOfOrder(key: string)
    ensures var calls := Stamped(key, [0, 0, 10, 10, 20, 10]);
      Fixed(calls, key, 2, 10) && !KeyInOrder(calls, key)
  {
    var calls := Stamped(key, [0, 0, 10, 10, 20, 10]);
    assert calls[4].now == 20 && calls[5].now == 10;
  }

  lemma Spelled()
    ensures [0] + [0] == [0, 0] && [0, 0] + [10] == [0, 0, 10] && [0, 0, 10] + [10] == [0, 0, 10, 10]
    ensures [0, 0, 10, 10] + [20] == [0, 0, 10, 10, 20] && [0, 0, 10, 10, 20] + [10] == [0, 0, 10, 10, 20, 10]
  {
  }

  // ----- the object -----

  class Memory {
    var buckets: Buckets
    var sinceSweep: nat

    ghost function Value(): Limiter
      reads this
    {
      Limiter(buckets, sinceSweep)
    }

    constructor ()
      ensures Value() == After([])
    {
      buckets, sinceSweep := map[], 0;
    }

    method Sweep(now: int)
      modifies this`buckets
      ensures buckets == Swept(old(buckets), now)
    {
      var before := buckets;
      var todo := buckets.Keys;
      while todo != {}
        invariant todo <= before.Keys
        invariant buckets == map k | k in before && (k in todo || before[k].expireAt > now) :: before[k]
        decreases |todo|
      {
        var k :| k in todo;
        todo := todo - {k};
        if before[k].expireAt <= now {
          buckets := buckets - {k};
        }
      }
    }

    /** `later` is the clock when the remaining time is computed. */
    method Allow(call: Call, later: int) returns (o: Outcome, retryAfter: int)
      modifies this
      ensures (Value(), o) == Step(old(Value()), call)
      ensures o.Decided? ==> retryAfter == if o.expireAt > later then o.expireAt - later else 0
    {
      retryAfter := 0;
      if !WellFormed(call) {
        return Invalid, 0;
      }
      sinceSweep := sinceSweep + 1;
      if sinceSweep >= SWEEP_EVERY {
        Sweep(call.now);
        sinceSweep := 0;
      }
      ghost var kept := buckets;
      var known := call.key in buckets;
      if !known || buckets[call.key].expireAt <= call.now {
        if !known && |buckets| >= MAX_BUCKETS {
          return Overloaded, 0;
        }
        buckets := buckets[call.key := Bucket(0, call.now + call.window)];
      }
      var b := buckets[call.key];
      b := b.(count := b.count + 1);
      buckets := buckets[call.key := b];
      assert buckets == kept[call.key := b];
      retryAfter := b.expireAt - later;
      if retryAfter < 0 {
        retryAfter := 0;
      }
      o := Decided(b.count <= call.limit, b.count, b.expireAt);
    }
  }
}
