/**
 The per-process cache of resolved sessions and its single-flight table
 (internal/auth/session_cache.go), together with the values they hold.
 */
module SessionCache {
  import opened Options

  const MAX_ENTRIES: nat := 1024
  const CACHE_SECONDS: int := 30

  /** A refresh token: its family and its position in that family's rotation. */
  datatype Token = Token(family: nat, serial: nat)

  /**
   A sealed capability. Sealing draws a fresh nonce, so no two seals are equal; opening
   returns the token. The fingerprint is an injective digest, so the seal itself serves as one.
   */
  datatype Seal = Seal(nonce: nat, token: Token)

  datatype Claims = Claims(subject: nat, fingerprint: Option<Seal>, expiresAt: Option<int>)

  datatype Entry = Entry(fingerprint: Option<Seal>, expires: int, claims: Claims)

  type Entries = map<nat, Entry>

  function Min(x: int, y: int): int {
    if x < y then x else y
  }

  predicate IsHit(entries: Entries, id: nat, fingerprint: Seal, now: int) {
    id in entries && entries[id].fingerprint == Some(fingerprint) && now < entries[id].expires
  }

  /** What `get` leaves behind: any entry that did not answer is dropped. */
  function AfterGet(entries: Entries, id: nat, fingerprint: Seal, now: int): Entries {
    if IsHit(entries, id, fingerprint, now) then entries else entries - {id}
  }

  predicate Storable(claims: Claims, now: int) {
    claims.expiresAt.Some? && claims.expiresAt.value > now
  }

  /** What `put` leaves behind; a full table first loses an arbitrary victim. */
  function AfterPut(entries: Entries, id: nat, claims: Claims, now: int, victim: Option<nat>): Entries {
    if !Storable(claims, now) then entries
    else
      var kept := if |entries| >= MAX_ENTRIES && victim.Some? then entries - {victim.value} else entries;
      kept[id := Entry(claims.fingerprint, Min(now + CACHE_SECONDS, claims.expiresAt.value), claims)]
  }

  predicate VictimFits(entries: Entries, victim: Option<nat>) {
    |entries| >= MAX_ENTRIES ==> victim.Some? && victim.value in entries
  }

  lemma RemovedSize<V>(m: map<nat, V>, k: nat)
    ensures |m - {k}| == if k in m then |m| - 1 else |m|
  {
    assert (m - {k}).Keys == m.Keys - {k};
  }

  lemma UpdatedSize<V>(m: map<nat, V>, k: nat, v: V)
    ensures |m[k := v]| == if k in m then |m| else |m| + 1
  {
    assert m[k := v].Keys == m.Keys + {k};
  }

  lemma PutStaysBounded(entries: Entries, id: nat, claims: Claims, now: int, victim: Option<nat>)
    requires |entries| <= MAX_ENTRIES && VictimFits(entries, victim)
    ensures |AfterPut(entries, id, claims, now, victim)| <= MAX_ENTRIES
  {
    if Storable(claims, now) {
      var e := Entry(claims.fingerprint, Min(now + CACHE_SECONDS, claims.expiresAt.value), claims);
      if |entries| >= MAX_ENTRIES {
        RemovedSize(entries, victim.value);
        UpdatedSize(entries - {victim.value}, id, e);
      } else {
        UpdatedSize(entries, id, e);
      }
    }
  }

  /** After a put, every entry is the one stored or one that was already there. */
  lemma PutContents(entries: Entries, id: nat, claims: Claims, now: int, victim: Option<nat>, k: nat)
    requires k in AfterPut(entries, id, claims, now, victim)
    ensures var e := AfterPut(entries, id, claims, now, victim)[k];
      if k == id && Storable(claims, now)
      then e == Entry(claims.fingerprint, Min(now + CACHE_SECONDS, claims.expiresAt.value), claims)
      else k in entries && e == entries[k]
  {
  }

  datatype Admission = Granted | Busy | Full

  class Cache {
    var entries: Entries
    var flights: set<nat>

    ghost predicate Valid()
      reads this
    {
      |entries| <= MAX_ENTRIES && |flights| <= MAX_ENTRIES
    }

    constructor ()
      ensures Valid() && entries == map[] && flights == {}
    {
      entries := map[];
      flights := {};
    }

    /** One attempt of `acquire`'s loop; a busy caller waits for the flight to land and tries again. */
    method TryAcquire(id: nat) returns (r: Admission)
      requires Valid()
      modifies this`flights
      ensures Valid()
      ensures r == if id in old(flights) then Busy else if |old(flights)| >= MAX_ENTRIES then Full else Granted
      ensures flights == if r.Granted? then old(flights) + {id} else old(flights)
    {
      if id in flights {
        return Busy;
      }
      if |flights| >= MAX_ENTRIES {
        return Full;
      }
      flights := flights + {id};
      return Granted;
    }

    method Release(id: nat)
      requires Valid()
      modifies this`flights
      ensures Valid() && flights == old(flights) - {id}
    {
      assert |flights - {id}| <= |flights|;
      flights := flights - {id};
    }

    method Get(id: nat, fingerprint: Seal, now: int) returns (r: Option<Claims>)
      requires Valid()
      modifies this`entries
      ensures Valid() && entries == AfterGet(old(entries), id, fingerprint, now)
      ensures r.Some? <==> IsHit(old(entries), id, fingerprint, now)
      ensures r.Some? ==> r.value == old(entries)[id].claims
    {
      if id !in entries || entries[id].fingerprint != Some(fingerprint) || !(now < entries[id].expires) {
        RemovedSize(entries, id);
        entries := entries - {id};
        return None;
      }
      return Some(entries[id].claims);
    }

    method Put(id: nat, claims: Claims, now: int)
      requires Valid()
      modifies this`entries
      ensures Valid()
      ensures exists victim ::
        VictimFits(old(entries), victim) && entries == AfterPut(old(entries), id, claims, now, victim)
    {
      var expiry := now + CACHE_SECONDS;
      ghost var victim: Option<nat> := None;
      ghost var before := entries;
      if claims.expiresAt.None? || !(claims.expiresAt.value > now) {
        if |entries| >= MAX_ENTRIES {
          ghost var any: nat :| any in entries;
          victim := Some(any);
        }
        assert VictimFits(before, victim) && entries == AfterPut(before, id, claims, now, victim);
        return;
      }
      if claims.expiresAt.value < expiry {
        expiry := claims.expiresAt.value;
      }
      if |entries| >= MAX_ENTRIES {
        assert entries.Keys != {};
        var any: nat :| any in entries;
        victim := Some(any);
        entries := entries - {any};
      }
      entries := entries[id := Entry(claims.fingerprint, expiry, claims)];
      PutStaysBounded(before, id, claims, now, victim);
      assert VictimFits(before, victim) && entries == AfterPut(before, id, claims, now, victim);
    }
  }
}
