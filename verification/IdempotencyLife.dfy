/**
 The life of a record in the idempotency store, from its claim to its expiry, whatever is done
 under other keys meanwhile: what each claim of its key is told. The store is the dictionary;
 the Redis store answers alike off the last ticks of records.
 */
module IdempotencyLife {
  import opened Base
  import opened Idempotency

  ghost predicate OnOthers(h: seq<Timed>, key: string) {
    forall i :: 0 <= i < |h| ==> h[i].op.key != key
  }

  function MemoryEnd(m: Entries, h: seq<Timed>): Entries
    decreases |h|
  {
    if h == [] then m else MemoryEnd(MemoryAfter(m, h[0].op, h[0].at), h[1..])
  }

  /** Nothing done under other keys touches the record of this one. */
  lemma {:induction false} OthersLeaveRecord(m: Entries, h: seq<Timed>, key: string)
    requires OnOthers(h, key)
    ensures Lookup(MemoryEnd(m, h), key) == Lookup(m, key)
    decreases |h|
  {
    if h != [] {
      OthersLeaveRecord(MemoryAfter(m, h[0].op, h[0].at), h[1..], key);
    }
  }

  /** A claim is told what the unexpired record of its key says, if there is one. */
  lemma ClaimIsToldIff(m: Entries, key: string, fingerprint: string, ttl: int, now: int)
    requires ttl > 0
    ensures var told := MemoryAnswer(m, key, fingerprint, ttl, now);
            && (told == Reserved <==> key !in m || now >= m[key].expiresAt)
            && (told == Conflict <==> key in m && now < m[key].expiresAt && m[key].fingerprint != fingerprint)
            && (told == InProgress <==>
                  key in m && now < m[key].expiresAt && m[key].fingerprint == fingerprint && m[key].response.None?)
            && (forall r :: told == Completed(fingerprint, r) <==>
                  key in m && now < m[key].expiresAt && m[key].fingerprint == fingerprint && m[key].response == Some(r))
            && told != Unreadable
  {
  }

  /** From its reservation on, for its lifetime, a key is in progress for its own payload and refused for any other. */
  lemma ReservedKeysAreHeld(m: Entries, key: string, fingerprint: string, ttl: int, now: int, h: seq<Timed>,
                            again: string, later: int)
    requires ttl > 0 && MemoryAnswer(m, key, fingerprint, ttl, now) == Reserved && OnOthers(h, key)
    ensures MemoryAnswer(MemoryEnd(MemoryAfter(m, Reserve(key, fingerprint, ttl), now), h), key, again, ttl, later) ==
            if later >= now + ttl then Reserved else if again == fingerprint then InProgress else Conflict
  {
    OthersLeaveRecord(MemoryAfter(m, Reserve(key, fingerprint, ttl), now), h, key);
  }

  /** From its confirmation on, for another lifetime, it is answered with the response. */
  lemma ConfirmedKeysAreAnswered(m: Entries, key: string, response: Reply, ttl: int, now: int, h: seq<Timed>,
                                 again: string, later: int)
    requires ttl > 0 && key in m && now < m[key].expiresAt && OnOthers(h, key)
    ensures MemoryAnswer(MemoryEnd(MemoryAfter(m, Confirm(key, response, ttl), now), h), key, again, ttl, later) ==
            if later >= now + ttl then Reserved
            else if again == m[key].fingerprint then Completed(again, response) else Conflict
  {
    OthersLeaveRecord(MemoryAfter(m, Confirm(key, response, ttl), now), h, key);
  }

  /** A confirmation that comes after the record has run out does not bring it back. */
  lemma LateConfirmationsAreLost(m: Entries, key: string, response: Reply, ttl: int, now: int, h: seq<Timed>,
                                 again: string, later: int)
    requires ttl > 0 && (key in m ==> m[key].expiresAt <= now) && now <= later && OnOthers(h, key)
    ensures MemoryAnswer(MemoryEnd(MemoryAfter(m, Confirm(key, response, ttl), now), h), key, again, ttl, later)
         == Reserved
  {
    OthersLeaveRecord(MemoryAfter(m, Confirm(key, response, ttl), now), h, key);
  }

  /** A release frees a reservation and spares a completed record. */
  lemma ReleasesFreeReservationsOnly(m: Entries, key: string, now: int, h: seq<Timed>, again: string, ttl: int,
                                     later: int)
    requires ttl > 0 && key in m && now < m[key].expiresAt && OnOthers(h, key)
    ensures var told := MemoryAnswer(MemoryEnd(MemoryAfter(m, Release(key), now), h), key, again, ttl, later);
            told == if m[key].response.None? then Reserved else MemoryAnswer(m, key, again, ttl, later)
  {
    OthersLeaveRecord(MemoryAfter(m, Release(key), now), h, key);
  }

  /** Without a lifetime every claim is granted and nothing is stored, in either store. */
  lemma WithoutLifetimeNothingIsStored(m: Entries, v: Values, key: string, fingerprint: string, response: Reply,
                                       ttl: int, now: int)
    requires ttl <= 0
    ensures MemoryAnswer(m, key, fingerprint, ttl, now) == Reserved == RedisAnswer(v, key, fingerprint, ttl, now)
    ensures MemoryAfter(m, Reserve(key, fingerprint, ttl), now) == m == MemoryAfter(m, Confirm(key, response, ttl), now)
    ensures RedisAfter(v, Reserve(key, fingerprint, ttl), now) == v == RedisAfter(v, Confirm(key, response, ttl), now)
  {
  }

  /** A claim that is not granted leaves the record as it is. */
  lemma RefusedClaimsChangeNothing(m: Entries, key: string, fingerprint: string, ttl: int, now: int)
    requires ttl > 0 && MemoryAnswer(m, key, fingerprint, ttl, now) != Reserved
    ensures MemoryAfter(m, Reserve(key, fingerprint, ttl), now) == m
  {
  }
}
