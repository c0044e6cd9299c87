/**
 The idempotency store, twice: a dictionary with lazy expiry, and JSON text in
 Redis handled by two Lua scripts and a GET followed by a SET. Time is counted in
 ticks; a Redis key set with EX d at t exists up to and including t + d.
 */
module Idempotency {
  import opened Base

  datatype Reply = Reply(entryId: string, walletId: string)

  datatype Stored = Stored(fingerprint: string, response: Option<Reply>, expiresAt: int)

  datatype Reservation =
    | Reserved
    | InProgress
    | Conflict
    | Completed(fingerprint: string, response: Reply)
    | Unreadable // the stored text does not parse: the call raises

  /** What a claim with `fingerprint` is told about a live record. */
  function Answer(e: Stored, fingerprint: string): Reservation {
    if e.fingerprint != fingerprint then Conflict
    else if e.response.None? then InProgress
    else Completed(e.fingerprint, e.response.value)
  }

  datatype Op =
    | Reserve(key: string, fingerprint: string, ttl: int)
    | Confirm(key: string, response: Reply, ttl: int)
    | Release(key: string)

  // ----- in memory

  type Entries = map<string, Stored>

  /** `_live`: the entry, unless it has expired. */
  function Live(m: Entries, key: string, now: int): Option<Stored> {
    if key in m && m[key].expiresAt > now then Some(m[key]) else None
  }

  /** `_live` also deletes what it finds expired. */
  function Swept(m: Entries, key: string, now: int): Entries {
    if key in m && m[key].expiresAt <= now then m - {key} else m
  }

  function MemoryAfter(m: Entries, op: Op, now: int): Entries {
    var live := Live(m, op.key, now);
    match op
    case Reserve(key, fingerprint, ttl) =>
      if ttl <= 0 then m
      else if live.None? then Swept(m, key, now)[key := Stored(fingerprint, None, now + ttl)]
      else m
    case Confirm(key, response, ttl) =>
      if ttl <= 0 then m
      else if live.None? then Swept(m, key, now)
      else m[key := live.value.(response := Some(response), expiresAt := now + ttl)]
    case Release(key) =>
      if live.Some? && live.value.response.None? then m - {key} else Swept(m, key, now)
  }

  function MemoryAnswer(m: Entries, key: string, fingerprint: string, ttl: int, now: int): Reservation {
    var live := Live(m, key, now);
    if ttl <= 0 || live.None? then Reserved else Answer(live.value, fingerprint)
  }

  class InMemoryIdempotencyStore {
    var entries: Entries

    constructor ()
      ensures entries == map[]
    {
      entries := map[];
    }

    method Look(key: string, now: int) returns (live: Option<Stored>)
      modifies this
      ensures live == Live(old(entries), key, now)
      ensures entries == Swept(old(entries), key, now)
    {
      if key !in entries {
        return None;
      }
      var entry := entries[key];
      if entry.expiresAt <= now {
        entries := entries - {key};
        return None;
      }
      return Some(entry);
    }

    method Claim(key: string, fingerprint: string, ttl: int, now: int) returns (r: Reservation)
      modifies this
      ensures entries == MemoryAfter(old(entries), Reserve(key, fingerprint, ttl), now)
      ensures r == MemoryAnswer(old(entries), key, fingerprint, ttl, now)
    {
      if ttl <= 0 {
        return Reserved;
      }
      var existing := Look(key, now);
      if existing.None? {
        entries := entries[key := Stored(fingerprint, None, now + ttl)];
        return Reserved;
      }
      if existing.value.fingerprint != fingerprint {
        return Conflict;
      }
      if existing.value.response.None? {
        return InProgress;
      }
      return Completed(existing.value.fingerprint, existing.value.response.value);
    }

    method Attach(key: string, response: Reply, ttl: int, now: int)
      modifies this
      ensures entries == MemoryAfter(old(entries), Confirm(key, response, ttl), now)
    {
      if ttl <= 0 {
        return;
      }
      var existing := Look(key, now);
      if existing.None? {
        return;
      }
      entries := entries[key := existing.value.(response := Some(response), expiresAt := now + ttl)];
    }

    method GiveBack(key: string, now: int)
      modifies this
      ensures entries == MemoryAfter(old(entries), Release(key), now)
    {
      var entry := Look(key, now);
      if entry.Some? && entry.value.response.None? {
        entries := entries - {key};
      }
    }
  }

  // ----- the stored text

  const NEEDLE: string := "\"response\""
  const OPENING: string := "{\"fingerprint\": \""
  const CLAIM_END: string := "\"}"
  const TO_ENTRY: string := "\", " + NEEDLE + ": {\"entry_id\": \""
  const TO_WALLET: string := "\", \"wallet_id\": \""
  const REPLY_END: string := "\"}}"

  /** Text JSON writes as it is. */
  predicate Plain(s: string) {
    forall i :: 0 <= i < |s| ==> s[i] != '"' && s[i] != '\\' && ' ' <= s[i] <= '~'
  }

  /** What `hexdigest` produces. */
  predicate IsHex(s: string) {
    forall i :: 0 <= i < |s| ==> '0' <= s[i] <= '9' || 'a' <= s[i] <= 'f'
  }

  datatype Payload = Payload(fingerprint: string, response: Option<Reply>)

  predicate PlainPayload(p: Payload) {
    && Plain(p.fingerprint)
    && (p.response.Some? ==> Plain(p.response.value.entryId) && Plain(p.response.value.walletId))
  }

  /** `json.dumps(..., sort_keys=True)` of a claim or of a completed record. */
  function Dump(p: Payload): string {
    match p.response
    case None => OPENING + p.fingerprint + CLAIM_END
    case Some(r) => OPENING + p.fingerprint + TO_ENTRY + r.entryId + TO_WALLET + r.walletId + REPLY_END
  }

  /** Position of the first quote at or after `i`, or the length. */
  function QuoteFrom(s: string, i: nat): (j: nat)
    requires i <= |s|
    ensures i <= j <= |s|
    decreases |s| - i
  {
    if i == |s| || s[i] == '"' then i else QuoteFrom(s, i + 1)
  }

  predicate StartsWith(s: string, prefix: string) {
    |s| >= |prefix| && s[..|prefix|] == prefix
  }

  /** `json.loads`, on the two shapes the store writes. */
  function Load(s: string): Option<Payload> {
    if !StartsWith(s, OPENING) then None
    else
      var a := QuoteFrom(s, |OPENING|);
      var (fingerprint, rest) := (s[|OPENING|..a], s[a..]);
      if rest == CLAIM_END then Some(Payload(fingerprint, None))
      else if !StartsWith(rest, TO_ENTRY) then None
      else
        var b := QuoteFrom(rest, |TO_ENTRY|);
        var (entryId, more) := (rest[|TO_ENTRY|..b], rest[b..]);
        if !StartsWith(more, TO_WALLET) then None
        else
          var c := QuoteFrom(more, |TO_WALLET|);
          if more[c..] != REPLY_END then None
          else Some(Payload(fingerprint, Some(Reply(entryId, more[|TO_WALLET|..c]))))
  }

  lemma {:induction false} QuoteAfterPlain(s: string, i: nat, n: nat)
    requires i + n < |s| && s[i + n] == '"' && forall k :: i <= k < i + n ==> s[k] != '"'
    ensures QuoteFrom(s, i) == i + n
    decreases n
  {
    if n > 0 {
      QuoteAfterPlain(s, i + 1, n - 1);
    }
  }

  /** `s` is `prefix`, a plain field, and a rest that starts with a quote. */
  lemma FieldIsRead(s: string, prefix: string, field: string, rest: string)
    requires s == prefix + field + rest && Plain(field) && rest != "" && rest[0] == '"'
    ensures StartsWith(s, prefix) && QuoteFrom(s, |prefix|) == |prefix| + |field|
    ensures s[|prefix|..|prefix| + |field|] == field && s[|prefix| + |field|..] == rest
  {
    assert forall k :: |prefix| <= k < |prefix| + |field| ==> s[k] == field[k - |prefix|];
    QuoteAfterPlain(s, |prefix|, |field|);
  }

  /** The text of a completed record, cut where the reader cuts it. */
  lemma LoadUndoesCompleted(fingerprint: string, r: Reply, more: string, rest: string)
    requires Plain(fingerprint) && Plain(r.entryId) && Plain(r.walletId)
    requires more == TO_WALLET + r.walletId + REPLY_END && rest == TO_ENTRY + r.entryId + more
    ensures Load(OPENING + fingerprint + rest) == Some(Payload(fingerprint, Some(r)))
  {
    assert rest != CLAIM_END by {
      assert rest[1] == ',' && CLAIM_END[1] == '}';
    }
    FieldIsRead(OPENING + fingerprint + rest, OPENING, fingerprint, rest);
    FieldIsRead(rest, TO_ENTRY, r.entryId, more);
    FieldIsRead(more, TO_WALLET, r.walletId, REPLY_END);
  }

  lemma LoadUndoesDump(p: Payload)
    requires PlainPayload(p)
    ensures Load(Dump(p)) == Some(p)
  {
    if p.response.None? {
      FieldIsRead(Dump(p), OPENING, p.fingerprint, CLAIM_END);
    } else {
      var r := p.response.value;
      var more := TO_WALLET + r.walletId + REPLY_END;
      var rest := TO_ENTRY + r.entryId + more;
      assert Dump(p) == OPENING + p.fingerprint + rest;
      LoadUndoesCompleted(p.fingerprint, r, more, rest);
    }
  }

  predicate OccursAt(s: string, needle: string, i: nat) {
    i + |needle| <= |s| && s[i..i + |needle|] == needle
  }

  /** `string.find(s, needle, 1, true)` */
  predicate Contains(s: string, needle: string) {
    exists i: nat | i <= |s| :: OccursAt(s, needle, i)
  }

  lemma MiddleOccurs(before: string, needle: string, after: string)
    ensures Contains(before + needle + after, needle)
  {
    assert OccursAt(before + needle + after, needle, |before|);
  }

  /**
   The release script looks for the quoted word `response` in the text. It finds it
   in every completed record, and in a claim exactly when the fingerprint is that
   very word; a hexadecimal digest never is.
   */
  lemma FindsResponseIff(p: Payload)
    requires PlainPayload(p)
    ensures Contains(Dump(p), NEEDLE) <==> p.response.Some? || p.fingerprint == "response"
  {
    if p.response.Some? {
      var r := p.response.value;
      var before := OPENING + p.fingerprint + "\", ";
      var after := ": {\"entry_id\": \"" + r.entryId + TO_WALLET + r.walletId + REPLY_END;
      assert Dump(p) == before + NEEDLE + after;
      MiddleOccurs(before, NEEDLE, after);
    } else if p.fingerprint == "response" {
      var before, after := "{\"fingerprint\": ", "}";
      assert Dump(p) == before + NEEDLE + after;
      MiddleOccurs(before, NEEDLE, after);
    } else if Contains(Dump(p), NEEDLE) {
      ClaimHoldsNeedleOnlyAsFingerprint(p.fingerprint);
    }
  }

  /** In a claim the quotes stand at 1, 13, 16 and at the end, so the word can only fill the last gap. */
  lemma QuotesOfClaim(fingerprint: string, i: nat)
    requires Plain(fingerprint) && i < |OPENING + fingerprint + CLAIM_END|
    ensures (OPENING + fingerprint + CLAIM_END)[i] == '"' <==> i == 1 || i == 13 || i == 16 || i == 17 + |fingerprint|
  {
    var s := OPENING + fingerprint + CLAIM_END;
    if i < 17 {
      assert s[i] == OPENING[i];
    } else if i < 17 + |fingerprint| {
      assert s[i] == fingerprint[i - 17];
    } else {
      assert s[i] == CLAIM_END[i - 17 - |fingerprint|];
    }
  }

  lemma ClaimHoldsNeedleOnlyAsFingerprint(fingerprint: string)
    requires Plain(fingerprint) && Contains(OPENING + fingerprint + CLAIM_END, NEEDLE)
    ensures fingerprint == "response"
  {
    var s := OPENING + fingerprint + CLAIM_END;
    var i: nat :| i <= |s| && OccursAt(s, NEEDLE, i);
    var word := s[i..i + 10];
    assert word == NEEDLE && |NEEDLE| == 10 && NEEDLE[0] == '"' && NEEDLE[1] == 'r' && NEEDLE[9] == '"';
    assert s[i] == word[0] && s[i + 1] == word[1] && s[i + 9] == word[9];
    QuotesOfClaim(fingerprint, i);
    QuotesOfClaim(fingerprint, i + 9);
    assert s[2] == OPENING[2] && s[14] == OPENING[14];
    assert i == 16 && |fingerprint| == 8;
    forall k | 0 <= k < 8
      ensures fingerprint[k] == word[1..9][k]
    {
      assert fingerprint[k] == s[17 + k] == word[k + 1];
    }
    assert fingerprint == word[1..9];
    assert NEEDLE[1..9] == "response";
  }

  // ----- in Redis

  datatype RedisValue = RedisValue(text: string, lastTick: int)
  type Values = map<string, RedisValue>

  const CLAIMED: string := "reserved"

  function RedisKey(key: string): string {
    "idem:" + key
  }

  /** GET: a key past its last tick does not exist. */
  function Get(v: Values, name: string, now: int): Option<string> {
    if name in v && v[name].lastTick >= now then Some(v[name].text) else None
  }

  function RedisAfter(v: Values, op: Op, now: int): Values {
    var name := RedisKey(op.key);
    var existing := Get(v, name, now);
    match op
    case Reserve(key, fingerprint, ttl) =>
      if ttl <= 0 || existing.Some? then v
      else v[name := RedisValue(Dump(Payload(fingerprint, None)), now + ttl)]
    case Confirm(key, response, ttl) =>
      if ttl <= 0 || existing.None? || Load(existing.value).None? then v
      else v[name := RedisValue(Dump(Load(existing.value).value.(response := Some(response))), now + ttl)]
    case Release(key) =>
      if existing.Some? && !Contains(existing.value, NEEDLE) then v - {name} else v
  }

  function RedisAnswer(v: Values, key: string, fingerprint: string, ttl: int, now: int): Reservation {
    var existing := Get(v, RedisKey(key), now);
    if ttl <= 0 || existing.None? || existing.value == CLAIMED then Reserved
    else
      match Load(existing.value)
      case None => Unreadable
      case Some(p) => Answer(Stored(p.fingerprint, p.response, 0), fingerprint)
  }

  class RedisIdempotencyStore {
    var values: Values

    constructor ()
      ensures values == map[]
    {
      values := map[];
    }

    /** `_RESERVE_SCRIPT`: claim the key and report what was there. */
    method EvalReserve(name: string, claim: string, ttl: int, now: int) returns (result: string)
      modifies this
      ensures var existing := Get(old(values), name, now);
              if existing.None? then values == old(values)[name := RedisValue(claim, now + ttl)] && result == CLAIMED
              else values == old(values) && result == existing.value
    {
      var existing := Get(values, name, now);
      if existing.None? {
        values := values[name := RedisValue(claim, now + ttl)];
        return CLAIMED;
      }
      return existing.value;
    }

    /** `_RELEASE_SCRIPT`: delete only what is still a reservation. */
    method EvalRelease(name: string, now: int)
      modifies this
      ensures var existing := Get(old(values), name, now);
              values ==
              if existing.Some? && !Contains(existing.value, NEEDLE) then old(values) - {name} else old(values)
    {
      var existing := Get(values, name, now);
      if existing.Some? && !Contains(existing.value, NEEDLE) {
        values := values - {name};
      }
    }

    method Claim(key: string, fingerprint: string, ttl: int, now: int) returns (r: Reservation)
      modifies this
      ensures values == RedisAfter(old(values), Reserve(key, fingerprint, ttl), now)
      ensures r == RedisAnswer(old(values), key, fingerprint, ttl, now)
    {
      if ttl <= 0 {
        return Reserved;
      }
      var result := EvalReserve(RedisKey(key), Dump(Payload(fingerprint, None)), ttl, now);
      if result == CLAIMED {
        return Reserved;
      }
      match Load(result)
      case None => return Unreadable;
      case Some(payload) =>
        if payload.fingerprint != fingerprint {
          return Conflict;
        }
        if payload.response.None? {
          return InProgress;
        }
        return Completed(payload.fingerprint, payload.response.value);
    }

    /** GET and then SET; `raised` if the text that was read does not parse. */
    method Attach(key: string, response: Reply, ttl: int, now: int) returns (raised: bool)
      modifies this
      ensures values == RedisAfter(old(values), Confirm(key, response, ttl), now)
      ensures var raw := Get(old(values), RedisKey(key), now);
              raised <==> ttl > 0 && raw.Some? && Load(raw.value).None?
    {
      if ttl <= 0 {
        return false;
      }
      var raw := Get(values, RedisKey(key), now);
      if raw.None? {
        return false;
      }
      if Load(raw.value).None? {
        return true;
      }
      var payload := Load(raw.value).value;
      values := values[RedisKey(key) := RedisValue(Dump(payload.(response := Some(response))), now + ttl)];
      return false;
    }

    method GiveBack(key: string, now: int)
      modifies this
      ensures values == RedisAfter(old(values), Release(key), now)
    {
      EvalRelease(RedisKey(key), now);
    }
  }

  // ----- the two agree

  /** A fingerprint that JSON writes as it is and the release script cannot mistake for a response. */
  predicate Distinct(fingerprint: string) {
    Plain(fingerprint) && fingerprint != "response"
  }

  predicate PlainOp(op: Op) {
    match op
    case Reserve(_, fingerprint, _) => Distinct(fingerprint)
    case Confirm(_, response, _) => Plain(response.entryId) && Plain(response.walletId)
    case Release(_) => true
  }

  /** The text Redis should hold for a live entry. */
  function TextOf(e: Stored): string {
    Dump(Payload(e.fingerprint, e.response))
  }

  predicate PlainStored(e: Stored) {
    && Distinct(e.fingerprint) && PlainPayload(Payload(e.fingerprint, e.response))
  }

  predicate ReadsBack(text: string) {
    text != CLAIMED && Load(text).Some?
  }

  /** At `now` both hold the same records until the same tick, through which Redis keeps them and memory does not. */
  ghost predicate SameKey(m: Entries, v: Values, key: string, now: int) {
    match Live(m, key, now)
    case None =>
      RedisKey(key) in v ==> v[RedisKey(key)].lastTick <= now && ReadsBack(v[RedisKey(key)].text)
    case Some(e) =>
      && PlainStored(e)
      && RedisKey(key) in v && v[RedisKey(key)] == RedisValue(TextOf(e), e.expiresAt)
  }

  /** The one tick at which memory has forgotten a record and Redis has not. */
  predicate OnLastTick(v: Values, key: string, now: int) {
    RedisKey(key) in v && v[RedisKey(key)].lastTick == now
  }

  ghost predicate Same(m: Entries, v: Values, now: int) {
    forall key :: SameKey(m, v, key, now)
  }

  lemma RedisKeyInjective(a: string, b: string)
    requires RedisKey(a) == RedisKey(b)
    ensures a == b
  {
    assert RedisKey(a)[5..] == a && RedisKey(b)[5..] == b;
  }

  lemma HexIsDistinct(s: string)
    requires IsHex(s)
    ensures Distinct(s)
  {
    assert "response"[0] == 'r';
  }

  /** Passing time keeps the stores in step. */
  lemma TimeKeepsSame(m: Entries, v: Values, then': int, now: int)
    requires Same(m, v, then') && then' <= now
    ensures Same(m, v, now)
  {
    forall key
      ensures SameKey(m, v, key, now)
    {
      assert SameKey(m, v, key, then');
      if Live(m, key, then').Some? {
        TextReadsBack(Live(m, key, then').value);
      }
    }
  }

  /** What the Redis store reads back from the text of a live record, and what it looks for in it. */
  lemma TextReadsBack(e: Stored)
    requires PlainStored(e)
    ensures Load(TextOf(e)) == Some(Payload(e.fingerprint, e.response))
    ensures TextOf(e) != CLAIMED && (Contains(TextOf(e), NEEDLE) <==> e.response.Some?)
  {
    LoadUndoesDump(Payload(e.fingerprint, e.response));
    FindsResponseIff(Payload(e.fingerprint, e.response));
    assert TextOf(e)[0] == '{' && CLAIMED[0] == 'r';
  }

  /** Stores in step answer a claim alike, except on the last tick of a record of its key. */
  lemma AnsweredAlikeIff(m: Entries, v: Values, key: string, fingerprint: string, ttl: int, now: int)
    requires SameKey(m, v, key, now)
    ensures MemoryAnswer(m, key, fingerprint, ttl, now) == RedisAnswer(v, key, fingerprint, ttl, now)
       <==> ttl <= 0 || !OnLastTick(v, key, now)
  {
    match Live(m, key, now)
    case None =>
    case Some(e) => TextReadsBack(e);
  }

  /** Every operation off the last tick leaves its own key in step. */
  lemma OpOnKey(m: Entries, v: Values, op: Op, now: int)
    requires SameKey(m, v, op.key, now) && PlainOp(op) && !OnLastTick(v, op.key, now)
    ensures SameKey(MemoryAfter(m, op, now), RedisAfter(v, op, now), op.key, now)
  {
    match Live(m, op.key, now)
    case None =>
    case Some(e) => TextReadsBack(e);
  }

  lemma OpOnOthers(m: Entries, v: Values, op: Op, now: int, key: string)
    requires SameKey(m, v, key, now) && key != op.key
    ensures SameKey(MemoryAfter(m, op, now), RedisAfter(v, op, now), key, now)
  {
    if RedisKey(key) == RedisKey(op.key) {
      RedisKeyInjective(key, op.key);
    }
  }

  /** A history: operations with the ticks at which they run. */
  datatype Timed = Timed(op: Op, at: int)

  ghost predicate InOrder(h: seq<Timed>, start: int) {
    h == [] || (start <= h[0].at && InOrder(h[1..], h[0].at))
  }

  function MemoryOutcomes(m: Entries, h: seq<Timed>): seq<Option<Reservation>>
    decreases |h|
  {
    if h == [] then []
    else
      var (op, now) := (h[0].op, h[0].at);
      [if op.Reserve? then Some(MemoryAnswer(m, op.key, op.fingerprint, op.ttl, now)) else None]
      + MemoryOutcomes(MemoryAfter(m, op, now), h[1..])
  }

  function RedisOutcomes(v: Values, h: seq<Timed>): seq<Option<Reservation>>
    decreases |h|
  {
    if h == [] then []
    else
      var (op, now) := (h[0].op, h[0].at);
      [if op.Reserve? then Some(RedisAnswer(v, op.key, op.fingerprint, op.ttl, now)) else None]
      + RedisOutcomes(RedisAfter(v, op, now), h[1..])
  }

  /** No operation falls on the last tick of a record of its key. */
  ghost predicate OffLastTicks(v: Values, h: seq<Timed>)
    decreases |h|
  {
    h == [] || (!OnLastTick(v, h[0].op.key, h[0].at) && OffLastTicks(RedisAfter(v, h[0].op, h[0].at), h[1..]))
  }

  lemma OpKeepsSame(m: Entries, v: Values, op: Op, now: int)
    requires Same(m, v, now) && PlainOp(op) && !OnLastTick(v, op.key, now)
    ensures Same(MemoryAfter(m, op, now), RedisAfter(v, op, now), now)
  {
    forall key
      ensures SameKey(MemoryAfter(m, op, now), RedisAfter(v, op, now), key, now)
    {
      assert SameKey(m, v, key, now);
      if key == op.key {
        OpOnKey(m, v, op, now);
      } else {
        OpOnOthers(m, v, op, now, key);
      }
    }
  }

  lemma {:induction false} SameStoresSameOutcomes(m: Entries, v: Values, h: seq<Timed>, start: int)
    requires Same(m, v, start) && InOrder(h, start) && OffLastTicks(v, h)
    requires forall i :: 0 <= i < |h| ==> PlainOp(h[i].op)
    ensures MemoryOutcomes(m, h) == RedisOutcomes(v, h)
    decreases |h|
  {
    if h != [] {
      var (op, now) := (h[0].op, h[0].at);
      TimeKeepsSame(m, v, start, now);
      assert SameKey(m, v, op.key, now);
      if op.Reserve? {
        AnsweredAlikeIff(m, v, op.key, op.fingerprint, op.ttl, now);
      }
      OpKeepsSame(m, v, op, now);
      SameStoresSameOutcomes(MemoryAfter(m, op, now), RedisAfter(v, op, now), h[1..], now);
    }
  }

  /** What Redis holds after a history. */
  function RedisEnd(v: Values, h: seq<Timed>): Values
    decreases |h|
  {
    if h == [] then v else RedisEnd(RedisAfter(v, h[0].op, h[0].at), h[1..])
  }

  /** One more claim is answered alike exactly when it is not on the last tick of a record of its key. */
  lemma {:induction false} NextClaimAgreesIff(m: Entries, v: Values, h: seq<Timed>, start: int, claim: Timed)
    requires Same(m, v, start) && InOrder(h + [claim], start) && OffLastTicks(v, h)
    requires forall i :: 0 <= i < |h| ==> PlainOp(h[i].op)
    requires claim.op.Reserve?
    ensures MemoryOutcomes(m, h + [claim]) == RedisOutcomes(v, h + [claim])
       <==> claim.op.ttl <= 0 || !OnLastTick(RedisEnd(v, h), claim.op.key, claim.at)
    decreases |h|
  {
    var all := h + [claim];
    var (op, now) := (all[0].op, all[0].at);
    TimeKeepsSame(m, v, start, now);
    assert SameKey(m, v, op.key, now);
    if op.Reserve? {
      AnsweredAlikeIff(m, v, op.key, op.fingerprint, op.ttl, now);
    }
    if h != [] {
      OpKeepsSame(m, v, op, now);
      assert all[1..] == h[1..] + [claim];
      NextClaimAgreesIff(MemoryAfter(m, op, now), RedisAfter(v, op, now), h[1..], now, claim);
      TailsDecide(m, v, all);
    } else {
      assert all == [claim] && all[1..] == [];
      assert MemoryOutcomes(MemoryAfter(m, op, now), []) == [] == RedisOutcomes(RedisAfter(v, op, now), []);
      var mine, theirs := MemoryOutcomes(m, all), RedisOutcomes(v, all);
      assert mine == [mine[0]] && theirs == [theirs[0]];
    }
  }

  /** When the first outcomes are equal, the rest decide. */
  lemma TailsDecide(m: Entries, v: Values, h: seq<Timed>)
    requires h != []
    requires h[0].op.Reserve? ==>
               var (Reserve(key, fingerprint, ttl), now) := (h[0].op, h[0].at);
               MemoryAnswer(m, key, fingerprint, ttl, now) == RedisAnswer(v, key, fingerprint, ttl, now)
    ensures var (m', v') := (MemoryAfter(m, h[0].op, h[0].at), RedisAfter(v, h[0].op, h[0].at));
            MemoryOutcomes(m, h) == RedisOutcomes(v, h) <==> MemoryOutcomes(m', h[1..]) == RedisOutcomes(v', h[1..])
  {
    var (mine, theirs) := (MemoryOutcomes(m, h), RedisOutcomes(v, h));
    assert mine[1..] == MemoryOutcomes(MemoryAfter(m, h[0].op, h[0].at), h[1..]);
    assert theirs[1..] == RedisOutcomes(RedisAfter(v, h[0].op, h[0].at), h[1..]);
    assert mine[0] == theirs[0];
    assert mine == [mine[0]] + mine[1..] && theirs == [theirs[0]] + theirs[1..];
  }

  /** A history whose claims use these fingerprints, and whose responses hold plain text. */
  ghost predicate Uses(h: seq<Timed>, fingerprints: set<string>) {
    forall i :: 0 <= i < |h| ==>
      match h[i].op
      case Reserve(_, fingerprint, _) => fingerprint in fingerprints
      case Confirm(_, response, _) => Plain(response.entryId) && Plain(response.walletId)
      case Release(_) => true
  }

  ghost predicate AllHex(h: seq<Timed>) {
    forall i :: 0 <= i < |h| && h[i].op.Reserve? ==> IsHex(h[i].op.fingerprint)
  }

  ghost predicate PlainReplies(h: seq<Timed>) {
    forall i :: 0 <= i < |h| && h[i].op.Confirm? ==> Plain(h[i].op.response.entryId) && Plain(h[i].op.response.walletId)
  }

  /** Started empty, sequential histories of claims by digest are answered alike, off the last ticks of records. */
  lemma AdaptersAgree(h: seq<Timed>, start: int)
    requires InOrder(h, start) && AllHex(h) && PlainReplies(h) && OffLastTicks(map[], h)
    ensures MemoryOutcomes(map[], h) == RedisOutcomes(map[], h)
  {
    forall i | 0 <= i < |h|
      ensures PlainOp(h[i].op)
    {
      if h[i].op.Reserve? {
        HexIsDistinct(h[i].op.fingerprint);
      }
    }
    SameStoresSameOutcomes(map[], map[], h, start);
  }

  ghost predicate AgreeOn(h: seq<Timed>) {
    MemoryOutcomes(map[], h) == RedisOutcomes(map[], h)
  }

  /** Every sequential history over these fingerprints is answered alike, off the last ticks of records. */
  ghost predicate AlwaysAgree(fingerprints: set<string>) {
    forall h, start :: InOrder(h, start) && Uses(h, fingerprints) && OffLastTicks(map[], h) ==> AgreeOn(h)
  }

  /** The adapters agree on all histories over a set of plain fingerprints if and only if the word is not one. */
  lemma AdaptersAgreeIff(fingerprints: set<string>)
    requires forall f :: f in fingerprints ==> Plain(f)
    ensures AlwaysAgree(fingerprints) <==> "response" !in fingerprints
  {
    if "response" !in fingerprints {
      forall h, start | InOrder(h, start) && Uses(h, fingerprints) && OffLastTicks(map[], h)
        ensures AgreeOn(h)
      {
        SameStoresSameOutcomes(map[], map[], h, start);
      }
    } else {
      WordHistoryIsPlain("k", fingerprints);
      AdaptersPart("k");
    }
  }

  lemma AdaptersPart(key: string)
    ensures !AgreeOn(WordHistory(key))
  {
    WordResponseIsNeverReleased(key);
    assert [Some(Reserved), None, Some(Reserved)][2] != [Some(Reserved), None, Some(InProgress)][2];
  }

  /** Claim, release and claim again, by the searched word. */
  function WordHistory(key: string): seq<Timed> {
    [Timed(Reserve(key, "response", 1), 0), Timed(Release(key), 0), Timed(Reserve(key, "response", 1), 0)]
  }

  lemma WordHistoryIsPlain(key: string, fingerprints: set<string>)
    requires "response" in fingerprints
    ensures InOrder(WordHistory(key), 0) && Uses(WordHistory(key), fingerprints)
    ensures OffLastTicks(map[], WordHistory(key))
  {
    var h := WordHistory(key);
    assert h[1..][1..][1..] == [];
    assert InOrder(h[1..][1..], 0) && InOrder(h[1..], 0);
    var v := RedisAfter(map[], h[0].op, 0);
    ClaimOfTheWordStays(key, v);
    assert OffLastTicks(v, h[1..][1..]) && OffLastTicks(v, h[1..]);
  }

  /** The hypothesis on ticks is needed too: a second claim on the last tick of the first. */
  lemma LastTickIsNotFree(key: string, fingerprint: string, ttl: int)
    requires Plain(fingerprint) && ttl > 0
    ensures var claim := Reserve(key, fingerprint, ttl);
            !AgreeOn([Timed(claim, 0), Timed(claim, ttl)])
  {
    var claim := Reserve(key, fingerprint, ttl);
    var h := [Timed(claim, 0), Timed(claim, ttl)];
    var (m, v) := (MemoryAfter(map[], claim, 0), RedisAfter(map[], claim, 0));
    LoadUndoesDump(Payload(fingerprint, None));
    assert Dump(Payload(fingerprint, None))[0] == '{' && CLAIMED[0] == 'r';
    AnsweredAlikeIff(map[], map[], key, fingerprint, ttl, 0);
    assert MemoryAnswer(m, key, fingerprint, ttl, ttl) != RedisAnswer(v, key, fingerprint, ttl, ttl);
    TailsDecide(map[], map[], h);
    assert h[1..] == [Timed(claim, ttl)];
    assert MemoryOutcomes(m, h[1..])[0] != RedisOutcomes(v, h[1..])[0];
  }

  /** The hypothesis on fingerprints is needed: with this one, Redis never gives a claim back. */
  lemma WordResponseIsNeverReleased(key: string)
    ensures MemoryOutcomes(map[], WordHistory(key)) == [Some(Reserved), None, Some(Reserved)]
    ensures RedisOutcomes(map[], WordHistory(key)) == [Some(Reserved), None, Some(InProgress)]
  {
    var (claim, release) := (Reserve(key, "response", 1), Release(key));
    var (h, second, third) := (WordHistory(key), [Timed(release, 0), Timed(claim, 0)], [Timed(claim, 0)]);
    assert h[1..] == second && second[1..] == third && third[1..] == [];
    var m1 := MemoryAfter(map[], claim, 0);
    assert MemoryOutcomes(map[], h) == [Some(Reserved)] + MemoryOutcomes(m1, second);
    var m2 := MemoryAfter(m1, release, 0);
    assert MemoryOutcomes(m1, second) == [None] + MemoryOutcomes(m2, third);
    assert MemoryOutcomes(m2, third) == [Some(Reserved)];
    var v1 := RedisAfter(map[], claim, 0);
    assert RedisOutcomes(map[], h) == [Some(Reserved)] + RedisOutcomes(v1, second);
    ClaimOfTheWordStays(key, v1);
    assert RedisOutcomes(v1, second) == [None] + RedisOutcomes(v1, third);
    assert RedisOutcomes(v1, third) == [Some(InProgress)];
  }

  /** A claim whose fingerprint is the searched word: its release is a no-op. */
  lemma ClaimOfTheWordStays(key: string, v: Values)
    requires v == RedisAfter(map[], Reserve(key, "response", 1), 0)
    ensures RedisAfter(v, Release(key), 0) == v
    ensures RedisAnswer(v, key, "response", 1, 0) == InProgress
  {
    var p := Payload("response", None);
    assert Get(v, RedisKey(key), 0) == Some(Dump(p));
    LoadUndoesDump(p);
    FindsResponseIff(p);
    assert Dump(p)[0] == '{' && CLAIMED[0] == 'r';
  }
}
