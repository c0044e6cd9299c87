/**
 The bulkhead, twice: a dictionary of lease expiries per process, and a Redis
 sorted set whose key carries its own expiry. Times are milliseconds. A Redis key
 given PEXPIRE d at t exists up to and including t + d; a d that is not positive
 deletes it.
 */
module Bulkhead {
  import opened Base

  type Leases = map<string, int>

  /** The leases that have not run out at `now`. */
  function Unexpired(m: Leases, now: int): Leases {
    map t | t in m && m[t] > now :: m[t]
  }

  datatype Policy = Policy(limit: int, leaseTtl: int)

  datatype Op = Acquire(token: string, policy: Policy) | Release(token: string)

  datatype Timed = Timed(op: Op, at: int)

  // ----- in memory

  predicate MemoryGrants(m: Leases, policy: Policy, now: int) {
    |Unexpired(m, now)| < policy.limit
  }

  function MemoryAfter(m: Leases, op: Op, now: int): Leases {
    match op
    case Acquire(token, policy) =>
      var live := Unexpired(m, now);
      if MemoryGrants(m, policy, now) then live[token := now + policy.leaseTtl] else live
    case Release(token) => m - {token}
  }

  class Occupancy {
    var leases: Leases

    constructor ()
      ensures leases == map[]
    {
      leases := map[];
    }

    method TryAdd(token: string, policy: Policy, now: int) returns (added: bool)
      modifies this
      ensures added == MemoryGrants(old(leases), policy, now)
      ensures leases == MemoryAfter(old(leases), Acquire(token, policy), now)
    {
      leases := map t | t in leases && leases[t] > now :: leases[t];
      if |leases| >= policy.limit {
        return false;
      }
      leases := leases[token := now + policy.leaseTtl];
      return true;
    }

    method Remove(token: string)
      modifies this
      ensures leases == old(leases) - {token}
    {
      leases := leases - {token};
    }
  }

  /** One caller's handle: it gives back only what it was granted. */
  class InProcessLease {
    const holder: Occupancy
    const policy: Policy
    const token: string
    var acquired: bool

    constructor (holder: Occupancy, policy: Policy, token: string)
      ensures this.holder == holder && this.policy == policy && this.token == token && !acquired
    {
      this.holder, this.policy, this.token, acquired := holder, policy, token, false;
    }

    /** Tries, and tries again after each sleep, until it is let in or its deadline has come. */
    method Enter(wait: int, wakes: nat -> Wake<Leases>) returns (passes: nat)
      requires Sleeps(wakes) && wakes(0).found == holder.leases
      modifies this, holder
      ensures forall k :: 0 <= k < passes ==>
                !MemoryGrants(wakes(k).found, policy, wakes(k).now) && wakes(k).now < wakes(0).now + wait
      ensures var (table, now) := (wakes(passes).found, wakes(passes).now);
              && holder.leases == MemoryAfter(table, Acquire(token, policy), now)
              && acquired == (old(acquired) || MemoryGrants(table, policy, now))
              && (MemoryGrants(table, policy, now) || now >= wakes(0).now + wait)
    {
      var deadline := wakes(0).now + wait;
      passes := 0;
      while true
        invariant holder.leases == wakes(passes).found && acquired == old(acquired)
        invariant forall k :: 0 <= k < passes ==>
                    !MemoryGrants(wakes(k).found, policy, wakes(k).now) && wakes(k).now < deadline
        decreases deadline - wakes(passes).now
      {
        var added := holder.TryAdd(token, policy, wakes(passes).now);
        if added {
          acquired := true;
          return;
        }
        if wakes(passes).now >= deadline {
          return;
        }
        passes := passes + 1;
        holder.leases := wakes(passes).found;
      }
    }

    method Exit()
      modifies this, holder
      ensures !acquired
      ensures holder.leases == if old(acquired) then old(holder.leases) - {token} else old(holder.leases)
    {
      if !acquired {
        return;
      }
      holder.Remove(token);
      acquired := false;
    }
  }

  // ----- in Redis

  /** A sorted set under one key; a key whose set empties is gone, expiry and all. */
  datatype ZSet = Absent | ZSet(scores: Leases, lastTick: int)

  function Scores(z: ZSet, now: int): Leases {
    if z.ZSet? && z.lastTick >= now then z.scores else map[]
  }

  function Kept(z: ZSet, scores: Leases): ZSet {
    if z.Absent? || scores == map[] then Absent else ZSet(scores, z.lastTick)
  }

  /** ZADD and PEXPIRE */
  function Added(scores: Leases, token: string, ttl: int, now: int): ZSet {
    if ttl > 0 then ZSet(scores[token := now + ttl], now + ttl) else Absent
  }

  predicate RedisGrants(z: ZSet, policy: Policy, now: int) {
    |Unexpired(Scores(z, now), now)| < policy.limit
  }

  function RedisAfter(z: ZSet, op: Op, now: int): ZSet {
    match op
    case Acquire(token, policy) =>
      var live := Unexpired(Scores(z, now), now);
      if RedisGrants(z, policy, now) then Added(live, token, policy.leaseTtl, now)
      else Kept(z, live)
    case Release(token) => Kept(z, Scores(z, now) - {token})
  }

  class RedisBulkhead {
    var zset: ZSet

    constructor ()
      ensures zset == Absent
    {
      zset := Absent;
    }

    /** ZREMRANGEBYSCORE key -inf now */
    method RemoveUpTo(now: int)
      modifies this
      ensures Scores(zset, now) == Unexpired(Scores(old(zset), now), now)
      ensures zset == Kept(old(zset), Unexpired(Scores(old(zset), now), now))
    {
      zset := Kept(zset, Unexpired(Scores(zset, now), now));
    }

    /** The acquire script: reap, count, add, and put the whole key's expiry at the new lease's. */
    method EvalAcquire(token: string, policy: Policy, now: int) returns (granted: bool)
      modifies this
      ensures granted == RedisGrants(old(zset), policy, now)
      ensures zset == RedisAfter(old(zset), Acquire(token, policy), now)
    {
      RemoveUpTo(now);
      var members := Scores(zset, now);
      if |members| >= policy.limit {
        return false;
      }
      if policy.leaseTtl > 0 {
        zset := ZSet(members[token := now + policy.leaseTtl], now + policy.leaseTtl);
      } else {
        zset := Absent;
      }
      return true;
    }

    /** ZREM key token */
    method EvalRelease(token: string, now: int)
      modifies this
      ensures zset == RedisAfter(old(zset), Release(token), now)
    {
      zset := Kept(zset, Scores(zset, now) - {token});
    }
  }

  class RedisLease {
    const server: RedisBulkhead
    const policy: Policy
    const token: string
    var acquired: bool

    constructor (server: RedisBulkhead, policy: Policy, token: string)
      ensures this.server == server && this.policy == policy && this.token == token && !acquired
    {
      this.server, this.policy, this.token, acquired := server, policy, token, false;
    }

    /** Tries, and tries again after each sleep, until it is let in or its deadline has come. */
    method Enter(wait: int, wakes: nat -> Wake<ZSet>) returns (passes: nat)
      requires Sleeps(wakes) && wakes(0).found == server.zset
      modifies this, server
      ensures forall k :: 0 <= k < passes ==>
                !RedisGrants(wakes(k).found, policy, wakes(k).now) && wakes(k).now < wakes(0).now + wait
      ensures var (zset, now) := (wakes(passes).found, wakes(passes).now);
              && server.zset == RedisAfter(zset, Acquire(token, policy), now)
              && acquired == (old(acquired) || RedisGrants(zset, policy, now))
              && (RedisGrants(zset, policy, now) || now >= wakes(0).now + wait)
    {
      var deadline := wakes(0).now + wait;
      passes := 0;
      while true
        invariant server.zset == wakes(passes).found && acquired == old(acquired)
        invariant forall k :: 0 <= k < passes ==>
                    !RedisGrants(wakes(k).found, policy, wakes(k).now) && wakes(k).now < deadline
        decreases deadline - wakes(passes).now
      {
        var granted := server.EvalAcquire(token, policy, wakes(passes).now);
        if granted {
          acquired := true;
          return;
        }
        if wakes(passes).now >= deadline {
          return;
        }
        passes := passes + 1;
        server.zset := wakes(passes).found;
      }
    }

    method Exit(now: int)
      modifies this, server
      ensures !acquired
      ensures server.zset ==
              if old(acquired) then RedisAfter(old(server.zset), Release(token), now) else old(server.zset)
    {
      if !acquired {
        return;
      }
      server.EvalRelease(token, now);
      acquired := false;
    }
  }

  // ----- histories

  function MemoryRun(h: seq<Timed>): Leases {
    if h == [] then map[] else MemoryAfter(MemoryRun(h[..|h| - 1]), h[|h| - 1].op, h[|h| - 1].at)
  }

  function RedisRun(h: seq<Timed>): ZSet {
    if h == [] then Absent else RedisAfter(RedisRun(h[..|h| - 1]), h[|h| - 1].op, h[|h| - 1].at)
  }

  ghost predicate ClockForward(h: seq<Timed>) {
    forall i, j :: 0 <= i < j < |h| ==> h[i].at <= h[j].at
  }

  /** For how many ticks a key given an expiry of `ttl` exists. */
  function KeyLasts(ttl: int): int {
    if ttl > 0 then ttl + 1 else 0
  }

  /** If the call is granted a lease, the key then lasts as long as the leases that are running. */
  ghost predicate KeyOutlives(m: Leases, op: Op, now: int) {
    op.Acquire? && MemoryGrants(m, op.policy, now) ==>
      forall t :: t in Unexpired(m, now) ==> m[t] <= now + KeyLasts(op.policy.leaseTtl)
  }

  ghost predicate KeysOutlive(h: seq<Timed>) {
    h == [] || (KeysOutlive(h[..|h| - 1]) && KeyOutlives(MemoryRun(h[..|h| - 1]), h[|h| - 1].op, h[|h| - 1].at))
  }

  ghost predicate LengthsFrom(h: seq<Timed>, lengths: set<int>) {
    forall i :: 0 <= i < |h| && h[i].op.Acquire? ==> h[i].op.policy.leaseTtl in lengths
  }

  ghost predicate OneLimit(h: seq<Timed>, limit: int) {
    forall i :: 0 <= i < |h| && h[i].op.Acquire? ==> h[i].op.policy.limit == limit
  }

  predicate After(h: seq<Timed>, now: int) {
    h == [] || h[|h| - 1].at <= now
  }

  /** No lease of one of these lengths outlasts a key given another. */
  ghost predicate NoneOutlasts(lengths: set<int>) {
    forall short, long :: short in lengths && long in lengths ==> long <= KeyLasts(short)
  }

  ghost predicate EndsWithin(lengths: set<int>, expiry: int, now: int) {
    exists l :: l in lengths && expiry <= now + l
  }

  lemma {:induction false} LengthsOutlive(h: seq<Timed>, lengths: set<int>, now: int)
    requires ClockForward(h) && LengthsFrom(h, lengths) && NoneOutlasts(lengths) && After(h, now)
    ensures KeysOutlive(h)
    ensures forall t :: t in MemoryRun(h) ==> EndsWithin(lengths, MemoryRun(h)[t], now)
  {
    if h != [] {
      var (before, last) := (h[..|h| - 1], h[|h| - 1]);
      LengthsOutlive(before, lengths, last.at);
      forall t | t in MemoryRun(h)
        ensures EndsWithin(lengths, MemoryRun(h)[t], now)
      {
        assert t in MemoryRun(before) || last.op.Acquire?;
      }
    }
  }

  // ----- the two agree

  /** Both hold the same unexpired leases, and no score in the Redis key outlasts it. */
  ghost predicate Same(m: Leases, z: ZSet, now: int) {
    && Unexpired(m, now) == Unexpired(Scores(z, now), now)
    && (z.ZSet? ==> forall t :: t in z.scores ==> z.scores[t] <= z.lastTick + 1)
  }

  lemma TimeKeepsSame(m: Leases, z: ZSet, start: int, now: int)
    requires Same(m, z, start) && start <= now
    ensures Same(m, z, now)
  {
    var (mine, theirs) := (Unexpired(m, start), Unexpired(Scores(z, start), start));
    assert Unexpired(m, now) == Unexpired(mine, now);
    assert Unexpired(Scores(z, now), now) == Unexpired(theirs, now);
  }

  lemma ReleaseKeepsSame(m: Leases, z: ZSet, token: string, now: int)
    requires Same(m, z, now)
    ensures Same(MemoryAfter(m, Release(token), now), RedisAfter(z, Release(token), now), now)
  {
    assert Unexpired(m - {token}, now) == Unexpired(m, now) - {token};
    var scores := Scores(z, now);
    assert Unexpired(scores - {token}, now) == Unexpired(scores, now) - {token};
    assert Scores(RedisAfter(z, Release(token), now), now) == scores - {token};
  }

  /** A lease that lasts takes its place, and one that does not deletes a key in which nothing is running. */
  lemma GrantKeepsSame(live: Leases, token: string, ttl: int, now: int)
    requires forall t :: t in live ==> now < live[t] <= now + KeyLasts(ttl)
    ensures Same(live[token := now + ttl], Added(live, token, ttl, now), now)
  {
    if ttl <= 0 {
      assert Unexpired(live[token := now + ttl], now) == map[] == Unexpired(Scores(Absent, now), now);
    }
  }

  lemma AcquireKeepsSame(m: Leases, z: ZSet, token: string, policy: Policy, now: int)
    requires Same(m, z, now) && KeyOutlives(m, Acquire(token, policy), now)
    ensures Same(MemoryAfter(m, Acquire(token, policy), now), RedisAfter(z, Acquire(token, policy), now), now)
  {
    var live := Unexpired(m, now);
    if RedisGrants(z, policy, now) {
      GrantKeepsSame(live, token, policy.leaseTtl, now);
    } else {
      assert Unexpired(live, now) == live;
      assert Scores(RedisAfter(z, Acquire(token, policy), now), now) == live;
    }
  }

  /** After any history whose keys outlive their leases, at any tick since, both hold the same unexpired leases. */
  lemma {:induction false} RunsHoldTheSame(h: seq<Timed>, now: int)
    requires ClockForward(h) && KeysOutlive(h) && After(h, now)
    ensures Same(MemoryRun(h), RedisRun(h), now)
  {
    if h == [] {
      assert Unexpired(map[], now) == map[] == Unexpired(Scores(Absent, now), now);
    } else {
      var (before, last) := (h[..|h| - 1], h[|h| - 1]);
      RunsHoldTheSame(before, last.at);
      match last.op {
        case Acquire(token, policy) =>
          AcquireKeepsSame(MemoryRun(before), RedisRun(before), token, policy, last.at);
        case Release(token) =>
          ReleaseKeepsSame(MemoryRun(before), RedisRun(before), token, last.at);
      }
      TimeKeepsSame(MemoryRun(h), RedisRun(h), last.at, now);
    }
  }

  /** With one lease length per name, whatever came before, the next caller gets the same answer from both. */
  lemma AdaptersAgree(h: seq<Timed>, ttl: int, policy: Policy, now: int)
    requires ClockForward(h) && LengthsFrom(h, {ttl}) && After(h, now)
    ensures MemoryGrants(MemoryRun(h), policy, now) == RedisGrants(RedisRun(h), policy, now)
  {
    LengthsOutlive(h, {ttl}, now);
    RunsHoldTheSame(h, now);
  }

  // ----- the limit

  /** The leases callers hold after one more call: granted and not given back. */
  function HeldAfter(held: Leases, op: Op, granted: bool, at: int): Leases {
    match op
    case Acquire(token, policy) => if granted then held[token := at + policy.leaseTtl] else held
    case Release(token) => held - {token}
  }

  /** Counted from the answers alone, never reaped. */
  function MemoryHeld(h: seq<Timed>): Leases {
    if h == [] then map[]
    else
      var (before, last) := (h[..|h| - 1], h[|h| - 1]);
      var granted := last.op.Acquire? && MemoryGrants(MemoryRun(before), last.op.policy, last.at);
      HeldAfter(MemoryHeld(before), last.op, granted, last.at)
  }

  function RedisHeld(h: seq<Timed>): Leases {
    if h == [] then map[]
    else
      var (before, last) := (h[..|h| - 1], h[|h| - 1]);
      var granted := last.op.Acquire? && RedisGrants(RedisRun(before), last.op.policy, last.at);
      HeldAfter(RedisHeld(before), last.op, granted, last.at)
  }

  lemma RunGoesOn(before: seq<Timed>, next: Timed)
    ensures MemoryRun(before + [next]) == MemoryAfter(MemoryRun(before), next.op, next.at)
  {
    assert (before + [next])[..|before + [next]| - 1] == before;
  }

  lemma GrantIsHeld(before: seq<Timed>, token: string, policy: Policy, at: int)
    requires MemoryGrants(MemoryRun(before), policy, at)
    ensures Lookup(MemoryHeld(before + [Timed(Acquire(token, policy), at)]), token) == Some(at + policy.leaseTtl)
  {
    var h := before + [Timed(Acquire(token, policy), at)];
    assert h[..|h| - 1] == before;
  }

  lemma OthersStayHeld(held: Leases, op: Op, granted: bool, at: int, token: string)
    requires op.token != token
    ensures Lookup(HeldAfter(held, op, granted, at), token) == Lookup(held, token)
  {
  }

  lemma FewerKeysFewerLeases(a: Leases, b: Leases)
    requires a.Keys <= b.Keys
    ensures |a| <= |b|
    decreases |b|
  {
    if t :| t in b {
      if t in a {
        FewerKeysFewerLeases(a - {t}, b - {t});
      } else {
        FewerKeysFewerLeases(a, b - {t});
      }
    }
  }

  lemma {:induction false} TableStaysWithinLimit(h: seq<Timed>, limit: int)
    requires OneLimit(h, limit)
    ensures |MemoryRun(h)| <= Max(0, limit)
  {
    if h != [] {
      var (before, last) := (h[..|h| - 1], h[|h| - 1]);
      TableStaysWithinLimit(before, limit);
      FewerKeysFewerLeases(Unexpired(MemoryRun(before), last.at), MemoryRun(before));
      FewerKeysFewerLeases(MemoryRun(before) - {last.op.token}, MemoryRun(before));
    }
  }

  lemma UnexpiredAfterAdd(m: Leases, token: string, expiry: int, now: int)
    ensures Unexpired(m[token := expiry], now)
         == if expiry > now then Unexpired(m, now)[token := expiry] else Unexpired(m, now) - {token}
  {
  }

  lemma UnexpiredAfterRemove(m: Leases, token: string, now: int)
    ensures Unexpired(m - {token}, now) == Unexpired(m, now) - {token}
  {
  }

  lemma ReapingEarlierChangesNothing(m: Leases, at: int, now: int)
    requires at <= now
    ensures Unexpired(Unexpired(m, at), now) == Unexpired(m, now)
  {
  }

  lemma CallKeepsTrackOfLeases(held: Leases, table: Leases, op: Op, at: int, now: int)
    requires Unexpired(held, now) == Unexpired(table, now) && at <= now
    ensures var granted := op.Acquire? && MemoryGrants(table, op.policy, at);
            Unexpired(HeldAfter(held, op, granted, at), now) == Unexpired(MemoryAfter(table, op, at), now)
  {
    match op {
      case Acquire(token, policy) =>
        var expiry := at + policy.leaseTtl;
        ReapingEarlierChangesNothing(table, at, now);
        UnexpiredAfterAdd(held, token, expiry, now);
        UnexpiredAfterAdd(Unexpired(table, at), token, expiry, now);
      case Release(token) =>
        UnexpiredAfterRemove(held, token, now);
        UnexpiredAfterRemove(table, token, now);
    }
  }

  /** Reaping forgets no lease that is still running. */
  lemma {:induction false} TableKnowsEveryLease(h: seq<Timed>, now: int)
    requires ClockForward(h) && After(h, now)
    ensures Unexpired(MemoryHeld(h), now) == Unexpired(MemoryRun(h), now)
  {
    if h != [] {
      var (before, last) := (h[..|h| - 1], h[|h| - 1]);
      TableKnowsEveryLease(before, now);
      CallKeepsTrackOfLeases(MemoryHeld(before), MemoryRun(before), last.op, last.at, now);
    }
  }

  /** In every reachable state callers hold at most `limit` unexpired leases, whatever their lengths. */
  lemma MemoryNeverOverruns(h: seq<Timed>, limit: int, now: int)
    requires ClockForward(h) && OneLimit(h, limit) && After(h, now)
    ensures |Unexpired(MemoryHeld(h), now)| <= Max(0, limit)
  {
    TableStaysWithinLimit(h, limit);
    TableKnowsEveryLease(h, now);
    FewerKeysFewerLeases(Unexpired(MemoryRun(h), now), MemoryRun(h));
  }

  /** A caller is let in exactly while fewer than the limit hold unexpired leases, counted from the answers. */
  lemma GrantedIff(h: seq<Timed>, policy: Policy, now: int)
    requires ClockForward(h) && After(h, now)
    ensures MemoryGrants(MemoryRun(h), policy, now) <==> |Unexpired(MemoryHeld(h), now)| < policy.limit
  {
    TableKnowsEveryLease(h, now);
  }

  /** A granted lease is held from then on until it is given back or its length has passed. */
  lemma LeaseIsHeldFor(before: seq<Timed>, token: string, policy: Policy, at: int, now: int)
    requires MemoryGrants(MemoryRun(before), policy, at)
    ensures token in Unexpired(MemoryHeld(before + [Timed(Acquire(token, policy), at)]), now) <==>
            now < at + policy.leaseTtl
  {
    GrantIsHeld(before, token, policy, at);
  }

  lemma {:induction false} SameLeasesAreHeld(h: seq<Timed>)
    requires ClockForward(h) && KeysOutlive(h)
    ensures RedisHeld(h) == MemoryHeld(h)
  {
    if h != [] {
      var (before, last) := (h[..|h| - 1], h[|h| - 1]);
      SameLeasesAreHeld(before);
      RunsHoldTheSame(before, last.at);
    }
  }

  /** So does Redis, as long as its key outlives every lease. */
  lemma RedisNeverOverruns(h: seq<Timed>, limit: int, now: int)
    requires ClockForward(h) && KeysOutlive(h) && OneLimit(h, limit) && After(h, now)
    ensures |Unexpired(RedisHeld(h), now)| <= Max(0, limit)
  {
    SameLeasesAreHeld(h);
    MemoryNeverOverruns(h, limit, now);
  }

  /** After this history Redis holds `z`, and callers hold `held`. */
  ghost predicate Leaves(h: seq<Timed>, z: ZSet, held: Leases) {
    RedisRun(h) == z && RedisHeld(h) == held
  }

  /** And in Redis, as long as its key outlives every lease. */
  lemma RedisGrantsIff(h: seq<Timed>, policy: Policy, now: int)
    requires ClockForward(h) && KeysOutlive(h) && After(h, now)
    ensures RedisGrants(RedisRun(h), policy, now) <==> |Unexpired(RedisHeld(h), now)| < policy.limit
  {
    RunsHoldTheSame(h, now);
    SameLeasesAreHeld(h);
    GrantedIff(h, policy, now);
  }

  /** One more acquire that Redis grants, beside the leases it knows to be running. */
  lemma GrantedNext(before: seq<Timed>, z: ZSet, held: Leases, token: string, policy: Policy, at: int)
    requires Leaves(before, z, held) && RedisGrants(z, policy, at)
    ensures Leaves(before + [Timed(Acquire(token, policy), at)],
                   Added(Unexpired(Scores(z, at), at), token, policy.leaseTtl, at), held[token := at + policy.leaseTtl])
  {
    var h := before + [Timed(Acquire(token, policy), at)];
    assert h[..|h| - 1] == before;
  }

  lemma AddedLasts(live: Leases, token: string, ttl: int, at: int)
    requires ttl > 0 && forall t :: t in live ==> live[t] > at
    ensures Unexpired(Scores(Added(live, token, ttl, at), at), at) == live[token := at + ttl]
  {
  }

  const LONG := Policy(2, 10)
  const SHORT := Policy(2, 1)

  function LongThenShort(): seq<Timed> {
    [Timed(Acquire("a", LONG), 0), Timed(Acquire("b", SHORT), 0)]
  }

  lemma LongThenShortIsGranted()
    ensures Leaves(LongThenShort(), ZSet(map["a" := 10, "b" := 1], 1), map["a" := 10, "b" := 1])
  {
    assert Unexpired(map[], 0) == map[] && Unexpired(map["a" := 10], 0) == map["a" := 10];
    GrantedNext([], Absent, map[], "a", LONG, 0);
    var first := [Timed(Acquire("a", LONG), 0)];
    assert [] + first == first;
    GrantedNext(first, ZSet(map["a" := 10], 10), map["a" := 10], "b", SHORT, 0);
    assert first + [Timed(Acquire("b", SHORT), 0)] == LongThenShort();
  }

  function FourLeases(): seq<Timed> {
    [Timed(Acquire("a", LONG), 0), Timed(Acquire("b", SHORT), 0),
     Timed(Acquire("c", LONG), 2), Timed(Acquire("d", LONG), 2)]
  }

  lemma FourAreGranted()
    ensures RedisHeld(FourLeases()) == map["a" := 10, "b" := 1, "c" := 12, "d" := 12]
  {
    LongThenShortIsGranted();
    assert Unexpired(map[], 2) == map[] && Unexpired(map["c" := 12], 2) == map["c" := 12];
    GrantedNext(LongThenShort(), ZSet(map["a" := 10, "b" := 1], 1), map["a" := 10, "b" := 1], "c", LONG, 2);
    var three := LongThenShort() + [Timed(Acquire("c", LONG), 2)];
    GrantedNext(three, ZSet(map["c" := 12], 12), map["a" := 10, "b" := 1, "c" := 12], "d", LONG, 2);
    assert FourLeases() == three + [Timed(Acquire("d", LONG), 2)];
  }

  /** A shorter lease takes the whole key with it, the longer lease included: three callers hold a limit of two. */
  lemma ShorterLeaseOverrunsRedis()
    ensures ClockForward(FourLeases()) && OneLimit(FourLeases(), 2) && After(FourLeases(), 2)
    ensures |Unexpired(RedisHeld(FourLeases()), 2)| == 3
  {
    FourAreGranted();
    ThreeOfFourRunning(RedisHeld(FourLeases()));
  }

  lemma ThreeOfFourRunning(held: Leases)
    requires held == map["a" := 10, "b" := 1, "c" := 12, "d" := 12]
    ensures |Unexpired(held, 2)| == 3
  {
    assert Unexpired(held, 2).Keys == {"a", "c", "d"};
  }

  // ----- exactly which limits and lease lengths are safe in Redis

  /** With a limit of one, or less, no lease is granted beside another, so the key is its own. */
  lemma {:induction false} SoloOutlives(h: seq<Timed>, limit: int)
    requires ClockForward(h) && OneLimit(h, limit) && limit <= 1
    ensures KeysOutlive(h)
  {
    if h != [] {
      SoloOutlives(h[..|h| - 1], limit);
    }
  }

  /** The n-th of any number of different tokens. */
  function Token(n: nat): (token: string)
    ensures |token| == n
  {
    seq(n, _ => 'x')
  }

  /** `n` leases that end together, under the tokens from `first` on. */
  function Leased(first: nat, n: nat, expiry: int): Leases {
    if n == 0 then map[] else Leased(first, n - 1, expiry)[Token(first + n - 1) := expiry]
  }

  lemma {:induction false} LeasedCounts(first: nat, n: nat, expiry: int)
    ensures |Leased(first, n, expiry)| == n
    ensures forall t :: t in Leased(first, n, expiry) ==>
              first <= |t| < first + n && Leased(first, n, expiry)[t] == expiry
  {
    if n > 0 {
      LeasedCounts(first, n - 1, expiry);
      assert Token(first + n - 1) !in Leased(first, n - 1, expiry);
    }
  }

  /** Nothing in the history is after `now`, asks for another limit, or has a third length. */
  ghost predicate FitsTwoLengths(h: seq<Timed>, limit: int, short: int, long: int, now: int) {
    ClockForward(h) && OneLimit(h, limit) && LengthsFrom(h, {short, long}) && After(h, now)
  }

  /** A long lease and then a short one, and `n` more long ones as soon as the key of the short one is gone. */
  function OverrunHistory(limit: int, short: int, long: int, n: nat): seq<Timed> {
    if n == 0 then
      [Timed(Acquire(Token(0), Policy(limit, long)), 0)] + [Timed(Acquire(Token(1), Policy(limit, short)), 0)]
    else
      OverrunHistory(limit, short, long, n - 1) + [LateOne(limit, short, long, n - 1)]
  }

  /** The `n`-th of the late leases. */
  function LateOne(limit: int, short: int, long: int, n: nat): Timed {
    Timed(Acquire(Token(n + 2), Policy(limit, long)), KeyLasts(short))
  }

  function OverrunHeld(short: int, long: int, n: nat): Leases {
    if n == 0 then map[Token(0) := long, Token(1) := short]
    else WithLateOne(OverrunHeld(short, long, n - 1), short, long, n - 1)
  }

  function WithLateOne(held: Leases, short: int, long: int, n: nat): Leases {
    held[Token(n + 2) := KeyLasts(short) + long]
  }

  lemma LateOneFits(h: seq<Timed>, limit: int, short: int, long: int, n: nat)
    requires FitsTwoLengths(h, limit, short, long, KeyLasts(short))
    ensures FitsTwoLengths(h + [LateOne(limit, short, long, n)], limit, short, long, KeyLasts(short))
  {
  }

  lemma {:induction false} OverrunFits(limit: int, short: int, long: int, n: nat)
    ensures FitsTwoLengths(OverrunHistory(limit, short, long, n), limit, short, long, KeyLasts(short))
  {
    if n > 0 {
      OverrunFits(limit, short, long, n - 1);
      LateOneFits(OverrunHistory(limit, short, long, n - 1), limit, short, long, n - 1);
    }
  }

  /** What Redis knows to be running once `n` late leases are granted. */
  ghost predicate LateOnes(z: ZSet, short: int, long: int, n: nat) {
    Unexpired(Scores(z, KeyLasts(short)), KeyLasts(short)) == Leased(2, n, KeyLasts(short) + long)
  }

  /** The short lease takes the key with it, but the long one is still held. */
  lemma OverrunStarts(limit: int, short: int, long: int) returns (z: ZSet)
    requires limit >= 2 && long > KeyLasts(short)
    ensures Leaves(OverrunHistory(limit, short, long, 0), z, OverrunHeld(short, long, 0)) && LateOnes(z, short, long, 0)
  {
    var (first, alone) := ([Timed(Acquire(Token(0), Policy(limit, long)), 0)], map[Token(0) := long]);
    assert Unexpired(map[], 0) == map[] && Unexpired(alone, 0) == alone;
    GrantedNext([], Absent, map[], Token(0), Policy(limit, long), 0);
    assert [] + first == first;
    GrantedNext(first, ZSet(alone, long), alone, Token(1), Policy(limit, short), 0);
    z := Added(alone, Token(1), short, 0);
  }

  lemma LateOnesGrow(z: ZSet, policy: Policy, short: int, n: nat) returns (z': ZSet)
    requires policy.leaseTtl > 0 && n < policy.limit && LateOnes(z, short, policy.leaseTtl, n)
    ensures RedisGrants(z, policy, KeyLasts(short)) && LateOnes(z', short, policy.leaseTtl, n + 1)
    ensures var t := KeyLasts(short);
            z' == Added(Unexpired(Scores(z, t), t), Token(n + 2), policy.leaseTtl, t)
  {
    var t := KeyLasts(short);
    LeasedCounts(2, n, t + policy.leaseTtl);
    AddedLasts(Unexpired(Scores(z, t), t), Token(n + 2), policy.leaseTtl, t);
    z' := Added(Unexpired(Scores(z, t), t), Token(n + 2), policy.leaseTtl, t);
  }

  lemma OverrunStep(before: seq<Timed>, z: ZSet, held: Leases, limit: int, short: int, long: int, n: nat)
    returns (z': ZSet)
    requires Leaves(before, z, held) && LateOnes(z, short, long, n) && long > 0 && n < limit
    ensures Leaves(before + [LateOne(limit, short, long, n)], z', WithLateOne(held, short, long, n))
    ensures LateOnes(z', short, long, n + 1)
  {
    z' := LateOnesGrow(z, Policy(limit, long), short, n);
    GrantedNext(before, z, held, Token(n + 2), Policy(limit, long), KeyLasts(short));
  }

  /** As soon as the key of the short lease is gone, `n` more long ones are granted. */
  lemma {:induction false} OverrunGoesOn(limit: int, short: int, long: int, n: nat) returns (h: seq<Timed>, z: ZSet)
    requires limit >= 2 && long > KeyLasts(short) && n <= limit
    ensures h == OverrunHistory(limit, short, long, n)
    ensures Leaves(h, z, OverrunHeld(short, long, n)) && LateOnes(z, short, long, n)
  {
    if n == 0 {
      h := OverrunHistory(limit, short, long, 0);
      z := OverrunStarts(limit, short, long);
    } else {
      var before, z0 := OverrunGoesOn(limit, short, long, n - 1);
      z := OverrunStep(before, z0, OverrunHeld(short, long, n - 1), limit, short, long, n - 1);
      h := before + [LateOne(limit, short, long, n - 1)];
    }
  }

  /** The first lease and the `n` late ones are all running once the short one is over. */
  lemma {:induction false} OverrunHoldsMany(short: int, long: int, n: nat)
    requires long > KeyLasts(short)
    ensures var held := OverrunHeld(short, long, n);
            && |held| == n + 2 && Token(1) in held
            && (forall t :: t in held ==> |t| < n + 2)
            && (forall t :: t in held && t != Token(1) ==> held[t] > KeyLasts(short))
  {
    if n > 0 {
      OverrunHoldsMany(short, long, n - 1);
      assert Token(n + 1) !in OverrunHeld(short, long, n - 1);
    } else {
      assert Token(0) != Token(1);
    }
  }

  /** With room for two and a length that outlasts a key given another, one caller too many holds a lease. */
  lemma ShorterLengthOverruns(limit: int, short: int, long: int) returns (h: seq<Timed>)
    requires limit >= 2 && long > KeyLasts(short)
    ensures FitsTwoLengths(h, limit, short, long, KeyLasts(short))
    ensures |Unexpired(RedisHeld(h), KeyLasts(short))| > limit
  {
    h := OverrunHistory(limit, short, long, limit);
    OverrunFits(limit, short, long, limit);
    var _, _ := OverrunGoesOn(limit, short, long, limit);
    OverrunHoldsMany(short, long, limit);
    var held := OverrunHeld(short, long, limit);
    FewerKeysFewerLeases(held - {Token(1)}, Unexpired(held, KeyLasts(short)));
    assert |held - {Token(1)}| == |held| - 1 by {
      assert held == (held - {Token(1)})[Token(1) := held[Token(1)]];
    }
  }

  /** No history of leases of these lengths ever lets callers hold more than `limit`. */
  ghost predicate RedisStaysWithin(limit: int, lengths: set<int>) {
    forall h, now :: ClockForward(h) && OneLimit(h, limit) && LengthsFrom(h, lengths) && After(h, now) ==>
      |Unexpired(RedisHeld(h), now)| <= Max(0, limit)
  }

  /** Redis keeps a limit for leases of these lengths if and only if the limit is one, or no lease outlasts a key. */
  lemma RedisStaysWithinIff(limit: int, lengths: set<int>)
    ensures RedisStaysWithin(limit, lengths) <==> limit <= 1 || NoneOutlasts(lengths)
  {
    if limit <= 1 || NoneOutlasts(lengths) {
      forall h, now | ClockForward(h) && OneLimit(h, limit) && LengthsFrom(h, lengths) && After(h, now)
        ensures |Unexpired(RedisHeld(h), now)| <= Max(0, limit)
      {
        SafeHistoriesOutlive(h, limit, lengths, now);
        RedisNeverOverruns(h, limit, now);
      }
    } else {
      var short, long :| short in lengths && long in lengths && long > KeyLasts(short);
      var h := ShorterLengthOverruns(limit, short, long);
      assert LengthsFrom(h, lengths) && After(h, KeyLasts(short));
    }
  }

  lemma SafeHistoriesOutlive(h: seq<Timed>, limit: int, lengths: set<int>, now: int)
    requires ClockForward(h) && OneLimit(h, limit) && LengthsFrom(h, lengths) && After(h, now)
    requires limit <= 1 || NoneOutlasts(lengths)
    ensures KeysOutlive(h)
  {
    if limit <= 1 {
      SoloOutlives(h, limit);
    } else {
      LengthsOutlive(h, lengths, now);
    }
  }

  // ----- and exactly where the adapters agree

  /** After no history of leases of these lengths do they answer differently. */
  ghost predicate AlwaysAgree(limit: int, lengths: set<int>) {
    forall h, policy: Policy, now ::
      ClockForward(h) && OneLimit(h, limit) && LengthsFrom(h, lengths) && After(h, now) && policy.limit == limit ==>
        MemoryGrants(MemoryRun(h), policy, now) == RedisGrants(RedisRun(h), policy, now)
  }

  /** Where the answers never differ, neither do the leases held. */
  lemma {:induction false} AgreementHoldsTheSame(h: seq<Timed>, limit: int, lengths: set<int>)
    requires AlwaysAgree(limit, lengths) && ClockForward(h) && OneLimit(h, limit) && LengthsFrom(h, lengths)
    ensures RedisHeld(h) == MemoryHeld(h)
  {
    if h != [] {
      AgreementHoldsTheSame(h[..|h| - 1], limit, lengths);
      assert After(h[..|h| - 1], h[|h| - 1].at);
    }
  }

  /** The adapters answer alike for leases of these lengths exactly where Redis keeps the limit. */
  lemma AlwaysAgreeIff(limit: int, lengths: set<int>)
    ensures AlwaysAgree(limit, lengths) <==> limit <= 1 || NoneOutlasts(lengths)
  {
    if limit <= 1 || NoneOutlasts(lengths) {
      forall h, policy: Policy, now |
        ClockForward(h) && OneLimit(h, limit) && LengthsFrom(h, lengths) && After(h, now) && policy.limit == limit
        ensures MemoryGrants(MemoryRun(h), policy, now) == RedisGrants(RedisRun(h), policy, now)
      {
        SafeHistoriesOutlive(h, limit, lengths, now);
        RunsHoldTheSame(h, now);
      }
    } else if AlwaysAgree(limit, lengths) {
      var short, long :| short in lengths && long in lengths && long > KeyLasts(short);
      var h := ShorterLengthOverruns(limit, short, long);
      assert LengthsFrom(h, lengths);
      AgreementHoldsTheSame(h, limit, lengths);
      MemoryNeverOverruns(h, limit, KeyLasts(short));
    }
  }
}
