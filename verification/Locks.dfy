/**
 The lease lock of one key, twice: a mutex with an expiry stamp per process, and a
 Redis key that holds the owner's token. Times are milliseconds. A Redis key set with
 PX d at t exists up to and including t + d; SET refuses a d that is not positive. A
 handle is named by its token. In a history the wait for a busy lock is a series of Take
 steps, with any steps of other handles in between.
 */
module Locks {
  import opened Base

  datatype Op =
    | Arrive(token: string)         // in memory: reclaim an expired lease on the way in
    | Take(token: string, ttl: int) // one try at the lock
    | Exit(token: string)

  datatype Timed = Timed(op: Op, at: int)

  // ----- in memory

  datatype Mutex = Mutex(locked: bool, expiresAt: int)

  predicate LeaseExpired(m: Mutex, now: int) {
    m.locked && now >= m.expiresAt
  }

  class Holder {
    var locked: bool
    var expiresAt: int

    constructor ()
      ensures Value() == Mutex(false, 0)
    {
      locked, expiresAt := false, 0;
    }

    function Value(): Mutex
      reads this
    {
      Mutex(locked, expiresAt)
    }
  }

  class InProcessLock {
    const holder: Holder
    const ttl: int
    const wait: int
    var acquired: bool

    constructor (holder: Holder, ttl: int, wait: int)
      ensures this.holder == holder && this.ttl == ttl && this.wait == wait && !acquired
    {
      this.holder, this.ttl, this.wait, acquired := holder, ttl, wait, false;
    }

    method ReclaimExpired(now: int)
      modifies holder
      ensures holder.Value() == AfterArrive(old(holder.Value()), now)
    {
      if holder.locked && now >= holder.expiresAt {
        holder.locked := false;
      }
    }

    method TryTake(now: int)
      modifies this, holder
      ensures acquired == (old(acquired) || !old(holder.locked))
      ensures holder.Value() == AfterTake(old(holder.Value()), ttl, now)
    {
      if holder.locked {
        return;
      }
      holder.locked := true;
      acquired := true;
      holder.expiresAt := now + ttl;
    }

    /** Entry with `wait_timeout_ms <= 0`: no step of anyone else comes between. */
    method EnterWithoutWaiting(now: int)
      requires wait <= 0
      modifies this, holder
      ensures var arrived := AfterArrive(old(holder.Value()), now);
              && acquired == (old(acquired) || !arrived.locked)
              && holder.Value() == AfterTake(arrived, ttl, now)
    {
      ReclaimExpired(now);
      TryTake(now);
    }

    /** The mutex as pass `k` of an entry finds it; the first pass has reclaimed an expired lease. */
    static function Found(wakes: nat -> Wake<Mutex>, k: nat): Mutex {
      if k == 0 then AfterArrive(wakes(0).found, wakes(0).now) else wakes(k).found
    }

    /** Entry that waits: it takes the mutex when it first finds it free, or gives up at its deadline. */
    method Enter(wakes: nat -> Wake<Mutex>) returns (passes: nat)
      requires Sleeps(wakes) && wakes(0).found == holder.Value()
      modifies this, holder
      ensures forall k :: 0 <= k < passes ==> Found(wakes, k).locked && wakes(k).now < wakes(0).now + wait
      ensures var (mutex, now) := (Found(wakes, passes), wakes(passes).now);
              && holder.Value() == AfterTake(mutex, ttl, now)
              && acquired == (old(acquired) || !mutex.locked)
              && (!mutex.locked || now >= wakes(0).now + wait)
    {
      var deadline := wakes(0).now + wait;
      passes := 0;
      ReclaimExpired(wakes(0).now);
      while true
        invariant holder.Value() == Found(wakes, passes) && acquired == old(acquired)
        invariant forall k :: 0 <= k < passes ==> Found(wakes, k).locked && wakes(k).now < deadline
        decreases deadline - wakes(passes).now
      {
        if !holder.locked {
          TryTake(wakes(passes).now);
          return;
        }
        if wakes(passes).now >= deadline {
          return;
        }
        passes := passes + 1;
        holder.locked, holder.expiresAt := wakes(passes).found.locked, wakes(passes).found.expiresAt;
      }
    }

    method Leave()
      modifies this, holder
      ensures !acquired
      ensures holder.Value() == if old(acquired) then old(holder.Value()).(locked := false) else old(holder.Value())
    {
      if !acquired {
        return;
      }
      acquired := false;
      if holder.locked {
        holder.locked := false;
      }
    }
  }

  function AfterArrive(m: Mutex, now: int): Mutex {
    if LeaseExpired(m, now) then m.(locked := false) else m
  }

  function AfterTake(m: Mutex, ttl: int, now: int): Mutex {
    if m.locked then m else Mutex(true, now + ttl)
  }

  /** The mutex, and the handles inside with the end of each one's lease. */
  datatype Memory = Memory(mutex: Mutex, inside: map<string, int>)

  function MemoryAfter(s: Memory, op: Op, now: int): Memory {
    match op
    case Arrive(_) => s.(mutex := AfterArrive(s.mutex, now))
    case Take(token, ttl) =>
      if s.mutex.locked then s else Memory(AfterTake(s.mutex, ttl, now), s.inside[token := now + ttl])
    case Exit(token) =>
      if token in s.inside then Memory(s.mutex.(locked := false), s.inside - {token}) else s
  }

  function MemoryRun(h: seq<Timed>): Memory {
    if h == [] then Memory(Mutex(false, 0), map[])
    else MemoryAfter(MemoryRun(h[..|h| - 1]), h[|h| - 1].op, h[|h| - 1].at)
  }

  ghost predicate ClockForward(h: seq<Timed>) {
    forall i, j :: 0 <= i < j < |h| ==> h[i].at <= h[j].at
  }

  predicate After(h: seq<Timed>, now: int) {
    h == [] || h[|h| - 1].at <= now
  }

  /** No handle enters while it is inside. */
  ghost predicate EntersOnce(inside: map<string, int>, op: Op) {
    op.Take? ==> op.token !in inside
  }

  ghost predicate MemoryProper(h: seq<Timed>) {
    h == [] || (MemoryProper(h[..|h| - 1]) && EntersOnce(MemoryRun(h[..|h| - 1]).inside, h[|h| - 1].op))
  }

  /** The handle whose entry was the last one granted. */
  function LastTaker(h: seq<Timed>): Option<string> {
    if h == [] then None
    else
      var (before, last) := (h[..|h| - 1], h[|h| - 1]);
      if last.op.Take? && !MemoryRun(before).mutex.locked then Some(last.op.token) else LastTaker(before)
  }

  /** The exit of `token` would unlock a mutex that someone else took. */
  predicate ExitFreesAnother(h: seq<Timed>, token: string) {
    && token in MemoryRun(h).inside && MemoryRun(h).mutex.locked && LastTaker(h) != Some(token)
  }

  ghost predicate NoExitFreesAnother(h: seq<Timed>) {
    h == [] ||
    (&& NoExitFreesAnother(h[..|h| - 1])
     && (h[|h| - 1].op.Exit? ==> !ExitFreesAnother(h[..|h| - 1], h[|h| - 1].op.token)))
  }

  /** At `now` at most one handle is inside on a lease that is still running. */
  ghost predicate Exclusive(inside: map<string, int>, now: int) {
    forall a, b :: a in inside && b in inside && inside[a] > now && inside[b] > now ==> a == b
  }

  /** Whoever is inside on a running lease is the last taker, the mutex is locked, and its stamp is that lease. */
  ghost predicate OwnerHolds(h: seq<Timed>, now: int) {
    forall t :: t in MemoryRun(h).inside && MemoryRun(h).inside[t] > now ==>
      LastTaker(h) == Some(t) && MemoryRun(h).mutex == Mutex(true, MemoryRun(h).inside[t])
  }

  lemma {:induction false} RunningLeaseOwns(h: seq<Timed>, now: int)
    requires ClockForward(h) && After(h, now) && MemoryProper(h) && NoExitFreesAnother(h)
    ensures OwnerHolds(h, now)
  {
    if h != [] {
      var (before, last) := (h[..|h| - 1], h[|h| - 1]);
      RunningLeaseOwns(before, last.at);
      forall t | t in MemoryRun(h).inside && MemoryRun(h).inside[t] > now
        ensures LastTaker(h) == Some(t) && MemoryRun(h).mutex == Mutex(true, MemoryRun(h).inside[t])
      {
        assert t in MemoryRun(before).inside || last.op == Take(t, last.op.ttl);
      }
    }
  }

  /** While no exit frees a mutex taken by another, leases exclude each other, even if holders outstay theirs. */
  lemma MemoryExclusion(h: seq<Timed>, now: int)
    requires ClockForward(h) && After(h, now) && MemoryProper(h) && NoExitFreesAnother(h)
    ensures Exclusive(MemoryRun(h).inside, now)
  {
    RunningLeaseOwns(h, now);
  }

  /** The last taker is inside and its lease is running. */
  predicate OwnerIsRunning(h: seq<Timed>, now: int) {
    var owner := LastTaker(h);
    owner.Some? && owner.value in MemoryRun(h).inside && MemoryRun(h).inside[owner.value] > now
  }

  /** The late exit, and a third handle that tries the lock right after it. */
  function ThenThird(h: seq<Timed>, late: string, third: string, ttl: int, now: int): seq<Timed> {
    h + [Timed(Exit(late), now)] + [Timed(Take(third, ttl), now)]
  }

  lemma RunOfThenThird(h: seq<Timed>, late: string, third: string, ttl: int, now: int)
    ensures var s := MemoryAfter(MemoryRun(h), Exit(late), now);
            MemoryRun(ThenThird(h, late, third, ttl, now)) == MemoryAfter(s, Take(third, ttl), now)
  {
    var h1 := h + [Timed(Exit(late), now)];
    var h2 := h1 + [Timed(Take(third, ttl), now)];
    assert h2[..|h2| - 1] == h1 && h1[..|h1| - 1] == h;
  }

  /** An exit keeps leases exclusive exactly when it does not free the mutex of another whose lease is running. */
  lemma ExitIsSafeIff(h: seq<Timed>, late: string, third: string, ttl: int, now: int)
    requires ClockForward(h) && After(h, now) && MemoryProper(h) && NoExitFreesAnother(h)
    requires third !in MemoryRun(h).inside && ttl > 0
    ensures Exclusive(MemoryRun(ThenThird(h, late, third, ttl, now)).inside, now)
       <==> !(ExitFreesAnother(h, late) && OwnerIsRunning(h, now))
  {
    RunningLeaseOwns(h, now);
    RunOfThenThird(h, late, third, ttl, now);
    var s := MemoryAfter(MemoryRun(h), Exit(late), now);
    var inside := MemoryRun(ThenThird(h, late, third, ttl, now)).inside;
    if ExitFreesAnother(h, late) && OwnerIsRunning(h, now) {
      var owner := LastTaker(h).value;
      assert owner in s.inside && !s.mutex.locked;
      assert owner in inside && third in inside && inside[owner] > now && inside[third] > now;
    }
  }

  /** Every handle inside is still within its lease at each step, up to `now`. */
  ghost predicate Prompt(h: seq<Timed>, now: int) {
    && (forall t :: t in MemoryRun(h).inside ==> MemoryRun(h).inside[t] > now)
    && (h == [] || Prompt(h[..|h| - 1], h[|h| - 1].at))
  }

  /** Handles that exit before their leases end keep each other out, whoever waits and whoever arrives. */
  lemma {:induction false} PromptHoldersExclude(h: seq<Timed>, now: int)
    requires ClockForward(h) && After(h, now) && MemoryProper(h) && Prompt(h, now)
    ensures NoExitFreesAnother(h) && OwnerHolds(h, now)
    ensures forall a, b :: a in MemoryRun(h).inside && b in MemoryRun(h).inside ==> a == b
  {
    if h != [] {
      PromptHoldersExclude(h[..|h| - 1], h[|h| - 1].at);
    }
    RunningLeaseOwns(h, now);
  }

  /**
   The guard in the exit asks whether the mutex is locked, not by whom. `a` outstays its
   lease, `b` reclaims the lock, the late exit of `a` unlocks it and `c` walks in.
   */
  lemma LateExitLetsTwoIn()
    ensures var h := [Timed(Take("a", 1), 0), Timed(Arrive("b"), 1), Timed(Take("b", 9), 1), Timed(Exit("a"), 2),
                      Timed(Take("c", 9), 2)];
            ClockForward(h) && MemoryProper(h) && !Exclusive(MemoryRun(h).inside, 2)
  {
    var (one, two, three) := (Timed(Take("a", 1), 0), Timed(Arrive("b"), 1), Timed(Take("b", 9), 1));
    var (four, five) := (Timed(Exit("a"), 2), Timed(Take("c", 9), 2));
    var (h1, h2, h3) := ([one], [one, two], [one, two, three]);
    var (h4, h5) := ([one, two, three, four], [one, two, three, four, five]);
    assert h5[..4] == h4 && h4[..3] == h3 && h3[..2] == h2 && h2[..1] == h1 && h1[..0] == [];
    assert MemoryRun(h1) == Memory(Mutex(true, 1), map["a" := 1]);
    assert MemoryRun(h2) == Memory(Mutex(false, 1), map["a" := 1]);
    assert MemoryRun(h3) == Memory(Mutex(true, 10), map["a" := 1, "b" := 10]);
    assert MemoryRun(h4) == Memory(Mutex(false, 10), map["b" := 10]);
    var inside := MemoryRun(h5).inside;
    assert inside == map["b" := 10, "c" := 11];
    assert MemoryProper([]) && MemoryProper(h1) && MemoryProper(h2) && MemoryProper(h3) && MemoryProper(h4);
    assert "b" in inside && "c" in inside && inside["b"] > 2 && inside["c"] > 2;
  }

  ghost predicate OneTtl(h: seq<Timed>, ttl: int) {
    forall i :: 0 <= i < |h| && h[i].op.Take? ==> h[i].op.ttl == ttl
  }

  /** Leases last `ttl`, and nobody inside has been there for `limit` ticks. */
  ghost predicate Brief(inside: map<string, int>, ttl: int, limit: int, now: int) {
    forall t :: t in inside ==> now - (inside[t] - ttl) < limit
  }

  ghost predicate AlwaysBrief(h: seq<Timed>, ttl: int, limit: int, now: int) {
    && Brief(MemoryRun(h).inside, ttl, limit, now)
    && (h == [] || AlwaysBrief(h[..|h| - 1], ttl, limit, h[|h| - 1].at))
  }

  ghost predicate Alone(inside: map<string, int>) {
    forall a, b :: a in inside && b in inside ==> a == b
  }

  lemma {:induction false} BriefIsPrompt(h: seq<Timed>, ttl: int, limit: int, now: int)
    requires AlwaysBrief(h, ttl, limit, now) && limit <= ttl
    ensures Prompt(h, now)
  {
    if h != [] {
      BriefIsPrompt(h[..|h| - 1], ttl, limit, h[|h| - 1].at);
    }
  }

  /** Handles that stay inside for less than `limit` ticks are never inside together. */
  ghost predicate MemoryExcludes(ttl: int, limit: int) {
    forall h, now ::
      ClockForward(h) && After(h, now) && MemoryProper(h) && OneTtl(h, ttl) && AlwaysBrief(h, ttl, limit, now) ==>
        Alone(MemoryRun(h).inside)
  }

  /** `a` is inside when its lease runs out; `b` arrives and takes the lock. */
  function Overstay(ttl: int): seq<Timed> {
    [Timed(Take("a", ttl), 0), Timed(Arrive("b"), Max(0, ttl)), Timed(Take("b", ttl), Max(0, ttl))]
  }

  lemma OverstayLetsTwoIn(ttl: int, limit: int)
    requires ttl < limit && limit >= 1
    ensures var (h, now) := (Overstay(ttl), Max(0, ttl));
            && ClockForward(h) && After(h, now) && MemoryProper(h) && OneTtl(h, ttl) && AlwaysBrief(h, ttl, limit, now)
            && MemoryRun(h) == Memory(Mutex(true, now + ttl), map["a" := ttl, "b" := now + ttl])
            && !Alone(MemoryRun(h).inside)
  {
    var (h, now) := (Overstay(ttl), Max(0, ttl));
    var (one, two) := ([Timed(Take("a", ttl), 0)], [Timed(Take("a", ttl), 0), Timed(Arrive("b"), now)]);
    assert h[..2] == two && two[..1] == one && one[..0] == [];
    assert MemoryRun(one) == Memory(Mutex(true, ttl), map["a" := ttl]);
    assert MemoryRun(two) == Memory(Mutex(false, ttl), map["a" := ttl]);
    assert MemoryRun(h).inside == map["a" := ttl, "b" := now + ttl];
    assert AlwaysBrief([], ttl, limit, 0) && AlwaysBrief(one, ttl, limit, now) && AlwaysBrief(two, ttl, limit, now);
    assert MemoryProper([]) && MemoryProper(one) && MemoryProper(two);
    assert "a" in MemoryRun(h).inside && "b" in MemoryRun(h).inside;
  }

  /** The in-memory lock is a mutual exclusion if and only if leases last as long as the longest stay. */
  lemma MemoryExcludesIff(ttl: int, limit: int)
    requires limit >= 1
    ensures MemoryExcludes(ttl, limit) <==> ttl >= limit
  {
    if ttl >= limit {
      forall h, now |
        ClockForward(h) && After(h, now) && MemoryProper(h) && OneTtl(h, ttl) && AlwaysBrief(h, ttl, limit, now)
        ensures Alone(MemoryRun(h).inside)
      {
        BriefIsPrompt(h, ttl, limit, now);
        PromptHoldersExclude(h, now);
      }
    } else {
      OverstayLetsTwoIn(ttl, limit);
    }
  }

  /** Handles that stay inside for less than `limit` ticks never hold running leases together. */
  ghost predicate MemoryKeepsLeasesExclusive(ttl: int, limit: int) {
    forall h, now ::
      ClockForward(h) && After(h, now) && MemoryProper(h) && OneTtl(h, ttl) && AlwaysBrief(h, ttl, limit, now) ==>
        Exclusive(MemoryRun(h).inside, now)
  }

  /** A lease that is not positive never runs. */
  lemma {:induction false} NothingRuns(h: seq<Timed>, ttl: int, now: int)
    requires ClockForward(h) && After(h, now) && OneTtl(h, ttl) && ttl <= 0
    ensures forall t :: t in MemoryRun(h).inside ==> MemoryRun(h).inside[t] <= now
  {
    if h != [] {
      NothingRuns(h[..|h| - 1], ttl, h[|h| - 1].at);
    }
  }

  /** `a` is inside when its lease runs out, `b` takes the lock over, `a` exits and `c` walks in: all at one tick. */
  function LateExit(ttl: int): seq<Timed> {
    Overstay(ttl) + [Timed(Exit("a"), ttl)] + [Timed(Take("c", ttl), ttl)]
  }

  lemma RunOfLateExit(ttl: int, limit: int)
    requires 0 < ttl < limit
    ensures var h := LateExit(ttl);
            && ClockForward(h) && After(h, ttl) && MemoryProper(h) && OneTtl(h, ttl) && AlwaysBrief(h, ttl, limit, ttl)
            && MemoryRun(h).inside == map["b" := ttl + ttl, "c" := ttl + ttl]
  {
    OverstayLetsTwoIn(ttl, limit);
    var h3 := Overstay(ttl);
    var h4 := h3 + [Timed(Exit("a"), ttl)];
    var h5 := h4 + [Timed(Take("c", ttl), ttl)];
    assert h5[..|h5| - 1] == h4 && h4[..|h4| - 1] == h3;
    assert MemoryRun(h4) == Memory(Mutex(false, ttl + ttl), map["b" := ttl + ttl]);
    assert MemoryRun(h5).inside == map["b" := ttl + ttl, "c" := ttl + ttl];
    assert MemoryProper(h4);
    assert AlwaysBrief(h4, ttl, limit, ttl);
  }

  /**
   Running leases exclude each other in memory exactly when a lease outlasts every stay or never
   runs at all; in Redis they do in every run.
   */
  lemma MemoryKeepsLeasesExclusiveIff(ttl: int, limit: int)
    requires limit >= 1
    ensures MemoryKeepsLeasesExclusive(ttl, limit) <==> ttl >= limit || ttl <= 0
  {
    if ttl >= limit {
      MemoryExcludesIff(ttl, limit);
    } else if ttl > 0 {
      RunOfLateExit(ttl, limit);
      var inside := MemoryRun(LateExit(ttl)).inside;
      assert "b" in inside && "c" in inside;
    } else {
      forall h, now |
        ClockForward(h) && After(h, now) && MemoryProper(h) && OneTtl(h, ttl) && AlwaysBrief(h, ttl, limit, now)
        ensures Exclusive(MemoryRun(h).inside, now)
      {
        NothingRuns(h, ttl, now);
      }
    }
  }

  // ----- in Redis

  datatype Owner = Owner(token: string, lastTick: int)

  function Live(k: Option<Owner>, now: int): Option<Owner> {
    if k.Some? && k.value.lastTick >= now then k else None
  }

  /** SET answers with an error, whatever the key, if the expiry is not positive. */
  datatype Reply = Granted | Refused | InvalidExpiry

  /** SET key token NX PX ttl */
  function SetReply(k: Option<Owner>, ttl: int, now: int): Reply {
    if ttl <= 0 then InvalidExpiry else if Live(k, now).None? then Granted else Refused
  }

  function AfterSet(k: Option<Owner>, token: string, ttl: int, now: int): Option<Owner> {
    if SetReply(k, ttl, now).Granted? then Some(Owner(token, now + ttl)) else k
  }

  /** The release script: compare and delete. */
  function AfterCompareAndDelete(k: Option<Owner>, token: string, now: int): Option<Owner> {
    var live := Live(k, now);
    if live.Some? && live.value.token == token then None else k
  }

  class RedisServer {
    var owners: map<string, Owner>

    constructor ()
      ensures owners == map[]
    {
      owners := map[];
    }

    function At(key: string): Option<Owner>
      reads this
    {
      Lookup(owners, key)
    }

    method SetNx(key: string, token: string, ttl: int, now: int) returns (reply: Reply)
      modifies this
      ensures reply == SetReply(old(At(key)), ttl, now)
      ensures At(key) == AfterSet(old(At(key)), token, ttl, now)
      ensures forall other :: other != key ==> At(other) == old(At(other))
    {
      if ttl <= 0 {
        return InvalidExpiry;
      }
      if Live(At(key), now).Some? {
        return Refused;
      }
      owners := owners[key := Owner(token, now + ttl)];
      return Granted;
    }

    method EvalRelease(key: string, token: string, now: int)
      modifies this
      ensures At(key) == AfterCompareAndDelete(old(At(key)), token, now)
      ensures forall other :: other != key ==> At(other) == old(At(other))
    {
      var live := Live(At(key), now);
      if live.Some? && live.value.token == token {
        owners := owners - {key};
      }
    }
  }

  class RedisLock {
    const server: RedisServer
    const key: string
    const token: string
    const ttl: int
    var acquired: bool

    constructor (server: RedisServer, key: string, token: string, ttl: int)
      ensures this.server == server && this.key == "lock:" + key && this.token == token && this.ttl == ttl && !acquired
    {
      this.server, this.key, this.token, this.ttl, acquired := server, "lock:" + key, token, ttl, false;
    }

    method TryTake(now: int) returns (reply: Reply)
      modifies this, server
      ensures reply == SetReply(old(server.At(key)), ttl, now)
      ensures acquired == (old(acquired) || reply.Granted?)
      ensures server.At(key) == AfterSet(old(server.At(key)), token, ttl, now)
      ensures forall other :: other != key ==> server.At(other) == old(server.At(other))
    {
      reply := server.SetNx(key, token, ttl, now);
      if reply.Granted? {
        acquired := true;
      }
    }

    /**
     Tries, and tries again after each sleep, until it has the key or its deadline has come; an
     expiry that Redis does not take is an error at once.
     */
    method Enter(wait: int, wakes: nat -> Wake<map<string, Owner>>) returns (passes: nat, raised: bool)
      requires Sleeps(wakes) && wakes(0).found == server.owners
      modifies this, server
      ensures forall k :: 0 <= k < passes ==>
                Live(Lookup(wakes(k).found, key), wakes(k).now).Some? && wakes(k).now < wakes(0).now + wait
      ensures var (owners, now) := (wakes(passes).found, wakes(passes).now);
              var reply := SetReply(Lookup(owners, key), ttl, now);
              && server.At(key) == AfterSet(Lookup(owners, key), token, ttl, now)
              && (forall other :: other != key ==> server.At(other) == Lookup(owners, other))
              && acquired == (old(acquired) || reply.Granted?) && raised == reply.InvalidExpiry?
              && (reply.Refused? ==> now >= wakes(0).now + wait)
      ensures raised ==> passes == 0
    {
      var deadline := wakes(0).now + wait;
      passes := 0;
      while true
        invariant server.owners == wakes(passes).found && acquired == old(acquired)
        invariant passes > 0 ==> ttl > 0
        invariant forall k :: 0 <= k < passes ==>
                    Live(Lookup(wakes(k).found, key), wakes(k).now).Some? && wakes(k).now < deadline
        decreases deadline - wakes(passes).now
      {
        var reply := TryTake(wakes(passes).now);
        if reply.InvalidExpiry? {
          return passes, true;
        }
        if reply.Granted? || wakes(passes).now >= deadline {
          return passes, false;
        }
        passes := passes + 1;
        server.owners := wakes(passes).found;
      }
    }

    method Leave(now: int)
      modifies this, server
      ensures !acquired
      ensures server.At(key) ==
              if old(acquired) then AfterCompareAndDelete(old(server.At(key)), token, now) else old(server.At(key))
      ensures forall other :: other != key ==> server.At(other) == old(server.At(other))
    {
      if !acquired {
        return;
      }
      server.EvalRelease(key, token, now);
      acquired := false;
    }
  }

  datatype Redis = Redis(key: Option<Owner>, inside: map<string, int>)

  function RedisAfter(s: Redis, op: Op, now: int): Redis {
    match op
    case Arrive(_) => s
    case Take(token, ttl) =>
      if !SetReply(s.key, ttl, now).Granted? then s
      else Redis(AfterSet(s.key, token, ttl, now), s.inside[token := now + ttl])
    case Exit(token) =>
      if token in s.inside then Redis(AfterCompareAndDelete(s.key, token, now), s.inside - {token}) else s
  }

  function RedisRun(h: seq<Timed>): Redis {
    if h == [] then Redis(None, map[]) else RedisAfter(RedisRun(h[..|h| - 1]), h[|h| - 1].op, h[|h| - 1].at)
  }

  ghost predicate RedisProper(h: seq<Timed>) {
    h == [] || (RedisProper(h[..|h| - 1]) && EntersOnce(RedisRun(h[..|h| - 1]).inside, h[|h| - 1].op))
  }

  /** The key names whoever is inside on a lease, up to and including the tick at which that lease ends. */
  ghost predicate KeyNamesHolder(s: Redis, now: int) {
    forall t :: t in s.inside && s.inside[t] >= now ==> s.key == Some(Owner(t, s.inside[t]))
  }

  lemma {:induction false} RunsNameTheHolder(h: seq<Timed>, now: int)
    requires ClockForward(h) && After(h, now) && RedisProper(h)
    ensures KeyNamesHolder(RedisRun(h), now)
  {
    if h != [] {
      var (before, last) := (h[..|h| - 1], h[|h| - 1]);
      RunsNameTheHolder(before, last.at);
      forall t | t in RedisRun(h).inside && RedisRun(h).inside[t] >= now
        ensures RedisRun(h).key == Some(Owner(t, RedisRun(h).inside[t]))
      {
        assert t in RedisRun(before).inside || last.op == Take(t, last.op.ttl);
      }
    }
  }

  /** In every run, prompt or not, at most one handle holds a running lease on the key. */
  lemma RedisExclusion(h: seq<Timed>, now: int)
    requires ClockForward(h) && After(h, now) && RedisProper(h)
    ensures Exclusive(RedisRun(h).inside, now)
  {
    RunsNameTheHolder(h, now);
  }

  /** Handles whose stays are shorter than `limit` ticks are not inside together. */
  ghost predicate RedisExcludes(ttl: int, limit: int) {
    forall h, now ::
      && ClockForward(h) && After(h, now) && RedisProper(h)
      && OneTtl(h, ttl) && Brief(RedisRun(h).inside, ttl, limit, now) ==>
        Alone(RedisRun(h).inside)
  }

  /** `b` takes the key as soon as it is gone, a tick after the lease of `a` ran out. */
  function OverstayInRedis(ttl: int): seq<Timed> {
    [Timed(Take("a", ttl), 0), Timed(Take("b", ttl), ttl + 1)]
  }

  lemma OverstayLetsTwoIntoRedis(ttl: int, limit: int)
    requires 0 < ttl < limit - 1
    ensures var (h, now) := (OverstayInRedis(ttl), ttl + 1);
            && ClockForward(h) && After(h, now) && RedisProper(h) && OneTtl(h, ttl)
            && Brief(RedisRun(h).inside, ttl, limit, now) && !Alone(RedisRun(h).inside)
  {
    var (h, one) := (OverstayInRedis(ttl), [Timed(Take("a", ttl), 0)]);
    assert h[..1] == one && one[..0] == [];
    assert RedisRun(one) == Redis(Some(Owner("a", ttl)), map["a" := ttl]);
    assert RedisRun(h).inside == map["a" := ttl, "b" := ttl + 1 + ttl];
    assert RedisProper([]) && RedisProper(one);
    assert "a" in RedisRun(h).inside && "b" in RedisRun(h).inside;
  }

  lemma {:induction false} NobodyGetsIn(h: seq<Timed>, ttl: int)
    requires OneTtl(h, ttl) && ttl <= 0
    ensures RedisRun(h).inside == map[]
  {
    if h != [] {
      NobodyGetsIn(h[..|h| - 1], ttl);
    }
  }

  /**
   The Redis lock is one if and only if a stay is over when the key goes, a tick after the lease, or
   nobody gets in at all; and it asks only about the stays of those inside now.
   */
  lemma RedisExcludesIff(ttl: int, limit: int)
    requires limit >= 1
    ensures RedisExcludes(ttl, limit) <==> ttl + 1 >= limit || ttl <= 0
  {
    if ttl + 1 >= limit || ttl <= 0 {
      forall h, now |
        && ClockForward(h) && After(h, now) && RedisProper(h)
        && OneTtl(h, ttl) && Brief(RedisRun(h).inside, ttl, limit, now)
        ensures Alone(RedisRun(h).inside)
      {
        if ttl <= 0 {
          NobodyGetsIn(h, ttl);
        }
        RunsNameTheHolder(h, now);
      }
    } else {
      OverstayLetsTwoIntoRedis(ttl, limit);
    }
  }

  /** A late exit leaves the token of the handle that came after it where it is. */
  lemma LateExitSparesTheNext(h: seq<Timed>, late: string, next: string, now: int)
    requires ClockForward(h) && After(h, now) && RedisProper(h) && late != next
    requires next in RedisRun(h).inside && RedisRun(h).inside[next] >= now
    ensures RedisRun(h + [Timed(Exit(late), now)]).key == Some(Owner(next, RedisRun(h).inside[next]))
  {
    var h' := h + [Timed(Exit(late), now)];
    assert h'[..|h'| - 1] == h;
    RunsNameTheHolder(h, now);
  }

  /** In both, a holder that exits inside its lease lets the next one in at once. */
  lemma ExitLetsTheNextIn(h: seq<Timed>, token: string, next: string, ttl: int, now: int)
    requires ClockForward(h) && After(h, now) && RedisProper(h) && ttl > 0
    requires token in MemoryRun(h).inside && token in RedisRun(h).inside && RedisRun(h).inside[token] >= now
    ensures var h' := h + [Timed(Exit(token), now)] + [Timed(Take(next, ttl), now)];
            && Lookup(MemoryRun(h').inside, next) == Some(now + ttl) && LastTaker(h') == Some(next)
            && Lookup(RedisRun(h').inside, next) == Some(now + ttl)
            && RedisRun(h').key == Some(Owner(next, now + ttl))
  {
    RunsNameTheHolder(h, now);
    var h1 := h + [Timed(Exit(token), now)];
    var h2 := h1 + [Timed(Take(next, ttl), now)];
    assert h2[..|h2| - 1] == h1 && h1[..|h1| - 1] == h;
  }

  /** And in neither does anyone get in while somebody else is inside on a running lease that nobody disturbed. */
  lemma RunningLeaseKeepsOthersOut(h: seq<Timed>, token: string, next: string, ttl: int, now: int)
    requires ClockForward(h) && After(h, now) && MemoryProper(h) && NoExitFreesAnother(h) && RedisProper(h)
    requires next != token
    ensures var h' := h + [Timed(Arrive(next), now)] + [Timed(Take(next, ttl), now)];
            && (token in MemoryRun(h).inside && MemoryRun(h).inside[token] > now ==> MemoryRun(h') == MemoryRun(h))
            && (token in RedisRun(h).inside && RedisRun(h).inside[token] >= now ==> RedisRun(h') == RedisRun(h))
  {
    RunningLeaseOwns(h, now);
    RunsNameTheHolder(h, now);
    var h1 := h + [Timed(Arrive(next), now)];
    var h2 := h1 + [Timed(Take(next, ttl), now)];
    assert h2[..|h2| - 1] == h1 && h1[..|h1| - 1] == h;
  }

  /** In both, a newcomer gets the lock of a holder that outstayed its lease. */
  lemma OutstayedLeaseIsReclaimed(h: seq<Timed>, token: string, ttl: int, now: int)
    requires MemoryRun(h).mutex.locked ==> MemoryRun(h).mutex.expiresAt <= now
    requires RedisRun(h).key.Some? ==> RedisRun(h).key.value.lastTick < now
    ensures var h' := h + [Timed(Arrive(token), now)] + [Timed(Take(token, ttl), now)];
            && LastTaker(h') == Some(token) && MemoryRun(h').mutex == Mutex(true, now + ttl)
            && (ttl > 0 ==> RedisRun(h').key == Some(Owner(token, now + ttl)))
  {
    var h1 := h + [Timed(Arrive(token), now)];
    var h2 := h1 + [Timed(Take(token, ttl), now)];
    assert h2[..|h2| - 1] == h1 && h1[..|h1| - 1] == h;
  }
}
