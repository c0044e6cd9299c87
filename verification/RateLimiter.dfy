/**
 The fixed-window limiter, twice: a dictionary of windows per process, and a Redis
 counter that expires with its window. Times are milliseconds. A Redis key given
 PEXPIRE d at t exists up to and including t + d; a d that is not positive deletes it.
 */
module RateLimiter {
  import opened Base

  datatype Policy = Policy(name: string, limit: int, window: int)

  datatype Decision = Decision(allowed: bool, remaining: int, retryAfter: int)

  datatype Window = Window(startedAt: int, used: int)

  datatype Call = Call(cost: int, at: int)

  // ----- in memory

  /** The window a call at `now` falls into. */
  function WindowAt(w: Option<Window>, p: Policy, now: int): Window {
    if w.None? || now - w.value.startedAt >= p.window then Window(now, 0) else w.value
  }

  predicate MemoryAllows(w: Option<Window>, p: Policy, c: Call) {
    WindowAt(w, p, c.at).used + c.cost <= p.limit
  }

  function MemoryAfter(w: Option<Window>, p: Policy, c: Call): Window {
    var current := WindowAt(w, p, c.at);
    if MemoryAllows(w, p, c) then current.(used := current.used + c.cost) else current
  }

  function MemoryDecision(w: Option<Window>, p: Policy, c: Call): Decision {
    var current := MemoryAfter(w, p, c);
    var remaining := Max(0, p.limit - current.used);
    if MemoryAllows(w, p, c) then Decision(true, remaining, 0)
    else Decision(false, remaining, Max(0, p.window - (c.at - current.startedAt)))
  }

  function Composite(name: string, key: string): string {
    name + ":" + key
  }

  /** Callers of one policy never share a window, and neither do policies whose names hold no colon. */
  lemma CompositeInjective(name: string, key: string, name': string, key': string)
    requires name == name' || (':' !in name && ':' !in name')
    ensures Composite(name, key) == Composite(name', key') <==> name == name' && key == key'
  {
    if Composite(name, key) == Composite(name', key') {
      var c := Composite(name, key);
      assert c[..|name|] == name && c[|name|] == ':' && c[|name'|] == ':';
      assert c[..|name'|] == name' && c[|name| + 1..] == key && c[|name'| + 1..] == key';
    }
  }

  class InMemoryRateLimiter {
    var windows: map<string, Window>

    constructor ()
      ensures windows == map[]
    {
      windows := map[];
    }

    method Consume(key: string, p: Policy, cost: int, now: int) returns (d: Decision)
      modifies this
      ensures var w := Lookup(old(windows), Composite(p.name, key));
              && d == MemoryDecision(w, p, Call(cost, now))
              && windows == old(windows)[Composite(p.name, key) := MemoryAfter(w, p, Call(cost, now))]
    {
      var composite := Composite(p.name, key);
      var startedAt, used := now, 0;
      if composite in windows {
        startedAt, used := windows[composite].startedAt, windows[composite].used;
      }
      if now - startedAt >= p.window {
        startedAt, used := now, 0;
      }
      if used + cost > p.limit {
        windows := windows[composite := Window(startedAt, used)];
        return Decision(false, Max(0, p.limit - used), Max(0, p.window - (now - startedAt)));
      }
      used := used + cost;
      windows := windows[composite := Window(startedAt, used)];
      return Decision(true, Max(0, p.limit - used), 0);
    }
  }

  // ----- in Redis

  /** A counter key; `lastTick` is absent while the key has no expiry. */
  datatype Counter = Counter(value: int, lastTick: Option<int>)

  function Existing(k: Option<Counter>, now: int): Option<Counter> {
    if k.Some? && k.value.lastTick.Some? && k.value.lastTick.value < now then None else k
  }

  /** INCRBY: a missing key counts from zero and has no expiry. */
  function Increased(k: Option<Counter>, cost: int, now: int): Counter {
    match Existing(k, now)
    case None => Counter(cost, None)
    case Some(c) => c.(value := c.value + cost)
  }

  /** PEXPIRE */
  function Expiring(c: Counter, window: int, now: int): Option<Counter> {
    if window > 0 then Some(c.(lastTick := Some(now + window))) else None
  }

  function RedisAfter(k: Option<Counter>, p: Policy, c: Call): Option<Counter> {
    var counter := Increased(k, c.cost, c.at);
    if counter.value == c.cost then Expiring(counter, p.window, c.at) else Some(counter)
  }

  predicate RedisAllows(k: Option<Counter>, p: Policy, c: Call) {
    Increased(k, c.cost, c.at).value <= p.limit
  }

  /** PTTL: -2 without a key, -1 without an expiry. */
  function TimeLeft(k: Option<Counter>, now: int): int {
    match Existing(k, now)
    case None => -2
    case Some(c) => if c.lastTick.None? then -1 else c.lastTick.value - now
  }

  function RedisDecision(k: Option<Counter>, p: Policy, c: Call): Decision {
    if RedisAllows(k, p, c) then Decision(true, Max(0, p.limit - Increased(k, c.cost, c.at).value), 0)
    else Decision(false, 0, Max(0, TimeLeft(RedisAfter(k, p, c), c.at)))
  }

  /** The keys once `name` holds `k`, or nothing. */
  function Put(counters: map<string, Counter>, name: string, k: Option<Counter>): map<string, Counter> {
    if k.Some? then counters[name := k.value] else counters - {name}
  }

  class RedisRateLimiter {
    var counters: map<string, Counter>

    constructor ()
      ensures counters == map[]
    {
      counters := map[];
    }

    /** The consume script: INCRBY, PEXPIRE on the first use of a window, PTTL. */
    method EvalConsume(name: string, cost: int, window: int, now: int) returns (current: int, timeLeft: int)
      modifies this
      ensures var k := Lookup(old(counters), name);
              var after := RedisAfter(k, Policy("", 0, window), Call(cost, now));
              && counters == Put(old(counters), name, after)
              && current == Increased(k, cost, now).value
              && timeLeft == TimeLeft(after, now)
    {
      var counter := Increased(Lookup(counters, name), cost, now);
      counters := counters[name := counter];
      current := counter.value;
      if current == cost {
        if window > 0 {
          counters := counters[name := counter.(lastTick := Some(now + window))];
        } else {
          counters := counters - {name};
        }
      }
      timeLeft := TimeLeft(Lookup(counters, name), now);
    }

    method Consume(key: string, p: Policy, cost: int, now: int) returns (d: Decision)
      modifies this
      ensures var name := "rl:" + Composite(p.name, key);
              var k := Lookup(old(counters), name);
              && d == RedisDecision(k, p, Call(cost, now))
              && counters == Put(old(counters), name, RedisAfter(k, p, Call(cost, now)))
    {
      var current, timeLeft := EvalConsume("rl:" + Composite(p.name, key), cost, p.window, now);
      var retryAfter := if timeLeft > 0 then timeLeft else 0;
      if current > p.limit {
        return Decision(false, 0, retryAfter);
      }
      return Decision(true, Max(0, p.limit - current), 0);
    }
  }

  // ----- histories of one key under one policy

  function MemoryRun(p: Policy, h: seq<Call>): Option<Window>
    decreases |h|
  {
    if h == [] then None else Some(MemoryAfter(MemoryRun(p, h[..|h| - 1]), p, h[|h| - 1]))
  }

  function RedisRun(p: Policy, h: seq<Call>): Option<Counter>
    decreases |h|
  {
    if h == [] then None else RedisAfter(RedisRun(p, h[..|h| - 1]), p, h[|h| - 1])
  }

  datatype Adapter = InMemory | InRedis

  /** After these calls, the adapter lets the next one through. */
  predicate Allows(a: Adapter, p: Policy, h: seq<Call>, next: Call) {
    match a
    case InMemory => MemoryAllows(MemoryRun(p, h), p, next)
    case InRedis => RedisAllows(RedisRun(p, h), p, next)
  }

  ghost predicate ClockForward(h: seq<Call>) {
    forall i, j :: 0 <= i < j < |h| ==> h[i].at <= h[j].at
  }

  ghost predicate CostsAtLeast(h: seq<Call>, least: int) {
    forall i :: 0 <= i < |h| ==> h[i].cost >= least
  }

  predicate After(h: seq<Call>, now: int) {
    h == [] || h[|h| - 1].at <= now
  }

  /** Total cost granted at the ticks from `lo` up to but not including `hi`. */
  function Granted(a: Adapter, p: Policy, h: seq<Call>, lo: int, hi: int): int
    decreases |h|
  {
    if h == [] then 0
    else
      var (before, last) := (h[..|h| - 1], h[|h| - 1]);
      Granted(a, p, before, lo, hi) + if lo <= last.at < hi && Allows(a, p, before, last) then last.cost else 0
  }

  // ----- at most twice the limit

  lemma {:induction false} WiderGrantsMore(a: Adapter, p: Policy, h: seq<Call>, lo: int, hi: int, lo': int, hi': int)
    requires CostsAtLeast(h, 0) && lo' <= lo && hi <= hi'
    ensures 0 <= Granted(a, p, h, lo, hi) <= Granted(a, p, h, lo', hi')
    decreases |h|
  {
    if h != [] {
      WiderGrantsMore(a, p, h[..|h| - 1], lo, hi, lo', hi');
    }
  }

  lemma {:induction false} GrantsAddUp(a: Adapter, p: Policy, h: seq<Call>, lo: int, mid: int, hi: int)
    requires lo <= mid <= hi
    ensures Granted(a, p, h, lo, hi) == Granted(a, p, h, lo, mid) + Granted(a, p, h, mid, hi)
    decreases |h|
  {
    if h != [] {
      GrantsAddUp(a, p, h[..|h| - 1], lo, mid, hi);
    }
  }

  lemma {:induction false} NothingAfterTheLast(a: Adapter, p: Policy, h: seq<Call>, lo: int, hi: int)
    requires ClockForward(h) && (h == [] || h[|h| - 1].at < lo)
    ensures Granted(a, p, h, lo, hi) == 0
    decreases |h|
  {
    if h != [] {
      NothingAfterTheLast(a, p, h[..|h| - 1], lo, hi);
    }
  }

  /** Since `start`, and in the length of a window before it, at most the limit was granted each time. */
  ghost predicate TwoStretches(a: Adapter, p: Policy, h: seq<Call>, start: int, hi: int) {
    && Granted(a, p, h, start, hi) <= Max(0, p.limit)
    && Granted(a, p, h, start - p.window + 1, start) <= Max(0, p.limit)
  }

  /** `hi` is past the last call. The open window accounts for everything granted since it started. */
  ghost predicate WindowAccounts(p: Policy, h: seq<Call>, hi: int) {
    h != [] ==>
      var w := MemoryRun(p, h).value;
      && w.startedAt <= h[|h| - 1].at < Min(hi, w.startedAt + p.window)
      && Granted(InMemory, p, h, w.startedAt, hi) == w.used
      && TwoStretches(InMemory, p, h, w.startedAt, hi)
  }

  lemma {:induction false} RunsAccount(p: Policy, h: seq<Call>, hi: int)
    requires p.window > 0 && ClockForward(h) && CostsAtLeast(h, 0) && After(h, hi - 1)
    ensures WindowAccounts(p, h, hi)
    decreases |h|
  {
    if h != [] {
      var (before, last) := (h[..|h| - 1], h[|h| - 1]);
      RunsAccount(p, before, hi);
      var w := MemoryRun(p, before);
      if w.None? || last.at - w.value.startedAt >= p.window {
        NothingAfterTheLast(InMemory, p, before, last.at, hi);
        if w.Some? {
          WiderGrantsMore(InMemory, p, before, last.at - p.window + 1, last.at, w.value.startedAt, hi);
        }
      }
    }
  }

  /** The same for the counter, which goes on counting what it refuses. */
  ghost predicate CounterAccounts(p: Policy, h: seq<Call>, hi: int) {
    h != [] ==>
      && RedisRun(p, h).Some? && RedisRun(p, h).value.lastTick.Some?
      && var k := RedisRun(p, h).value;
         var start := k.lastTick.value - p.window;
         && start <= h[|h| - 1].at < hi && h[|h| - 1].at <= k.lastTick.value
         && Granted(InRedis, p, h, start, hi) <= k.value
         && TwoStretches(InRedis, p, h, start, hi)
  }

  /** The first call of a window: the one before it, if any, has ended. */
  lemma CounterStarts(p: Policy, h: seq<Call>, hi: int)
    requires p.window > 0 && ClockForward(h) && CostsAtLeast(h, 0) && After(h, hi - 1) && h != []
    requires var (before, last) := (h[..|h| - 1], h[|h| - 1]);
             CounterAccounts(p, before, hi) && Existing(RedisRun(p, before), last.at).None?
    ensures CounterAccounts(p, h, hi)
  {
    var (before, last) := (h[..|h| - 1], h[|h| - 1]);
    NothingAfterTheLast(InRedis, p, before, last.at, hi);
    if before != [] {
      var start := RedisRun(p, before).value.lastTick.value - p.window;
      WiderGrantsMore(InRedis, p, before, last.at - p.window + 1, last.at, start, hi);
    }
  }

  /** While only free calls were counted, each call starts the window again. */
  lemma CounterStartsAgain(p: Policy, h: seq<Call>, hi: int)
    requires p.window > 0 && ClockForward(h) && CostsAtLeast(h, 0) && After(h, hi - 1) && |h| > 1
    requires var (before, last) := (h[..|h| - 1], h[|h| - 1]);
             && CounterAccounts(p, before, hi)
             && Existing(RedisRun(p, before), last.at).Some? && RedisRun(p, before).value.value == 0
    ensures CounterAccounts(p, h, hi)
  {
    var (before, last) := (h[..|h| - 1], h[|h| - 1]);
    var start := RedisRun(p, before).value.lastTick.value - p.window;
    WiderGrantsMore(InRedis, p, before, last.at, hi, start, hi);
    var from := Min(start, last.at - p.window + 1);
    GrantsAddUp(InRedis, p, before, from, start, last.at);
    WiderGrantsMore(InRedis, p, before, last.at - p.window + 1, last.at, from, last.at);
    WiderGrantsMore(InRedis, p, before, start, last.at, start, hi);
    WiderGrantsMore(InRedis, p, before, from, start, start - p.window + 1, start);
  }

  lemma {:induction false} CountersAccount(p: Policy, h: seq<Call>, hi: int)
    requires p.window > 0 && ClockForward(h) && CostsAtLeast(h, 0) && After(h, hi - 1)
    ensures CounterAccounts(p, h, hi)
    decreases |h|
  {
    if h != [] {
      var (before, last) := (h[..|h| - 1], h[|h| - 1]);
      CountersAccount(p, before, hi);
      if Existing(RedisRun(p, before), last.at).None? {
        CounterStarts(p, h, hi);
      } else if RedisRun(p, before).value.value == 0 {
        CounterStartsAgain(p, h, hi);
      }
    }
  }

  /** Up to the last call, no stretch of one window length was granted more than twice the limit. */
  lemma StretchUpToNow(a: Adapter, p: Policy, h: seq<Call>, lo: int, hi: int)
    requires p.window > 0 && ClockForward(h) && CostsAtLeast(h, 0) && After(h, hi - 1) && hi <= lo + p.window
    requires h != [] && lo <= h[|h| - 1].at
    ensures Granted(a, p, h, lo, hi) <= 2 * Max(0, p.limit)
  {
    RunsAccount(p, h, hi);
    CountersAccount(p, h, hi);
    var start := if a.InMemory? then MemoryRun(p, h).value.startedAt
                 else RedisRun(p, h).value.lastTick.value - p.window;
    var from := Min(lo, start);
    WiderGrantsMore(a, p, h, lo, hi, from, hi);
    GrantsAddUp(a, p, h, from, start, hi);
    WiderGrantsMore(a, p, h, from, start, start - p.window + 1, start);
  }

  /** In any half-open interval of one window length, the grants of either adapter cost at most twice the limit. */
  lemma {:induction false} AtMostTwiceTheLimit(a: Adapter, p: Policy, h: seq<Call>, lo: int)
    requires ClockForward(h) && CostsAtLeast(h, 0)
    ensures Granted(a, p, h, lo, lo + p.window) <= Max(0, 2 * p.limit)
    decreases |h|
  {
    if h != [] {
      var (before, last) := (h[..|h| - 1], h[|h| - 1]);
      if lo <= last.at < lo + p.window {
        StretchUpToNow(a, p, h, lo, lo + p.window);
      } else {
        AtMostTwiceTheLimit(a, p, before, lo);
      }
    }
  }

  /** The bound is exact: a burst at the end of one window and one at the start of the next. */
  lemma TwiceTheLimitIsReached(p: Policy)
    requires p.limit >= 0 && p.window >= 2
    ensures var h := [Call(0, 0), Call(p.limit, p.window - 1), Call(p.limit, p.window)];
            && ClockForward(h) && CostsAtLeast(h, 0)
            && Granted(InMemory, p, h, p.window - 1, 2 * p.window - 1) == 2 * p.limit
  {
    var (a, b, c) := (Call(0, 0), Call(p.limit, p.window - 1), Call(p.limit, p.window));
    assert [a, b, c][..2] == [a, b] && [a, b][..1] == [a] && [a][..0] == [];
    assert MemoryRun(p, [a]) == Some(Window(0, 0));
    assert MemoryRun(p, [a, b]) == Some(Window(0, p.limit));
    assert Granted(InMemory, p, [a], p.window - 1, 2 * p.window - 1) == 0;
    assert Granted(InMemory, p, [a, b], p.window - 1, 2 * p.window - 1) == p.limit;
  }

  // ----- the two compared

  /** The one tick at which memory has forgotten a window and Redis has not. */
  predicate OnLastTick(k: Option<Counter>, now: int) {
    k.Some? && k.value.lastTick == Some(now)
  }

  ghost predicate OffLastTicks(p: Policy, h: seq<Call>)
    decreases |h|
  {
    h == [] || (OffLastTicks(p, h[..|h| - 1]) && !OnLastTick(RedisRun(p, h[..|h| - 1]), h[|h| - 1].at))
  }

  /** Both windows end together, and Redis has counted at least what memory has used. */
  ghost predicate InStep(w: Option<Window>, k: Option<Counter>, p: Policy) {
    match (w, k)
    case (None, None) => true
    case (Some(_), None) => p.window <= 0
    case (Some(w), Some(k)) => k.lastTick == Some(w.startedAt + p.window) && 0 <= w.used <= k.value && k.value >= 1
    case _ => false
  }

  lemma {:induction false} RunsStayInStep(p: Policy, h: seq<Call>)
    requires ClockForward(h) && CostsAtLeast(h, 1) && OffLastTicks(p, h)
    ensures InStep(MemoryRun(p, h), RedisRun(p, h), p)
    ensures h != [] ==> MemoryRun(p, h).value.startedAt <= h[|h| - 1].at
    decreases |h|
  {
    if h != [] {
      RunsStayInStep(p, h[..|h| - 1]);
    }
  }

  /** What Redis lets through, memory would have let through after the same calls. */
  lemma RedisGrantsFewer(p: Policy, h: seq<Call>, next: Call)
    requires ClockForward(h) && CostsAtLeast(h, 1) && OffLastTicks(p, h) && After(h, next.at) && next.cost >= 1
    ensures Allows(InRedis, p, h, next) ==> Allows(InMemory, p, h, next)
  {
    RunsStayInStep(p, h);
  }

  ghost predicate CostsAre(h: seq<Call>, cost: int) {
    forall i :: 0 <= i < |h| ==> h[i].cost == cost
  }

  /** With equal costs the counts only part once neither limiter lets anything more through. */
  lemma {:induction false} EqualCostsPartOnlyWhenFull(p: Policy, h: seq<Call>, cost: int)
    requires ClockForward(h) && CostsAre(h, cost) && cost >= 1 && OffLastTicks(p, h) && h != []
    ensures InStep(MemoryRun(p, h), RedisRun(p, h), p)
    ensures var (used, k) := (MemoryRun(p, h).value.used, RedisRun(p, h));
            k.None? || used == k.value.value || used + cost > p.limit
    decreases |h|
  {
    RunsStayInStep(p, h);
    RunsStayInStep(p, h[..|h| - 1]);
    if |h| > 1 {
      EqualCostsPartOnlyWhenFull(p, h[..|h| - 1], cost);
    }
  }

  lemma EqualCostsEqualAnswers(p: Policy, h: seq<Call>, next: Call)
    requires ClockForward(h) && CostsAre(h, next.cost) && After(h, next.at) && next.cost >= 1
    requires OffLastTicks(p, h) && !OnLastTick(RedisRun(p, h), next.at)
    ensures Allows(InRedis, p, h, next) <==> Allows(InMemory, p, h, next)
  {
    RunsStayInStep(p, h);
    if h != [] {
      EqualCostsPartOnlyWhenFull(p, h, next.cost);
    }
  }

  // ----- and on every tick

  /** Calls of positive cost on a clock that does not go back. */
  ghost predicate Plausible(h: seq<Call>, next: Call) {
    ClockForward(h) && CostsAtLeast(h, 1) && After(h, next.at) && next.cost >= 1
  }

  /** Redis never lets through what memory would not, last ticks included. */
  ghost predicate RedisAlwaysGrantsFewer(p: Policy) {
    forall h, next :: Plausible(h, next) && Allows(InRedis, p, h, next) ==> Allows(InMemory, p, h, next)
  }

  /** Calls of one cost are always answered alike. */
  ghost predicate EqualCostsAlwaysAgree(p: Policy) {
    forall h, next :: Plausible(h, next) && CostsAre(h, next.cost) ==>
      (Allows(InRedis, p, h, next) <==> Allows(InMemory, p, h, next))
  }

  /** What positive costs leave in either adapter. */
  lemma {:induction false} CountsArePositive(p: Policy, h: seq<Call>)
    requires CostsAtLeast(h, 1)
    ensures MemoryRun(p, h).Some? ==> MemoryRun(p, h).value.used >= 0
    ensures RedisRun(p, h).Some? ==> RedisRun(p, h).value.value >= 1
    decreases |h|
  {
    if h != [] {
      CountsArePositive(p, h[..|h| - 1]);
    }
  }

  /** A window of one tick, or less, is over when the clock moves on. */
  lemma {:induction false} ShortWindows(p: Policy, h: seq<Call>)
    requires ClockForward(h) && CostsAtLeast(h, 1) && p.window <= 1 && h != []
    ensures var (w, k, now) := (MemoryRun(p, h), RedisRun(p, h), h[|h| - 1].at);
            && w.value.startedAt == now
            && (p.window <= 0 ==> k.None?)
            && (p.window == 1 ==>
                  k.Some? && k.value.lastTick.Some? && now <= k.value.lastTick.value && w.value.used <= k.value.value)
    decreases |h|
  {
    CountsArePositive(p, h[..|h| - 1]);
    if |h| > 1 {
      ShortWindows(p, h[..|h| - 1]);
    }
  }

  /** A call of the whole limit, another on the last tick of its window in Redis, and one right after that. */
  lemma CallOnTheLastTick(p: Policy)
    requires p.limit >= 1 && p.window >= 1
    ensures var (one, two) := ([Call(p.limit, 0)], [Call(p.limit, 0), Call(p.limit, p.window)]);
            && Allows(InMemory, p, one, two[1]) && !Allows(InRedis, p, one, two[1])
            && Allows(InRedis, p, two, Call(p.limit, p.window + 1))
            && (Allows(InMemory, p, two, Call(p.limit, p.window + 1)) <==> p.window == 1)
  {
    var (one, two) := ([Call(p.limit, 0)], [Call(p.limit, 0), Call(p.limit, p.window)]);
    assert two[..1] == one && one[..0] == [];
    assert MemoryRun(p, one) == Some(Window(0, p.limit));
    assert MemoryRun(p, two) == Some(Window(p.window, p.limit));
    assert RedisRun(p, one) == Some(Counter(p.limit, Some(p.window)));
    assert RedisRun(p, two) == Some(Counter(2 * p.limit, Some(p.window)));
  }

  /** Redis grants no more than memory in all histories if and only if nothing fits or windows are one tick or less. */
  lemma RedisAlwaysGrantsFewerIff(p: Policy)
    ensures RedisAlwaysGrantsFewer(p) <==> p.limit < 1 || p.window <= 1
  {
    if p.limit < 1 || p.window <= 1 {
      forall h, next | Plausible(h, next) && Allows(InRedis, p, h, next)
        ensures Allows(InMemory, p, h, next)
      {
        CountsArePositive(p, h);
        if p.window <= 1 && h != [] {
          ShortWindows(p, h);
        }
      }
    } else {
      CallOnTheLastTick(p);
      assert Plausible([Call(p.limit, 0), Call(p.limit, p.window)], Call(p.limit, p.window + 1));
    }
  }

  /** And calls of one cost are answered alike in all of them if and only if nothing fits or nothing lasts. */
  lemma EqualCostsAlwaysAgreeIff(p: Policy)
    ensures EqualCostsAlwaysAgree(p) <==> p.limit < 1 || p.window <= 0
  {
    if p.limit < 1 || p.window <= 0 {
      forall h, next | Plausible(h, next) && CostsAre(h, next.cost)
        ensures Allows(InRedis, p, h, next) <==> Allows(InMemory, p, h, next)
      {
        CountsArePositive(p, h);
        if p.window <= 0 && h != [] {
          ShortWindows(p, h);
        }
      }
    } else {
      CallOnTheLastTick(p);
      assert Plausible([Call(p.limit, 0)], Call(p.limit, p.window));
    }
  }

  /**
   A refused caller whose cost fits the limit at all, and that comes back alone: memory lets it in
   exactly when `retryAfter` has passed, Redis a tick later, when its key has gone.
   */
  lemma RetryAfterIsExact(p: Policy, h: seq<Call>, refused: Call, wait: nat)
    requires ClockForward(h) && CostsAtLeast(h, 1) && After(h, refused.at) && 1 <= refused.cost <= p.limit
    ensures var (w, d) := (MemoryRun(p, h), MemoryDecision(MemoryRun(p, h), p, refused));
            var again := MemoryAllows(Some(MemoryAfter(w, p, refused)), p, refused.(at := refused.at + wait));
            !d.allowed ==> (again <==> wait >= d.retryAfter)
    ensures var (k, d) := (RedisRun(p, h), RedisDecision(RedisRun(p, h), p, refused));
            var again := RedisAllows(RedisAfter(k, p, refused), p, refused.(at := refused.at + wait));
            !d.allowed ==> (again <==> wait > d.retryAfter)
  {
    CountsArePositive(p, h);
    CountersExpire(p, h);
  }

  /** `remaining` is exact: right after the decision that much more, and no more, is let through. */
  lemma RemainingIsExact(p: Policy, h: seq<Call>, c: Call, cost: int)
    requires p.window > 0 && CostsAtLeast(h, 1) && c.cost >= 1 && cost >= 1
    ensures var (w, d) := (MemoryRun(p, h), MemoryDecision(MemoryRun(p, h), p, c));
            && (d.allowed <==> Allows(InMemory, p, h, c)) && (d.allowed ==> d.retryAfter == 0)
            && (MemoryAllows(Some(MemoryAfter(w, p, c)), p, Call(cost, c.at)) <==> cost <= d.remaining)
    ensures var (k, d) := (RedisRun(p, h), RedisDecision(RedisRun(p, h), p, c));
            && (d.allowed <==> Allows(InRedis, p, h, c)) && (d.allowed ==> d.retryAfter == 0)
            && (RedisAllows(RedisAfter(k, p, c), p, Call(cost, c.at)) <==> cost <= d.remaining)
  {
    CountsArePositive(p, h);
    CountersExpire(p, h);
  }

  lemma {:induction false} CountersExpire(p: Policy, h: seq<Call>)
    requires CostsAtLeast(h, 1)
    ensures RedisRun(p, h).Some? ==> RedisRun(p, h).value.lastTick.Some?
    decreases |h|
  {
    if h != [] {
      CountersExpire(p, h[..|h| - 1]);
    }
  }
}
