/**
 The signing-key cache. A call of `get` runs in atomic pieces: the look before the
 lock, the decision inside it, and the end of a fetch. Between pieces any other call
 may run, time may pass and a call may be cancelled. Times are ticks of one clock.
 */
module Jwks {
  import opened Base

  /** A key PyJWT could build. `keyId` is `None` also for an id that is not a string, because nobody asks for one. */
  datatype Jwk = Jwk(keyId: Option<string>, material: int)

  type KeySet = map<string, Jwk>

  datatype Policy = Policy(ttl: int, minRefresh: int, maxStale: int)

  /** The fields of the cache; `None` for minus infinity. */
  datatype Cache = Cache(
    keys: KeySet,
    fetchedAt: Option<int>,
    lastAttempt: Option<int>,
    lastAttemptFailed: bool,
    locked: bool)

  datatype Answer = Found(key: Jwk) | NoSuchKey | Unavailable

  datatype Verdict = Answered(answer: Answer) | MustFetch

  // ----- the pieces of `get`

  /** `_age() < bound` */
  predicate YoungerThan(c: Cache, bound: int, now: int) {
    c.fetchedAt.Some? && now - c.fetchedAt.value < bound
  }

  predicate Throttled(c: Cache, p: Policy, now: int) {
    c.lastAttempt.Some? && now - c.lastAttempt.value < p.minRefresh
  }

  function Report(key: Option<Jwk>): Answer {
    if key.Some? then Found(key.value) else NoSuchKey
  }

  function FastPath(c: Cache, p: Policy, kid: string, now: int): Option<Jwk> {
    if kid in c.keys && (YoungerThan(c, p.ttl, now) || c.locked) then Some(c.keys[kid]) else None
  }

  function WithinGrace(c: Cache, p: Policy, key: Option<Jwk>, now: int): Answer {
    if key.None? || !YoungerThan(c, p.maxStale, now) then Unavailable else Found(key.value)
  }

  /** What the holder of the lock decides before it would fetch. */
  function Decision(c: Cache, p: Policy, kid: string, now: int): Verdict {
    var key := Lookup(c.keys, kid);
    if key.Some? && YoungerThan(c, p.ttl, now) then Answered(Found(key.value))
    else if Throttled(c, p, now) then
      Answered(if c.lastAttemptFailed then WithinGrace(c, p, key, now) else Report(key))
    else MustFetch
  }

  function AfterDecision(c: Cache, p: Policy, kid: string, now: int): Cache {
    if Decision(c, p, kid, now).MustFetch? then c.(lastAttempt := Some(now), locked := true) else c
  }

  function AfterFetch(c: Cache, fetched: KeySet, now: int): Cache {
    c.(keys := fetched, fetchedAt := Some(now), lastAttemptFailed := false, locked := false)
  }

  function AfterFailure(c: Cache): Cache {
    c.(lastAttemptFailed := true, locked := false)
  }

  class JwksCache {
    const policy: Policy
    var keys: KeySet
    var fetchedAt: Option<int>
    var lastAttempt: Option<int>
    var lastAttemptFailed: bool
    var locked: bool

    constructor (policy: Policy)
      ensures this.policy == policy && Value() == Cache(map[], None, None, false, false)
    {
      this.policy := policy;
      keys, fetchedAt, lastAttempt, lastAttemptFailed, locked := map[], None, None, false, false;
    }

    function Value(): Cache
      reads this
    {
      Cache(keys, fetchedAt, lastAttempt, lastAttemptFailed, locked)
    }

    function Stale(now: int): bool
      reads this
    {
      fetchedAt.None? || now - fetchedAt.value >= policy.ttl
    }

    method BeforeLock(kid: string, now: int) returns (hit: Option<Jwk>)
      ensures hit == FastPath(Value(), policy, kid, now)
    {
      var key := Lookup(keys, kid);
      if key.Some? && (!Stale(now) || locked) {
        return key;
      }
      return None;
    }

    method ServeWithinGrace(key: Option<Jwk>, now: int) returns (answer: Answer)
      ensures answer == WithinGrace(Value(), policy, key, now)
    {
      if key.None? || fetchedAt.None? || now - fetchedAt.value >= policy.maxStale {
        return Unavailable;
      }
      return Found(key.value);
    }

    /** Under the lock, up to an answer or to the start of a fetch, which keeps the lock. */
    method Enter(kid: string, now: int) returns (verdict: Verdict)
      requires !locked
      modifies this
      ensures verdict == Decision(old(Value()), policy, kid, now)
      ensures Value() == AfterDecision(old(Value()), policy, kid, now)
    {
      var key := Lookup(keys, kid);
      if key.Some? && !Stale(now) {
        return Answered(Found(key.value));
      }
      if lastAttempt.Some? && now - lastAttempt.value < policy.minRefresh {
        if lastAttemptFailed {
          var answer := ServeWithinGrace(key, now);
          return Answered(answer);
        }
        return Answered(Report(key));
      }
      locked := true;
      lastAttempt := Some(now);
      return MustFetch;
    }

    method FetchEnded(kid: string, key: Option<Jwk>, fetched: Option<KeySet>, now: int) returns (answer: Answer)
      requires locked && key == Lookup(keys, kid)
      modifies this
      ensures Value() ==
              if fetched.Some? then AfterFetch(old(Value()), fetched.value, now) else AfterFailure(old(Value()))
      ensures answer ==
              if fetched.Some? then Report(Lookup(fetched.value, kid)) else WithinGrace(old(Value()), policy, key, now)
    {
      locked := false;
      if fetched.None? {
        lastAttemptFailed := true;
        if key.None? {
          return Unavailable;
        }
        answer := ServeWithinGrace(key, now);
        return answer;
      }
      keys := fetched.value;
      fetchedAt := Some(now);
      lastAttemptFailed := false;
      return Report(Lookup(keys, kid));
    }
  }

  // ----- any number of calls

  datatype Pc = Waiting(kid: string) | Fetching(kid: string)

  datatype Event =
    | Ask(kid: string)
    | Enter
    | FetchOk(fetched: KeySet)
    | FetchFailed
    | Cancel

  /** How the last finished fetch ended. */
  datatype Outcome = NotYet | Delivered | Failed

  /** Call `id` takes a step at `at`. */
  datatype Action = Action(id: nat, event: Event, at: int)

  /**
   The cache, the calls that have not returned, and what an observer of the provider
   knows: when fetches started, how the last finished one ended, and the last key set
   it delivered with the time of its arrival.
   */
  datatype State = State(
    cache: Cache,
    calls: map<nat, Pc>,
    clock: int,
    attempts: seq<int>,
    lastFinished: Outcome,
    published: Option<KeySet>,
    publishedAt: int)

  function Start(clock: int): State {
    State(Cache(map[], None, None, false, false), map[], clock, [], NotYet, None, clock)
  }

  predicate Enabled(s: State, a: Action) {
    && a.at >= s.clock
    && match a.event
       case Ask(_) => a.id !in s.calls
       case Enter => a.id in s.calls && s.calls[a.id].Waiting? && !s.cache.locked
       case FetchOk(_) => a.id in s.calls && s.calls[a.id].Fetching?
       case FetchFailed => a.id in s.calls && s.calls[a.id].Fetching?
       case Cancel => a.id in s.calls
  }

  /** What the call returns to its caller in this step, if it returns. */
  function Answers(p: Policy, s: State, a: Action): Option<Answer>
    requires Enabled(s, a)
  {
    match a.event
    case Ask(kid) =>
      var hit := FastPath(s.cache, p, kid, a.at);
      if hit.Some? then Some(Found(hit.value)) else None
    case Enter =>
      var verdict := Decision(s.cache, p, s.calls[a.id].kid, a.at);
      if verdict.Answered? then Some(verdict.answer) else None
    case FetchOk(fetched) => Some(Report(Lookup(fetched, s.calls[a.id].kid)))
    case FetchFailed => Some(WithinGrace(s.cache, p, Lookup(s.cache.keys, s.calls[a.id].kid), a.at))
    case Cancel => None
  }

  function KidOf(s: State, a: Action): string
    requires Enabled(s, a)
  {
    if a.event.Ask? then a.event.kid else s.calls[a.id].kid
  }

  function Next(p: Policy, s: State, a: Action): State
    requires Enabled(s, a)
  {
    match a.event
    case Ask(kid) =>
      if FastPath(s.cache, p, kid, a.at).Some? then s.(clock := a.at)
      else s.(clock := a.at, calls := s.calls[a.id := Waiting(kid)])
    case Enter =>
      var kid := s.calls[a.id].kid;
      if Decision(s.cache, p, kid, a.at).MustFetch? then
        s.(clock := a.at, cache := AfterDecision(s.cache, p, kid, a.at), calls := s.calls[a.id := Fetching(kid)],
           attempts := s.attempts + [a.at])
      else s.(clock := a.at, calls := s.calls - {a.id})
    case FetchOk(fetched) =>
      s.(clock := a.at, cache := AfterFetch(s.cache, fetched, a.at), calls := s.calls - {a.id},
         lastFinished := Delivered, published := Some(fetched), publishedAt := a.at)
    case FetchFailed =>
      s.(clock := a.at, cache := AfterFailure(s.cache), calls := s.calls - {a.id}, lastFinished := Failed)
    case Cancel =>
      var cache := if s.calls[a.id].Fetching? then s.cache.(locked := false) else s.cache;
      s.(clock := a.at, cache := cache, calls := s.calls - {a.id})
  }

  /** Every step of the run was enabled when it was taken. */
  predicate IsRun(p: Policy, clock: int, run: seq<Action>)
    decreases |run|, 0
  {
    run == [] || (IsRun(p, clock, run[..|run| - 1]) && Enabled(End(p, clock, run[..|run| - 1]), run[|run| - 1]))
  }

  function End(p: Policy, clock: int, run: seq<Action>): State
    requires IsRun(p, clock, run)
    decreases |run|, 1
  {
    if run == [] then Start(clock) else Next(p, End(p, clock, run[..|run| - 1]), run[|run| - 1])
  }

  ghost predicate NoCancels(run: seq<Action>) {
    forall i :: 0 <= i < |run| ==> !run[i].event.Cancel?
  }

  // ----- what every run keeps

  /** The keys are the last set delivered, the flag is the last outcome, and only a fetching call holds the lock. */
  ghost predicate Inv(s: State) {
    && (s.published.None? ==> s.cache.keys == map[] && s.cache.fetchedAt.None?)
    && (s.published.Some? ==>
          s.cache.keys == s.published.value && s.cache.fetchedAt == Some(s.publishedAt) && s.publishedAt <= s.clock)
    && s.cache.lastAttemptFailed == (s.lastFinished == Failed)
    && (s.lastFinished == Delivered ==> s.published.Some?)
    && s.cache.lastAttempt == (if s.attempts == [] then None else Some(s.attempts[|s.attempts| - 1]))
    && (s.attempts != [] ==> s.attempts[|s.attempts| - 1] <= s.clock)
    && OneFetch(s)
  }

  /** At most one call is fetching, and the lock is held exactly while one is. */
  ghost predicate OneFetch(s: State) {
    && (forall c, d :: c in s.calls && d in s.calls && s.calls[c].Fetching? && s.calls[d].Fetching? ==> c == d)
    && (s.cache.locked <==> exists c :: c in s.calls && s.calls[c].Fetching?)
  }

  lemma StepKeepsOneFetch(p: Policy, s: State, a: Action)
    requires Inv(s) && Enabled(s, a)
    ensures OneFetch(Next(p, s, a))
  {
    var s' := Next(p, s, a);
    if a.event.Enter? && Decision(s.cache, p, s.calls[a.id].kid, a.at).MustFetch? {
      assert s'.calls[a.id].Fetching?;
    } else if s.cache.locked {
      var c :| c in s.calls && s.calls[c].Fetching?;
      assert s'.cache.locked ==> c in s'.calls && s'.calls[c].Fetching?;
    }
  }

  lemma {:induction false} RunsKeepInv(p: Policy, clock: int, run: seq<Action>)
    requires IsRun(p, clock, run)
    ensures Inv(End(p, clock, run))
    decreases |run|
  {
    if run != [] {
      var (rest, a) := (run[..|run| - 1], run[|run| - 1]);
      var before := End(p, clock, rest);
      RunsKeepInv(p, clock, rest);
      StepKeepsOneFetch(p, before, a);
    }
  }

  /** Without cancellation an attempt that is not in flight has finished, and a success is as young as its attempt. */
  ghost predicate Settled(s: State) {
    && (s.attempts != [] && !s.cache.locked ==> s.lastFinished != NotYet)
    && (s.attempts != [] && !s.cache.locked && s.lastFinished == Delivered ==>
          s.published.Some? && s.publishedAt >= s.attempts[|s.attempts| - 1])
  }

  lemma {:induction false} RunsSettle(p: Policy, clock: int, run: seq<Action>)
    requires IsRun(p, clock, run) && NoCancels(run)
    ensures Settled(End(p, clock, run))
    decreases |run|
  {
    if run != [] {
      var (rest, a) := (run[..|run| - 1], run[|run| - 1]);
      var before := End(p, clock, rest);
      RunsSettle(p, clock, rest);
      RunsKeepInv(p, clock, rest);
    }
  }

  // ----- the promises

  /** A returned key is in the set most recently delivered at the moment of return, cancellations or not. */
  lemma ReturnedKeyIsPublished(p: Policy, clock: int, run: seq<Action>, s: State, a: Action, key: Jwk)
    requires IsRun(p, clock, run) && s == End(p, clock, run) && Enabled(s, a) && Answers(p, s, a) == Some(Found(key))
    ensures Next(p, s, a).published.Some? && Lookup(Next(p, s, a).published.value, KidOf(s, a)) == Some(key)
  {
    RunsKeepInv(p, clock, run);
  }

  /** Older than this, no rule of the cache lets a key out of the lock. */
  function AgeLimit(p: Policy): int {
    Max(p.ttl, Max(p.minRefresh, p.maxStale))
  }

  ghost predicate IsFresh(p: Policy, s: State, a: Action) {
    a.event.FetchOk? || a.at - s.publishedAt < AgeLimit(p)
  }

  /** A key returned from inside the lock was just fetched by that call, or its set is young enough. */
  lemma LockedAnswersAreFresh(p: Policy, clock: int, run: seq<Action>, s: State, a: Action, key: Jwk)
    requires IsRun(p, clock, run) && s == End(p, clock, run) && NoCancels(run) && Enabled(s, a)
    requires Answers(p, s, a) == Some(Found(key)) && !a.event.Ask?
    ensures IsFresh(p, s, a)
  {
    RunsKeepInv(p, clock, run);
    RunsSettle(p, clock, run);
  }

  /** Served after a failure, in the throttle or at the end of a failed fetch, a key is below the grace ceiling. */
  lemma GraceHasACeiling(p: Policy, clock: int, run: seq<Action>, s: State, a: Action, key: Jwk)
    requires IsRun(p, clock, run) && s == End(p, clock, run) && Enabled(s, a) && Answers(p, s, a) == Some(Found(key))
    requires a.event.FetchFailed? || (a.event.Enter? && s.lastFinished == Failed)
    ensures a.at - s.publishedAt < Max(p.ttl, p.maxStale)
    ensures a.event.FetchFailed? ==> a.at - s.publishedAt < p.maxStale
  {
    RunsKeepInv(p, clock, run);
  }

  lemma AtMostOneFetch(p: Policy, clock: int, run: seq<Action>, s: State, c: nat, d: nat)
    requires IsRun(p, clock, run) && s == End(p, clock, run)
    requires c in s.calls && s.calls[c].Fetching? && d in s.calls && s.calls[d].Fetching?
    ensures c == d && s.cache.locked
  {
    RunsKeepInv(p, clock, run);
  }

  ghost predicate Spaced(times: seq<int>, gap: int) {
    forall i :: 0 < i < |times| ==> times[i] - times[i - 1] >= gap
  }

  /** Whatever key ids callers invent, fetches start at least `minRefresh` apart. */
  lemma {:induction false} AttemptsAreSpaced(p: Policy, clock: int, run: seq<Action>)
    requires IsRun(p, clock, run)
    ensures Spaced(End(p, clock, run).attempts, p.minRefresh)
    decreases |run|
  {
    if run != [] {
      var (rest, a) := (run[..|run| - 1], run[|run| - 1]);
      var before := End(p, clock, rest);
      AttemptsAreSpaced(p, clock, rest);
      RunsKeepInv(p, clock, rest);
    }
  }

  /** The last finished attempt delivered a set, and the set lacks the id. */
  ghost predicate IsDefinitive(p: Policy, s: State, a: Action)
    requires Enabled(s, a)
  {
    var s' := Next(p, s, a);
    s'.lastFinished == Delivered && s'.published.Some? && KidOf(s, a) !in s'.published.value
  }

  /** "No such key" is the provider's word: its last finished attempt succeeded and the set lacks the id. */
  lemma NoSuchKeyIsDefinitive(p: Policy, clock: int, run: seq<Action>, s: State, a: Action)
    requires IsRun(p, clock, run) && s == End(p, clock, run) && NoCancels(run)
    requires Enabled(s, a) && Answers(p, s, a) == Some(NoSuchKey)
    ensures IsDefinitive(p, s, a)
  {
    RunsKeepInv(p, clock, run);
    RunsSettle(p, clock, run);
  }

  /** With cancellations the same holds as soon as any attempt has finished, and only then. */
  lemma NoSuchKeyIsDefinitiveIff(p: Policy, clock: int, run: seq<Action>, s: State, a: Action)
    requires IsRun(p, clock, run) && s == End(p, clock, run)
    requires Enabled(s, a) && Answers(p, s, a) == Some(NoSuchKey)
    ensures IsDefinitive(p, s, a) <==> Next(p, s, a).lastFinished != NotYet
  {
    RunsKeepInv(p, clock, run);
  }

  /** "Unavailable" is an outage: the last finished attempt failed. */
  lemma UnavailableMeansFailure(p: Policy, clock: int, run: seq<Action>, s: State, a: Action)
    requires IsRun(p, clock, run) && s == End(p, clock, run) && Enabled(s, a) && Answers(p, s, a) == Some(Unavailable)
    ensures Next(p, s, a).lastFinished == Failed
  {
    RunsKeepInv(p, clock, run);
  }

  /** An id whose set is past its ttl is answered before the lock exactly while some call is fetching. */
  lemma FastPathServesOldKeysIff(p: Policy, clock: int, run: seq<Action>, s: State, a: Action)
    requires IsRun(p, clock, run) && s == End(p, clock, run) && Enabled(s, a) && a.event.Ask?
    requires s.published.Some? && a.event.kid in s.published.value && a.at - s.publishedAt >= p.ttl
    ensures Answers(p, s, a) == Some(Found(s.published.value[a.event.kid]))
       <==> exists c :: c in s.calls && s.calls[c].Fetching?
  {
    RunsKeepInv(p, clock, run);
  }

  /** A key past its ttl leaves by the fast path only while some call is fetching. */
  lemma FastPathIsOldOnlyDuringAFetch(p: Policy, clock: int, run: seq<Action>, s: State, a: Action, key: Jwk)
    requires IsRun(p, clock, run) && s == End(p, clock, run)
    requires Enabled(s, a) && a.event.Ask? && Answers(p, s, a) == Some(Found(key))
    ensures a.at - s.publishedAt < p.ttl || exists c :: c in s.calls && s.calls[c].Fetching?
  {
    ReturnedKeyIsPublished(p, clock, run, s, a, key);
    if a.at - s.publishedAt >= p.ttl {
      FastPathServesOldKeysIff(p, clock, run, s, a);
    }
  }

  // ----- limits of the promises

  lemma Extends(p: Policy, clock: int, run: seq<Action>, s: State, a: Action)
    requires IsRun(p, clock, run) && s == End(p, clock, run) && Enabled(s, a)
    ensures IsRun(p, clock, run + [a]) && End(p, clock, run + [a]) == Next(p, s, a)
  {
    assert (run + [a])[..|run + [a]| - 1] == run;
  }

  /** The key set `kid := key` is fetched at tick 0 by call 0. */
  lemma FetchedAtZero(p: Policy, kid: string, key: Jwk) returns (run: seq<Action>, s: State)
    ensures IsRun(p, 0, run) && s == End(p, 0, run) && NoCancels(run)
    ensures s == State(Cache(map[kid := key], Some(0), Some(0), false, false), map[], 0, [0], Delivered,
                       Some(map[kid := key]), 0)
  {
    var (ask, enter, ok) := (Action(0, Ask(kid), 0), Action(0, Enter, 0), Action(0, FetchOk(map[kid := key]), 0));
    var s0 := Start(0);
    Extends(p, 0, [], s0, ask);
    var s1 := Next(p, s0, ask);
    Extends(p, 0, [] + [ask], s1, enter);
    var s2 := Next(p, s1, enter);
    Extends(p, 0, [] + [ask] + [enter], s2, ok);
    run, s := [] + [ask] + [enter] + [ok], Next(p, s2, ok);
    assert s.calls == map[];
  }

  /**
   The fast path has no grace ceiling: at any age past the ttl and the throttle, while
   call 1 is fetching, call 2 is handed the old key.
   */
  lemma FastPathIgnoresTheCeiling(p: Policy, kid: string, key: Jwk, age: int) returns (run: seq<Action>, s: State)
    requires age >= p.ttl && age >= p.minRefresh && age >= 0
    ensures IsRun(p, 0, run) && s == End(p, 0, run) && NoCancels(run) && s.publishedAt == 0
    ensures Enabled(s, Action(2, Ask(kid), age)) && Answers(p, s, Action(2, Ask(kid), age)) == Some(Found(key))
  {
    var (ask, enter) := (Action(1, Ask(kid), age), Action(1, Enter, age));
    var run0, s0 := FetchedAtZero(p, kid, key);
    Extends(p, 0, run0, s0, ask);
    var s1 := Next(p, s0, ask);
    Extends(p, 0, run0 + [ask], s1, enter);
    run, s := run0 + [ask] + [enter], Next(p, s1, enter);
  }

  /** A cancelled fetch still throttles: with no outcome at all, a caller is told there is no such key. */
  lemma CancelledFirstFetchSaysNoSuchKey(p: Policy, kid: string) returns (run: seq<Action>, s: State)
    requires p.minRefresh > 0
    ensures IsRun(p, 0, run) && s == End(p, 0, run) && s.lastFinished == NotYet
    ensures Enabled(s, Action(1, Enter, 0)) && Answers(p, s, Action(1, Enter, 0)) == Some(NoSuchKey)
  {
    var (ask, enter) := (Action(0, Ask(kid), 0), Action(0, Enter, 0));
    var (cancel, again) := (Action(0, Cancel, 0), Action(1, Ask(kid), 0));
    var s0 := Start(0);
    Extends(p, 0, [], s0, ask);
    var s1 := Next(p, s0, ask);
    Extends(p, 0, [] + [ask], s1, enter);
    var s2 := Next(p, s1, enter);
    Extends(p, 0, [] + [ask] + [enter], s2, cancel);
    var s3 := Next(p, s2, cancel);
    Extends(p, 0, [] + [ask] + [enter] + [cancel], s3, again);
    run, s := [] + [ask] + [enter] + [cancel] + [again], Next(p, s3, again);
  }

  /**
   A cancelled refetch throttles too, and leaves the flag at success: at any age past the ttl
   and the throttle, the next holder of the lock returns the old key.
   */
  lemma CancelledRefetchServesAnyAge(p: Policy, kid: string, key: Jwk, age: int) returns (run: seq<Action>, s: State)
    requires p.minRefresh > 0 && age >= p.ttl && age >= p.minRefresh
    ensures IsRun(p, 0, run) && s == End(p, 0, run) && s.publishedAt == 0
    ensures Enabled(s, Action(2, Enter, age)) && Answers(p, s, Action(2, Enter, age)) == Some(Found(key))
  {
    var (ask, enter) := (Action(1, Ask(kid), age), Action(1, Enter, age));
    var (cancel, again) := (Action(1, Cancel, age), Action(2, Ask(kid), age));
    var run0, s0 := FetchedAtZero(p, kid, key);
    Extends(p, 0, run0, s0, ask);
    var s1 := Next(p, s0, ask);
    Extends(p, 0, run0 + [ask], s1, enter);
    var s2 := Next(p, s1, enter);
    Extends(p, 0, run0 + [ask] + [enter], s2, cancel);
    var s3 := Next(p, s2, cancel);
    Extends(p, 0, run0 + [ask] + [enter] + [cancel], s3, again);
    run, s := run0 + [ask] + [enter] + [cancel] + [again], Next(p, s3, again);
  }

  // ----- with cancellations, exactly when

  /** Without a refresh floor nothing is throttled: every attempt is in the past. */
  lemma NoFloorNoThrottle(p: Policy, clock: int, run: seq<Action>, s: State, a: Action)
    requires p.minRefresh <= 0 && IsRun(p, clock, run) && s == End(p, clock, run) && Enabled(s, a)
    ensures !Throttled(s.cache, p, a.at)
  {
    RunsKeepInv(p, clock, run);
  }

  /** Every "no such key", in every run, is definitive. */
  ghost predicate AlwaysDefinitive(p: Policy) {
    forall clock, run, a ::
      IsRun(p, clock, run) && Enabled(End(p, clock, run), a) && Answers(p, End(p, clock, run), a) == Some(NoSuchKey) ==>
        IsDefinitive(p, End(p, clock, run), a)
  }

  /** With cancellations the promise holds in all runs if and only if there is no refresh floor. */
  lemma AlwaysDefinitiveIff(p: Policy)
    ensures AlwaysDefinitive(p) <==> p.minRefresh <= 0
  {
    if p.minRefresh <= 0 {
      forall clock, run, a |
        IsRun(p, clock, run) && Enabled(End(p, clock, run), a) && Answers(p, End(p, clock, run), a) == Some(NoSuchKey)
        ensures IsDefinitive(p, End(p, clock, run), a)
      {
        NoFloorNoThrottle(p, clock, run, End(p, clock, run), a);
        RunsKeepInv(p, clock, run);
      }
    } else {
      var run, s := CancelledFirstFetchSaysNoSuchKey(p, "");
      assert !IsDefinitive(p, s, Action(1, Enter, 0));
    }
  }

  /** Every key that leaves the lock, in every run, is fresh. */
  ghost predicate AlwaysFresh(p: Policy) {
    forall clock, run, a ::
      IsRun(p, clock, run) && Enabled(End(p, clock, run), a) && !a.event.Ask? && FindsKey(p, End(p, clock, run), a) ==>
        IsFresh(p, End(p, clock, run), a)
  }

  ghost predicate FindsKey(p: Policy, s: State, a: Action)
    requires Enabled(s, a)
  {
    Answers(p, s, a).Some? && Answers(p, s, a).value.Found?
  }

  lemma AlwaysFreshIff(p: Policy)
    ensures AlwaysFresh(p) <==> p.minRefresh <= 0
  {
    if p.minRefresh <= 0 {
      forall clock, run, a |
        IsRun(p, clock, run) && Enabled(End(p, clock, run), a) && !a.event.Ask? && FindsKey(p, End(p, clock, run), a)
        ensures IsFresh(p, End(p, clock, run), a)
      {
        NoFloorNoThrottle(p, clock, run, End(p, clock, run), a);
        RunsKeepInv(p, clock, run);
      }
    } else {
      var run, s := CancelledRefetchServesAnyAge(p, "", Jwk(None, 0), AgeLimit(p));
      assert !IsFresh(p, s, Action(2, Enter, AgeLimit(p)));
    }
  }

  // ----- one fetch

  datatype Use = NoUse | Text(text: string) | OtherUse

  /** One element of `keys`: not an object, or an object that PyJWT can or cannot turn into a key. */
  datatype Entry = NotAnObject | Entry(use: Use, jwk: Option<Jwk>)

  /** A response: `entries` is absent unless the body is a JSON object whose `keys` is a list. */
  datatype Response = Response(status: int, length: nat, entries: Option<seq<Entry>>)

  const MAX_BYTES := 256 * 1024

  predicate Signing(e: Entry) {
    e.Entry? && (e.use == NoUse || e.use == Text("sig"))
  }

  predicate Usable(e: Entry) {
    Signing(e) && e.jwk.Some?
  }

  predicate HasKeyId(e: Entry, kid: string) {
    Usable(e) && kid != "" && e.jwk.value.keyId == Some(kid)
  }

  /** The first usable signing key with that id. */
  function FirstWith(entries: seq<Entry>, kid: string): Option<Jwk> {
    if entries == [] then None
    else if HasKeyId(entries[0], kid) then entries[0].jwk
    else FirstWith(entries[1..], kid)
  }

  lemma {:induction false} FirstWithNext(entries: seq<Entry>, e: Entry, kid: string)
    ensures FirstWith(entries + [e], kid) ==
            if FirstWith(entries, kid).Some? then FirstWith(entries, kid)
            else if HasKeyId(e, kid) then e.jwk
            else None
  {
    if entries == [] {
      assert entries + [e] == [e] && [e][1..] == [];
    } else {
      assert (entries + [e])[1..] == entries[1..] + [e];
      FirstWithNext(entries[1..], e, kid);
    }
  }

  /** The first-wins loop: `PyJWKSet` skips what it cannot build and refuses a set it can build nothing from. */
  method Collect(entries: seq<Entry>) returns (fetched: Option<KeySet>)
    ensures fetched.None? <==> (exists i :: 0 <= i < |entries| && Signing(entries[i]))
                               && forall i :: 0 <= i < |entries| ==> !Usable(entries[i])
    ensures fetched.Some? ==> forall kid :: Lookup(fetched.value, kid) == FirstWith(entries, kid)
  {
    var keys: KeySet := map[];
    var signing, usable := false, false;
    var i := 0;
    while i < |entries|
      invariant 0 <= i <= |entries|
      invariant signing <==> exists j :: 0 <= j < i && Signing(entries[j])
      invariant usable <==> exists j :: 0 <= j < i && Usable(entries[j])
      invariant forall kid :: Lookup(keys, kid) == FirstWith(entries[..i], kid)
    {
      var e := entries[i];
      assert entries[..i + 1] == entries[..i] + [e];
      forall kid {
        FirstWithNext(entries[..i], e, kid);
      }
      if Signing(e) {
        signing := true;
        if e.jwk.Some? {
          usable := true;
          var id := e.jwk.value.keyId;
          if id.Some? && id.value != "" && id.value !in keys {
            keys := keys[id.value := e.jwk.value];
          }
        }
      }
      i := i + 1;
    }
    assert entries[..i] == entries;
    if signing && !usable {
      return None;
    }
    return Some(keys);
  }

  /** A signing key that PyJWT could build and that has a string for an id, and not the empty one. */
  predicate Named(e: Entry) {
    Usable(e) && e.jwk.value.keyId.Some? && e.jwk.value.keyId.value != ""
  }

  lemma {:induction false} NamedIsFound(entries: seq<Entry>, e: Entry)
    requires e in entries && Named(e)
    ensures FirstWith(entries, e.jwk.value.keyId.value).Some?
  {
    if entries[0] != e {
      NamedIsFound(entries[1..], e);
    }
  }

  lemma {:induction false} FoundIsNamed(entries: seq<Entry>, kid: string)
    requires FirstWith(entries, kid).Some?
    ensures exists e :: e in entries && Named(e)
  {
    if HasKeyId(entries[0], kid) {
      assert entries[0] in entries && Named(entries[0]);
    } else {
      FoundIsNamed(entries[1..], kid);
      var e :| e in entries[1..] && Named(e);
      assert e in entries;
    }
  }

  /** A set withdraws every id a caller can ask for exactly when none of its usable signing keys has such an id. */
  lemma WithdrawsAllIff(entries: seq<Entry>)
    ensures (forall kid :: FirstWith(entries, kid).None?) <==> forall e :: e in entries ==> !Named(e)
  {
    if e :| e in entries && Named(e) {
      NamedIsFound(entries, e);
    }
    if kid :| FirstWith(entries, kid).Some? {
      FoundIsNamed(entries, kid);
    }
  }

  /** The responses that replace the cached set; any other is the failure `_refresh` turns into "unavailable". */
  predicate Delivers(r: Response) {
    && r.status == 200 && r.length <= MAX_BYTES && r.entries.Some?
    && ((forall e :: e in r.entries.value ==> !Signing(e)) || exists e :: e in r.entries.value && Usable(e))
  }

  /** Every entry by what it says: an object counts if its `use` is absent or "sig" and a key can be built from it. */
  lemma UsableIff(e: Entry)
    ensures Signing(e) <==> e.Entry? && (e.use.NoUse? || (e.use.Text? && e.use.text == "sig"))
    ensures Usable(e) <==> e.Entry? && (e.use.NoUse? || (e.use.Text? && e.use.text == "sig")) && e.jwk.Some?
  {
  }

  /** An id is delivered exactly when some such key has it. */
  lemma {:induction false} FoundIff(entries: seq<Entry>, kid: string)
    ensures FirstWith(entries, kid).Some? <==>
              && kid != ""
              && exists e :: e in entries && e.Entry? && (e.use == NoUse || e.use == Text("sig"))
                   && e.jwk.Some? && e.jwk.value.keyId == Some(kid)
  {
    if entries != [] {
      FoundIff(entries[1..], kid);
      assert forall e :: e in entries <==> e == entries[0] || e in entries[1..];
    }
  }

  /** And then it is the key of the first entry that has it. */
  lemma {:induction false} FoundFirst(entries: seq<Entry>, kid: string) returns (i: nat)
    requires FirstWith(entries, kid).Some?
    ensures i < |entries| && entries[i].Entry? && (entries[i].use == NoUse || entries[i].use == Text("sig"))
    ensures FirstWith(entries, kid) == entries[i].jwk && entries[i].jwk.value.keyId == Some(kid)
    ensures forall e :: e in entries[..i] && e.Entry? && (e.use == NoUse || e.use == Text("sig")) ==>
              e.jwk.None? || e.jwk.value.keyId != Some(kid)
  {
    FoundIff(entries, kid);
    if HasKeyId(entries[0], kid) {
      i := 0;
    } else {
      var k := FoundFirst(entries[1..], kid);
      i := k + 1;
      assert entries[..i] == [entries[0]] + entries[1..][..k];
    }
  }

  /** What is left of a set without the entries that are not objects or have any other `use`. */
  function WithoutOthers(entries: seq<Entry>): seq<Entry> {
    if entries == [] then []
    else if entries[0] == NotAnObject || entries[0].use == OtherUse then WithoutOthers(entries[1..])
    else if entries[0].use.Text? && entries[0].use.text != "sig" then WithoutOthers(entries[1..])
    else [entries[0]] + WithoutOthers(entries[1..])
  }

  /** Those make no difference to the answer for any id, nor to whether the set is delivered. */
  lemma {:induction false} OthersMakeNoDifference(entries: seq<Entry>, kid: string)
    ensures FirstWith(WithoutOthers(entries), kid) == FirstWith(entries, kid)
    ensures (exists e :: e in WithoutOthers(entries) && Signing(e)) <==> exists e :: e in entries && Signing(e)
    ensures (exists e :: e in WithoutOthers(entries) && Usable(e)) <==> exists e :: e in entries && Usable(e)
  {
    if entries != [] {
      OthersMakeNoDifference(entries[1..], kid);
      assert forall e :: e in entries <==> e == entries[0] || e in entries[1..];
    }
  }

  method Fetch(response: Response) returns (fetched: Option<KeySet>)
    ensures fetched.Some? <==> Delivers(response)
    ensures fetched.Some? <==>
              && response.status == 200 && response.length <= 262144 && response.entries.Some?
              && ((forall e :: e in response.entries.value && e.Entry? ==> e.use != NoUse && e.use != Text("sig"))
                  || exists e :: e in response.entries.value && e.Entry? && (e.use == NoUse || e.use == Text("sig"))
                       && e.jwk.Some?)
    ensures fetched.Some? ==>
              forall kid :: kid in fetched.value <==>
                && kid != ""
                && exists e :: e in response.entries.value && e.Entry? && (e.use == NoUse || e.use == Text("sig"))
                     && e.jwk.Some? && e.jwk.value.keyId == Some(kid)
    ensures fetched.Some? ==> forall kid :: Lookup(fetched.value, kid) == FirstWith(response.entries.value, kid)
    ensures fetched.Some? ==> (fetched.value == map[] <==> forall e :: e in response.entries.value ==> !Named(e))
  {
    if response.status != 200 || response.length > MAX_BYTES || response.entries.None? {
      return None;
    }
    var entries := response.entries.value;
    fetched := Collect(entries);
    WithdrawsAllIff(entries);
    if fetched.Some? {
      forall kid
        ensures kid in fetched.value <==>
                  && kid != ""
                  && exists e :: e in entries && e.Entry? && (e.use == NoUse || e.use == Text("sig"))
                       && e.jwk.Some? && e.jwk.value.keyId == Some(kid)
      {
        FoundIff(entries, kid);
        assert Lookup(fetched.value, kid) == FirstWith(entries, kid);
      }
      if fetched.value != map[] {
        var kid :| kid in fetched.value;
        assert Lookup(fetched.value, kid).Some?;
      }
    }
  }

  /** One usable signing key without an id, or with a number for one, is delivered, and withdraws every id. */
  lemma KeyWithoutIdRevokesAll(length: nat, material: int)
    requires length <= MAX_BYTES
    ensures var entries := [Entry(Text("sig"), Some(Jwk(None, material)))];
            && Delivers(Response(200, length, Some(entries))) && Usable(entries[0])
            && forall kid :: FirstWith(entries, kid).None?
  {
    var entries := [Entry(Text("sig"), Some(Jwk(None, material)))];
    assert entries[0] in entries && Usable(entries[0]);
    WithdrawsAllIff(entries);
  }

  /** Appending entries never changes the answer for an id that is already there. */
  lemma {:induction false} AppendedDuplicatesLose(entries: seq<Entry>, more: seq<Entry>, kid: string)
    requires FirstWith(entries, kid).Some?
    ensures FirstWith(entries + more, kid) == FirstWith(entries, kid)
  {
    assert (entries + more)[0] == entries[0] && (entries + more)[1..] == entries[1..] + more;
    if !HasKeyId(entries[0], kid) {
      AppendedDuplicatesLose(entries[1..], more, kid);
    }
  }

  /** A set that offers no signing key, the empty one included, withdraws every id. */
  lemma {:induction false} NothingSigningRevokesAll(entries: seq<Entry>, kid: string)
    requires forall e :: e in entries ==> !Signing(e)
    ensures FirstWith(entries, kid).None?
  {
    if entries != [] {
      NothingSigningRevokesAll(entries[1..], kid);
    }
  }
}
