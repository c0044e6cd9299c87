/**
 The guarded call: the attempt loop inside a bulkhead lease, how many loops can run at
 once, and what the risk provider's answer is taken to mean.
 */
module Outbound {
  import opened Base
  import opened Transport
  import B = Bulkhead

  function LeasePolicy(p: Policy): B.Policy {
    B.Policy(p.bulkheadLimit, p.leaseTtl)
  }

  const REFUSED_ENTRY := JsonResponse(None, None, BulkheadFull)

  /**
   Refused, or one whole loop inside the lease, which is given back whatever the result.
   `wakes` is what the entry finds on each pass, and `meanwhile` the table when the loop ends:
   other callers come and go at both points.
   */
  method GuardedPost(occupancy: B.Occupancy, token: string, p: Policy, decode: Decoder, oracle: Oracle,
                     wakes: nat -> Wake<B.Leases>, meanwhile: B.Leases)
    returns (result: JsonResponse, end: int, passes: nat)
    requires Sleeps(wakes) && wakes(0).found == occupancy.leases
    modifies occupancy
    ensures forall k :: 0 <= k < passes ==>
              && !B.MemoryGrants(wakes(k).found, LeasePolicy(p), wakes(k).now)
              && wakes(k).now < wakes(0).now + p.bulkheadWait
    ensures var (table, now) := (wakes(passes).found, wakes(passes).now);
            if B.MemoryGrants(table, LeasePolicy(p), now) then
              && result == WholeLoop(p, decode, oracle, now).result && end == WholeLoop(p, decode, oracle, now).at
              && occupancy.leases == meanwhile - {token}
            else
              && result == JsonResponse(None, None, BulkheadFull) && end == now >= wakes(0).now + p.bulkheadWait
              && occupancy.leases == B.Unexpired(table, now)
  {
    var lease := new B.InProcessLease(occupancy, LeasePolicy(p), token);
    passes := lease.Enter(p.bulkheadWait, wakes);
    end := wakes(passes).now;
    if lease.acquired {
      result, end := AttemptLoop(p, decode, oracle, end);
      occupancy.leases := meanwhile;
    } else {
      result := REFUSED_ENTRY;
    }
    lease.Exit();
  }

  // ----- calls in flight

  /** A call's loop: the acquire that let it in, at `index` of the bulkhead's history, and when the loop began. */
  datatype Call = Call(index: nat, start: int, oracle: Oracle)

  ghost predicate Admitted(h: seq<B.Timed>, p: Policy, token: string, index: nat) {
    && index < |h| && h[index].op == B.Acquire(token, LeasePolicy(p))
    && B.MemoryGrants(B.MemoryRun(h[..index]), LeasePolicy(p), h[index].at)
  }

  function EndOf(p: Policy, decode: Decoder, c: Call): int {
    WholeLoop(p, decode, c.oracle, c.start).at
  }

  /**
   The loop starts within `gap` of its admission, and its token, which no other handle
   shares, is next used for the release after the loop.
   */
  ghost predicate InsideItsLease(h: seq<B.Timed>, p: Policy, decode: Decoder, token: string, c: Call, gap: int) {
    && Admitted(h, p, token, c.index)
    && h[c.index].at <= c.start <= h[c.index].at + gap
    && (forall j :: c.index < j < |h| && h[j].op.token == token ==> h[j].op.Release? && EndOf(p, decode, c) <= h[j].at)
  }

  ghost predicate Running(p: Policy, decode: Decoder, c: Call, now: int) {
    c.start <= now < EndOf(p, decode, c)
  }

  lemma {:induction false} OthersLeaveItHeld(h: seq<B.Timed>, token: string, n: nat)
    requires n <= |h| && forall j :: n <= j < |h| ==> h[j].op.token != token
    ensures Lookup(B.MemoryHeld(h), token) == Lookup(B.MemoryHeld(h[..n]), token)
  {
    if n == |h| {
      assert h[..n] == h;
    } else {
      var (before, last) := (h[..|h| - 1], h[|h| - 1]);
      assert before[..n] == h[..n];
      OthersLeaveItHeld(before, token, n);
      var granted := last.op.Acquire? && B.MemoryGrants(B.MemoryRun(before), last.op.policy, last.at);
      B.OthersStayHeld(B.MemoryHeld(before), last.op, granted, last.at, token);
    }
  }

  /** A lease granted after `before` is still held once other tokens have come and gone. */
  lemma StillHeld(before: seq<B.Timed>, token: string, policy: B.Policy, at: int, after: seq<B.Timed>)
    requires B.MemoryGrants(B.MemoryRun(before), policy, at) && forall e :: e in after ==> e.op.token != token
    ensures Lookup(B.MemoryHeld(before + [B.Timed(B.Acquire(token, policy), at)] + after), token)
         == Some(at + policy.leaseTtl)
  {
    var upTo := before + [B.Timed(B.Acquire(token, policy), at)];
    assert (upTo + after)[..|upTo|] == upTo;
    OthersLeaveItHeld(upTo + after, token, |upTo|);
    B.GrantIsHeld(before, token, policy, at);
  }

  /** While the loop runs, nobody uses its token. */
  lemma NoUseWhileRunning(h: seq<B.Timed>, p: Policy, decode: Decoder, token: string, c: Call, gap: int, now: int)
    requires B.ClockForward(h) && B.After(h, now)
    requires InsideItsLease(h, p, decode, token, c, gap) && Running(p, decode, c, now)
    ensures forall e :: e in h[c.index + 1..] ==> e.op.token != token
  {
    forall e | e in h[c.index + 1..]
      ensures e.op.token != token
    {
      var j :| c.index < j < |h| && e == h[j];
      assert h[j].at <= h[|h| - 1].at;
    }
  }

  /** The lease outlives the loop it was taken for, so reaping never drops a call that is still running. */
  lemma RunningCallsHoldLeases(h: seq<B.Timed>, p: Policy, decode: Decoder, token: string, c: Call, gap: int, now: int)
    requires Sane(p) && B.ClockForward(h) && B.After(h, now)
    requires 0 <= gap && gap + LongestLoop(p) <= p.leaseTtl
    requires InsideItsLease(h, p, decode, token, c, gap) && Running(p, decode, c, now)
    ensures token in B.Unexpired(B.MemoryHeld(h), now)
  {
    LoopLastsAtMost(p, decode, c.oracle, c.start);
    NoUseWhileRunning(h, p, decode, token, c, gap, now);
    StillHeld(h[..c.index], token, LeasePolicy(p), h[c.index].at, h[c.index + 1..]);
    assert h == h[..c.index] + [h[c.index]] + h[c.index + 1..];
  }

  /**
   With the longest loop inside the lease, at most `bulkheadLimit` loops run at any instant,
   although leases expire by themselves: whatever the provider does, whoever else comes and goes.
   */
  lemma LoopsInFlightAreBounded(h: seq<B.Timed>, p: Policy, decode: Decoder, calls: map<string, Call>,
                                gap: int, now: int)
    requires Sane(p) && B.ClockForward(h) && B.After(h, now) && B.OneLimit(h, p.bulkheadLimit)
    requires 0 <= gap && gap + LongestLoop(p) <= p.leaseTtl
    requires forall t :: t in calls ==> InsideItsLease(h, p, decode, t, calls[t], gap)
    ensures |set t | t in calls && Running(p, decode, calls[t], now)| <= Max(0, p.bulkheadLimit)
  {
    var running := map t | t in calls && Running(p, decode, calls[t], now) :: 0;
    var leases := B.Unexpired(B.MemoryHeld(h), now);
    forall t | t in running
      ensures t in leases
    {
      RunningCallsHoldLeases(h, p, decode, t, calls[t], gap, now);
    }
    B.FewerKeysFewerLeases(running, leases);
    B.MemoryNeverOverruns(h, p.bulkheadLimit, now);
    assert running.Keys == set t | t in calls && Running(p, decode, calls[t], now);
  }

  /** One attempt that stalls for as long as it may. */
  function Stalling(): Oracle {
    attempt => Exchange(Stalled, 5, 0)
  }

  const LONG_BUDGET := Policy(10, 10, 1, 0, 0, 0, 1, 0, 1)

  /** A lease shorter than the budget is reaped under a running loop: two run where one may. */
  lemma ShortLeaseLetsTwoRun(decode: Decoder)
    ensures var (p, lease) := (LONG_BUDGET, LeasePolicy(LONG_BUDGET));
            var h := [B.Timed(B.Acquire("a", lease), 0), B.Timed(B.Acquire("b", lease), 1)];
            var (a, b) := (Call(0, 0, Stalling()), Call(1, 1, Stalling()));
            && Sane(p) && B.ClockForward(h) && B.After(h, 1) && p.bulkheadLimit == 1
            && InsideItsLease(h, p, decode, "a", a, 0) && Running(p, decode, a, 1)
            && InsideItsLease(h, p, decode, "b", b, 0) && Running(p, decode, b, 1)
  {
    var (p, lease) := (LONG_BUDGET, LeasePolicy(LONG_BUDGET));
    var h := [B.Timed(B.Acquire("a", lease), 0), B.Timed(B.Acquire("b", lease), 1)];
    StallingLastsFive(decode, 0);
    StallingLastsFive(decode, 1);
    assert h[..1] == [h[0]] && [h[0]][..0] == [] == h[..0];
    assert B.MemoryRun([]) == map[] && B.Unexpired(map[], 0) == map[];
    assert B.MemoryRun([h[0]]) == map["a" := 1];
    assert B.Unexpired(map["a" := 1], 1) == map[];
  }

  lemma StallingLastsFive(decode: Decoder, start: int)
    ensures WholeLoop(LONG_BUDGET, decode, Stalling(), start).at == start + 5
  {
    var made := Tried(LONG_BUDGET, decode, Stalling(), start + 10, 1, start);
    assert StopsAfter(LONG_BUDGET, Stalling(), start + 10, made);
  }

  // ----- exactly which policies bound the calls in flight

  /** A budget inside the lease is enough, as the longest loop is no longer than the budget. */
  lemma BudgetInsideLeaseIsEnough(p: Policy, gap: int)
    requires Sane(p) && gap >= 0 && gap + Max(0, p.budget) <= p.leaseTtl
    ensures gap + LongestLoop(p) <= p.leaseTtl
  {
    AttemptsAreLong(p, p.maxAttempts);
  }

  /** The loops that run at `now`. */
  ghost function InFlight(p: Policy, decode: Decoder, calls: map<string, Call>, now: int): set<string> {
    set t | t in calls && Running(p, decode, calls[t], now)
  }

  ghost predicate IsTraffic(p: Policy, decode: Decoder, gap: int, h: seq<B.Timed>, calls: map<string, Call>, now: int) {
    && B.ClockForward(h) && B.After(h, now) && B.OneLimit(h, p.bulkheadLimit)
    && forall t :: t in calls ==> InsideItsLease(h, p, decode, t, calls[t], gap)
  }

  /** No traffic ever has more than the limit in flight. */
  ghost predicate BoundsInFlight(p: Policy, decode: Decoder, gap: int) {
    forall h, calls, now :: IsTraffic(p, decode, gap, h, calls, now) ==>
      |InFlight(p, decode, calls, now)| <= Max(0, p.bulkheadLimit)
  }

  /** A caller that comes when fewer than the limit hold leases is let in, and so remain those before it. */
  lemma NextIsAdmitted(p: Policy, before: seq<B.Timed>, token: string, at: int)
    requires |B.Unexpired(B.MemoryRun(before), at)| < p.bulkheadLimit
    ensures Admitted(before + [B.Timed(B.Acquire(token, LeasePolicy(p)), at)], p, token, |before|)
  {
    assert (before + [B.Timed(B.Acquire(token, LeasePolicy(p)), at)])[..|before|] == before;
  }

  lemma StaysAdmitted(p: Policy, before: seq<B.Timed>, next: B.Timed, token: string, i: nat)
    requires Admitted(before, p, token, i)
    ensures Admitted(before + [next], p, token, i)
  {
    assert (before + [next])[..i] == before[..i];
  }

  /** Callers let in at tick 0, under the first tokens. */
  ghost predicate House(p: Policy, h: seq<B.Timed>) {
    forall i :: 0 <= i < |h| ==>
      h[i] == B.Timed(B.Acquire(B.Token(i), LeasePolicy(p)), 0) && Admitted(h, p, B.Token(i), i)
  }

  ghost predicate EndsTogether(m: B.Leases, expiry: int) {
    forall t :: t in m ==> m[t] == expiry
  }

  lemma {:induction false} FullHouse(p: Policy, n: nat) returns (h: seq<B.Timed>)
    requires n <= p.bulkheadLimit
    ensures |h| == n && House(p, h)
    ensures |B.MemoryRun(h)| <= n && EndsTogether(B.MemoryRun(h), p.leaseTtl)
  {
    if n == 0 {
      h := [];
    } else {
      var before := FullHouse(p, n - 1);
      var next := B.Timed(B.Acquire(B.Token(n - 1), LeasePolicy(p)), 0);
      B.FewerKeysFewerLeases(B.Unexpired(B.MemoryRun(before), 0), B.MemoryRun(before));
      h := before + [next];
      B.RunGoesOn(before, next);
      NextIsAdmitted(p, before, B.Token(n - 1), 0);
      forall i | 0 <= i < n - 1
        ensures Admitted(h, p, B.Token(i), i)
      {
        StaysAdmitted(p, before, next, B.Token(i), i);
      }
    }
  }

  function Tokens(n: nat): set<string> {
    if n == 0 then {} else Tokens(n - 1) + {B.Token(n - 1)}
  }

  lemma {:induction false} TokensCount(n: nat)
    ensures |Tokens(n)| == n && forall t :: t in Tokens(n) ==> |t| < n && t == B.Token(|t|)
  {
    if n > 0 {
      TokensCount(n - 1);
    }
  }

  /** A full house, and one more caller at `now`. */
  ghost predicate HouseAndOne(p: Policy, h: seq<B.Timed>, now: int) {
    && h != [] && now >= 0
    && (forall i :: 0 <= i < |h| ==>
          && h[i] == B.Timed(B.Acquire(B.Token(i), LeasePolicy(p)), if i < |h| - 1 then 0 else now)
          && Admitted(h, p, B.Token(i), i))
  }

  /** Once the leases of a full house have run out, one more caller is let in. */
  lemma OneMoreIsLetIn(p: Policy, now: int) returns (h: seq<B.Timed>)
    requires p.bulkheadLimit >= 1 && now >= 0 && now >= p.leaseTtl
    ensures |h| == p.bulkheadLimit + 1 && HouseAndOne(p, h, now)
  {
    var n := p.bulkheadLimit;
    var house := FullHouse(p, n);
    var next := B.Timed(B.Acquire(B.Token(n), LeasePolicy(p)), now);
    assert B.Unexpired(B.MemoryRun(house), now) == map[];
    NextIsAdmitted(p, house, B.Token(n), now);
    h := house + [next];
    forall i | 0 <= i < n
      ensures Admitted(h, p, B.Token(i), i)
    {
      StaysAdmitted(p, house, next, B.Token(i), i);
    }
  }

  /** Everyone meets the slowest provider; those of the full house begin as late as the gap allows. */
  function SlowCall(p: Policy, gap: int, now: int, token: string): Call {
    Call(|token|, if |token| < p.bulkheadLimit then gap else now, SlowestProvider(p))
  }

  lemma SlowCallIsInside(p: Policy, decode: Decoder, gap: int, h: seq<B.Timed>, now: int, token: string)
    requires Sane(p) && gap >= 0 && |h| == p.bulkheadLimit + 1 && HouseAndOne(p, h, now)
    requires |token| < |h| && token == B.Token(|token|)
    ensures InsideItsLease(h, p, decode, token, SlowCall(p, gap, now, token), gap)
  {
    assert Admitted(h, p, B.Token(|token|), |token|);
  }

  lemma SlowCallIsRunning(p: Policy, decode: Decoder, gap: int, now: int, token: string)
    requires Sane(p) && gap <= now < gap + LongestLoop(p)
    ensures Running(p, decode, SlowCall(p, gap, now, token), now)
  {
    LongestLoopIsReached(p, decode, SlowCall(p, gap, now, token).start);
  }

  lemma HouseIsOrderly(p: Policy, h: seq<B.Timed>, now: int)
    requires HouseAndOne(p, h, now)
    ensures B.ClockForward(h) && B.After(h, now) && B.OneLimit(h, p.bulkheadLimit)
  {
  }

  lemma AllAreRunning(p: Policy, decode: Decoder, gap: int, now: int, n: nat, calls: map<string, Call>)
    requires Sane(p) && gap <= now < gap + LongestLoop(p)
    requires calls.Keys == Tokens(n) && forall t :: t in calls ==> calls[t] == SlowCall(p, gap, now, t)
    ensures |InFlight(p, decode, calls, now)| == n
  {
    TokensCount(n);
    forall t | t in calls
      ensures Running(p, decode, calls[t], now)
    {
      SlowCallIsRunning(p, decode, gap, now, t);
    }
    assert InFlight(p, decode, calls, now) == calls.Keys;
  }

  lemma AllAreInside(p: Policy, decode: Decoder, gap: int, h: seq<B.Timed>, now: int, calls: map<string, Call>)
    requires Sane(p) && gap >= 0 && |h| == p.bulkheadLimit + 1 && HouseAndOne(p, h, now)
    requires calls.Keys == Tokens(|h|) && forall t :: t in calls ==> calls[t] == SlowCall(p, gap, now, t)
    ensures IsTraffic(p, decode, gap, h, calls, now)
  {
    HouseIsOrderly(p, h, now);
    TokensCount(|h|);
    forall t | t in calls
      ensures InsideItsLease(h, p, decode, t, calls[t], gap)
    {
      SlowCallIsInside(p, decode, gap, h, now, t);
    }
  }

  /** A full house whose leases have run out, and one more caller: all their loops are still running. */
  lemma FullHouseAndOne(p: Policy, decode: Decoder, gap: int) returns (h: seq<B.Timed>, calls: map<string, Call>)
    requires Sane(p) && p.bulkheadLimit >= 1 && gap >= 0 && LongestLoop(p) > 0 && p.leaseTtl < gap + LongestLoop(p)
    ensures IsTraffic(p, decode, gap, h, calls, Max(gap, p.leaseTtl))
    ensures |InFlight(p, decode, calls, Max(gap, p.leaseTtl))| == p.bulkheadLimit + 1
  {
    var now := Max(gap, p.leaseTtl);
    h := OneMoreIsLetIn(p, now);
    calls := map t | t in Tokens(|h|) :: SlowCall(p, gap, now, t);
    AllAreInside(p, decode, gap, h, now, calls);
    AllAreRunning(p, decode, gap, now, |h|, calls);
  }

  /**
   For every policy: the loops in flight never exceed the limit, in any traffic, if and only if
   nobody is let in, no loop takes time, or the longest loop ends before its lease does.
   */
  lemma BoundsInFlightIff(p: Policy, decode: Decoder, gap: int)
    requires Sane(p) && gap >= 0
    ensures BoundsInFlight(p, decode, gap)
       <==> p.bulkheadLimit < 1 || LongestLoop(p) == 0 || gap + LongestLoop(p) <= p.leaseTtl
  {
    AttemptsAreLong(p, p.maxAttempts);
    if p.bulkheadLimit < 1 || LongestLoop(p) == 0 || gap + LongestLoop(p) <= p.leaseTtl {
      forall h, calls, now | IsTraffic(p, decode, gap, h, calls, now)
        ensures |InFlight(p, decode, calls, now)| <= Max(0, p.bulkheadLimit)
      {
        if gap + LongestLoop(p) <= p.leaseTtl {
          LoopsInFlightAreBounded(h, p, decode, calls, gap, now);
        } else {
          NothingInFlight(p, decode, gap, h, calls, now);
        }
      }
    } else {
      var h, calls := FullHouseAndOne(p, decode, gap);
    }
  }

  lemma NothingInFlight(p: Policy, decode: Decoder, gap: int, h: seq<B.Timed>, calls: map<string, Call>, now: int)
    requires Sane(p) && IsTraffic(p, decode, gap, h, calls, now) && (p.bulkheadLimit < 1 || LongestLoop(p) == 0)
    ensures InFlight(p, decode, calls, now) == {}
  {
    forall t | t in calls
      ensures !Running(p, decode, calls[t], now)
    {
      LoopLastsAtMost(p, decode, calls[t].oracle, calls[t].start);
      assert Admitted(h, p, t, calls[t].index);
    }
  }

  // ----- the provider's answer

  datatype RiskOutcome = Allowed | Refused | Unavailable

  datatype RiskDecision = RiskDecision(outcome: RiskOutcome, reason: string, reference: string)

  const PROSE_LIMIT := 200

  /** Provider prose, truncated. */
  function Prose(v: Option<Value>): (text: string)
    ensures |text| <= PROSE_LIMIT
    ensures v.None? || !v.value.Text? ==> text == ""
    ensures v.Some? && v.value.Text? ==> text <= v.value.text && (text == v.value.text || |text| == PROSE_LIMIT)
  {
    if v.Some? && v.value.Text? then v.value.text[..Min(PROSE_LIMIT, |v.value.text|)] else ""
  }

  function FailureName(f: Failure): string {
    match f
    case NoFailure => "none"
    case TimedOut => "timeout"
    case Connection => "connection"
    case ServerError => "server_error"
    case ClientError => "client_error"
    case Oversized => "oversized"
    case Malformed => "malformed"
    case Redirected => "redirected"
    case BulkheadFull => "bulkhead_full"
    case BudgetExhausted => "budget_exhausted"
  }

  function Assess(response: JsonResponse): RiskDecision {
    if !response.Ok() then RiskDecision(Unavailable, FailureName(response.failure), "")
    else
      var body := response.body.value;
      var decision := Lookup(body, "decision");
      var (reason, reference) := (Prose(Lookup(body, "reason")), Prose(Lookup(body, "reference")));
      if decision == Some(Text("allow")) then RiskDecision(Allowed, reason, reference)
      else if decision == Some(Text("refuse")) then RiskDecision(Refused, reason, reference)
      else RiskDecision(Unavailable, "unrecognised", "")
  }

  /** What is passed on of an answer: the provider's own words with its decision, and otherwise what went wrong. */
  lemma AssessReports(response: JsonResponse)
    ensures var (d, b) := (Assess(response), response.body);
            && (d.outcome == Allowed <==>
                  response.failure == NoFailure && b.Some? && Lookup(b.value, "decision") == Some(Text("allow")))
            && (d.outcome == Refused <==>
                  response.failure == NoFailure && b.Some? && Lookup(b.value, "decision") == Some(Text("refuse")))
            && (d.outcome != Unavailable ==>
                  d.reason == Prose(Lookup(b.value, "reason")) && d.reference == Prose(Lookup(b.value, "reference")))
            && (d.outcome == Unavailable ==>
                  && d.reference == ""
                  && (d.reason == "unrecognised" <==> response.failure == NoFailure && b.Some?)
                  && (d.reason == "timeout" <==> response.failure == TimedOut)
                  && (d.reason == "bulkhead_full" <==> response.failure == BulkheadFull))
  {
    assert "unrecognised"[0] == 'u' && "none"[0] == 'n' && "timeout"[0] == 't' && "connection"[1] == 'o';
    assert "server_error"[0] == 's' && "client_error"[1] == 'l' && "oversized"[0] == 'o' && "malformed"[0] == 'm';
    assert "redirected"[0] == 'r' && "bulkhead_full"[1] == 'u' && "budget_exhausted"[2] == 'd';
  }

  /** The attempt got a complete success in time, and its whole body is an object whose `decision` is `word`. */
  ghost predicate Says(p: Policy, decode: Decoder, oracle: Oracle, deadline: int, a: Attempt, word: string) {
    var x := oracle(a.number);
    && x.wire.Answered? && x.wire.status < 300 && !CutShort(p, x, deadline - a.startedAt)
    && |x.wire.body| <= p.maxResponseBytes && decode(x.wire.body).Some?
    && Lookup(decode(x.wire.body).value, "decision") == Some(Text(word))
  }

  ghost predicate LastSays(p: Policy, decode: Decoder, oracle: Oracle, deadline: int, attempts: seq<Attempt>,
                           word: string)
  {
    attempts != [] && Says(p, decode, oracle, deadline, attempts[|attempts| - 1], word)
  }

  lemma AttemptSaysIff(p: Policy, decode: Decoder, oracle: Oracle, deadline: int, a: Attempt)
    requires Honest(p, decode, oracle, deadline, a)
    ensures Assess(a.result).outcome == Allowed <==> Says(p, decode, oracle, deadline, a, "allow")
    ensures Assess(a.result).outcome == Refused <==> Says(p, decode, oracle, deadline, a, "refuse")
  {
    var x := oracle(a.number);
    if x.wire.Answered? && !CutShort(p, x, deadline - a.startedAt) {
      AnswersAreClassifiedWhole(p, decode, x, deadline - a.startedAt);
    }
  }

  /** `end` is read as the provider's word exactly when its last attempt carried it. */
  ghost predicate LastSpeaks(p: Policy, decode: Decoder, oracle: Oracle, deadline: int, end: LoopEnd) {
    && (Assess(end.result).outcome == Allowed <==> LastSays(p, decode, oracle, deadline, end.attempts, "allow"))
    && (Assess(end.result).outcome == Refused <==> LastSays(p, decode, oracle, deadline, end.attempts, "refuse"))
  }

  lemma ExplainedLastSpeaks(p: Policy, decode: Decoder, oracle: Oracle, deadline: int, end: LoopEnd, now: int)
    requires Explains(p, decode, oracle, deadline, end, 1, now)
    ensures LastSpeaks(p, decode, oracle, deadline, end)
  {
    assert AttemptAt(p, decode, oracle, deadline, end.attempts, 1, |end.attempts| - 1);
    AttemptSaysIff(p, decode, oracle, deadline, end.attempts[|end.attempts| - 1]);
  }

  /** The provider is taken at its word exactly when the final attempt carried it; anything else is "unavailable". */
  lemma LastAttemptDecides(p: Policy, decode: Decoder, oracle: Oracle, start: int)
    requires Sane(p)
    ensures LastSpeaks(p, decode, oracle, start + p.budget, WholeLoop(p, decode, oracle, start))
  {
    if p.budget > 0 && p.maxAttempts >= 1 {
      LoopIsExplained(p, decode, oracle, start + p.budget, 1, start, NOTHING_TRIED);
      ExplainedLastSpeaks(p, decode, oracle, start + p.budget, WholeLoop(p, decode, oracle, start), start);
    }
  }
}
