/**
 Which attempts a loop makes and whose answer it gives, told from the outside: from what
 the provider does on the wire and when, without the loop's own tests.
 */
module RetryTheorem {
  import opened Base
  import opened Transport

  /** Failures that may pass: no whole answer in time, a broken connection, 429 or a server error. */
  predicate Transient(p: Policy, x: Exchange, remaining: int) {
    || 0 < Min(p.totalTimeout, remaining) < x.duration
    || x.wire.Stalled?
    || x.wire.Broken?
    || (x.wire.Answered? && (x.wire.status == 429 || x.wire.status >= 500))
  }

  /** What a failed attempt amounts to when there is no whole answer to classify. */
  lemma NoAnswerIff(p: Policy, decode: Decoder, x: Exchange, remaining: int)
    ensures var r := Transport.Result(p, decode, x, remaining);
            var late := 0 < Min(p.totalTimeout, remaining) < x.duration;
            && (r.failure == TimedOut <==> late || x.wire.Stalled?)
            && (r.failure == Connection <==> !late && x.wire.Broken?)
            && (r.status.Some? <==> !late && x.wire.Answered?)
            && (r.status.None? ==> r.body.None?)
  {
    if x.wire.Answered? && !CutShort(p, x, remaining) {
      AnswersAreClassifiedWhole(p, decode, x, remaining);
    }
  }

  lemma RetriedIff(p: Policy, decode: Decoder, x: Exchange, remaining: int)
    ensures Retryable(Transport.Result(p, decode, x, remaining).failure) <==> Transient(p, x, remaining)
  {
    NoAnswerIff(p, decode, x, remaining);
    if x.wire.Answered? && !CutShort(p, x, remaining) {
      AnswersAreClassifiedWhole(p, decode, x, remaining);
    }
  }

  /** The ceiling of the n-th pause: it doubles from the base, up to the maximum. */
  function Ceiling(p: Policy, n: int): int
    requires n >= 1
  {
    if n == 1 then p.backoffBase else 2 * Ceiling(p, n - 1)
  }

  lemma {:induction false} CeilingIsPower(p: Policy, n: int)
    requires n >= 1
    ensures Ceiling(p, n) == p.backoffBase * Pow2(n - 1)
  {
    if n > 1 {
      CeilingIsPower(p, n - 1);
    }
  }

  /** Tick by tick: when attempt `n` begins if every attempt before it leaves room for another. */
  function Begins(p: Policy, oracle: Oracle, start: int, n: int): int
    requires n >= 1
    decreases n, 0
  {
    if n == 1 then start else Ends(p, oracle, start, n - 1) + PauseAfter(p, oracle, start, n - 1)
  }

  function Left(p: Policy, oracle: Oracle, start: int, n: int): int
    requires n >= 1
    decreases n, 1
  {
    start + p.budget - Begins(p, oracle, start, n)
  }

  function Ends(p: Policy, oracle: Oracle, start: int, n: int): int
    requires n >= 1
    decreases n, 2
  {
    var timeout := Min(p.totalTimeout, Left(p, oracle, start, n));
    Begins(p, oracle, start, n) + if timeout > 0 then Min(oracle(n).duration, timeout) else oracle(n).duration
  }

  /** An answer's Retry-After, read as seconds, goes before the drawn jitter. */
  function PauseAfter(p: Policy, oracle: Oracle, start: int, n: int): int
    requires n >= 1
    decreases n, 3
  {
    var x := oracle(n);
    var timeout := Min(p.totalTimeout, Left(p, oracle, start, n));
    if x.wire.Answered? && x.wire.retryAfter.Seconds? && !(0 < timeout < x.duration)
    then Min(Max(0, x.wire.retryAfter.millis), p.backoffMax)
    else Min(Max(0, x.jitter), Min(p.backoffMax, Ceiling(p, n)))
  }

  /** Attempt `k` fails in a way that may pass, and the pause after it ends before the deadline. */
  ghost predicate LeavesRoom(p: Policy, oracle: Oracle, start: int, k: int)
    requires k >= 1
  {
    && Transient(p, oracle(k), Left(p, oracle, start, k))
    && k < p.maxAttempts && Begins(p, oracle, start, k + 1) < start + p.budget
  }

  /** Attempt `n` is the last: all before it leave room for another, and it does not. */
  ghost predicate IsLast(p: Policy, oracle: Oracle, start: int, n: int) {
    n >= 1 && (forall k :: 1 <= k < n ==> LeavesRoom(p, oracle, start, k)) && !LeavesRoom(p, oracle, start, n)
  }

  /** The attempt the loop makes is the one told from the outside. */
  lemma TriedAsTold(p: Policy, decode: Decoder, oracle: Oracle, start: int, n: int)
    requires Sane(p) && n >= 1 && Begins(p, oracle, start, n) < start + p.budget
    ensures var deadline := start + p.budget;
            var made := Tried(p, decode, oracle, deadline, n, Begins(p, oracle, start, n));
            && made.endedAt == Ends(p, oracle, start, n)
            && BackoffAfter(p, oracle, deadline, made) == PauseAfter(p, oracle, start, n) >= 0
            && (n <= p.maxAttempts ==> (StopsAfter(p, oracle, deadline, made) <==> !LeavesRoom(p, oracle, start, n)))
  {
    CeilingIsPower(p, n);
    RetriedIff(p, decode, oracle(n), Left(p, oracle, start, n));
    BackoffIsBounded(p, oracle, start + p.budget,
                     Tried(p, decode, oracle, start + p.budget, n, Begins(p, oracle, start, n)));
  }

  /** What the loop came to, seen from attempt `k`: `n` answers. */
  ghost predicate AnswersWith(p: Policy, decode: Decoder, oracle: Oracle, start: int, end: LoopEnd, k: int, n: int)
    requires n >= 1
  {
    && end.result == Transport.Result(p, decode, oracle(n), Left(p, oracle, start, n))
    && end.at == Ends(p, oracle, start, n) && |end.attempts| == n + 1 - k
  }

  lemma {:induction false} LoopAnswersFrom(p: Policy, decode: Decoder, oracle: Oracle, start: int, k: int, n: int,
                                           last: JsonResponse)
    requires Sane(p) && 1 <= k <= n <= p.maxAttempts && IsLast(p, oracle, start, n)
    requires Begins(p, oracle, start, k) < start + p.budget
    ensures AnswersWith(p, decode, oracle, start,
                        Loop(p, decode, oracle, start + p.budget, k, Begins(p, oracle, start, k), last), k, n)
    decreases n - k
  {
    TriedAsTold(p, decode, oracle, start, k);
    var made := Tried(p, decode, oracle, start + p.budget, k, Begins(p, oracle, start, k));
    if k < n {
      assert LeavesRoom(p, oracle, start, k);
      LoopAnswersFrom(p, decode, oracle, start, k + 1, n, made.result);
    }
  }

  lemma {:induction false} LastIsWithinReach(p: Policy, oracle: Oracle, start: int, n: int)
    requires p.maxAttempts >= 1 && IsLast(p, oracle, start, n)
    ensures n <= p.maxAttempts
  {
    if n > 1 {
      assert LeavesRoom(p, oracle, start, n - 1);
    }
  }

  /**
   A loop that has a budget answers with exactly the attempt that is the last from the outside:
   every attempt before it stalled, was cut short, broke, or got 429 or a server error, in time
   for another try; and it did not, or there was no attempt or no time left.
   */
  lemma LoopAnswersWithLast(p: Policy, decode: Decoder, oracle: Oracle, start: int, n: int)
    requires Sane(p) && p.budget > 0 && p.maxAttempts >= 1 && IsLast(p, oracle, start, n)
    ensures AnswersWith(p, decode, oracle, start, WholeLoop(p, decode, oracle, start), 1, n)
  {
    LastIsWithinReach(p, oracle, start, n);
    LoopAnswersFrom(p, decode, oracle, start, 1, n, NOTHING_TRIED);
  }

  /** There always is exactly one last attempt. */
  lemma {:induction false} SomeAttemptIsLast(p: Policy, oracle: Oracle, start: int, k: int) returns (n: int)
    requires p.maxAttempts >= 1 && 1 <= k <= p.maxAttempts
    requires forall i :: 1 <= i < k ==> LeavesRoom(p, oracle, start, i)
    ensures IsLast(p, oracle, start, n)
    decreases p.maxAttempts - k
  {
    if LeavesRoom(p, oracle, start, k) {
      n := SomeAttemptIsLast(p, oracle, start, k + 1);
    } else {
      n := k;
    }
  }

  /** The number of attempts is `n` exactly when attempt `n` is the last. */
  lemma AttemptsMadeIff(p: Policy, decode: Decoder, oracle: Oracle, start: int, n: int)
    requires Sane(p) && p.budget > 0 && p.maxAttempts >= 1
    ensures |WholeLoop(p, decode, oracle, start).attempts| == n <==> IsLast(p, oracle, start, n)
  {
    var last := SomeAttemptIsLast(p, oracle, start, 1);
    LoopAnswersWithLast(p, decode, oracle, start, last);
    if IsLast(p, oracle, start, n) {
      LoopAnswersWithLast(p, decode, oracle, start, n);
    }
  }

  /** Without a budget nothing is tried, and without attempts nothing is answered. */
  lemma NothingIsTried(p: Policy, decode: Decoder, oracle: Oracle, start: int)
    requires p.budget <= 0 || p.maxAttempts < 1
    ensures WholeLoop(p, decode, oracle, start) ==
            LoopEnd(JsonResponse(None, None, if p.maxAttempts < 1 then Connection else BudgetExhausted), start, [])
  {
  }

  /** A redirect, another client error, an oversized, a malformed or a good answer is never retried. */
  lemma FirmAnswersEndIt(p: Policy, decode: Decoder, oracle: Oracle, start: int)
    requires Sane(p) && p.budget > 0 && p.maxAttempts >= 1
    requires oracle(1).wire.Answered? && oracle(1).wire.status < 500 && oracle(1).wire.status != 429
    requires oracle(1).duration <= Min(p.totalTimeout, p.budget)
    ensures var whole := WholeLoop(p, decode, oracle, start);
            && |whole.attempts| == 1 && whole.at == start + oracle(1).duration
            && whole.result == Transport.Result(p, decode, oracle(1), p.budget)
  {
    assert IsLast(p, oracle, start, 1);
    LoopAnswersWithLast(p, decode, oracle, start, 1);
  }

  /** One bad attempt does no harm if the next one succeeds in time: its body is the answer. */
  lemma SecondAttemptRescues(p: Policy, decode: Decoder, oracle: Oracle, start: int)
    requires Sane(p) && p.budget > 0 && p.maxAttempts >= 2
    requires Transient(p, oracle(1), p.budget) && Begins(p, oracle, start, 2) < start + p.budget
    requires var x := oracle(2);
             && x.wire.Answered? && x.wire.status < 300 && |x.wire.body| <= p.maxResponseBytes
             && decode(x.wire.body).Some? && x.duration <= Min(p.totalTimeout, Left(p, oracle, start, 2))
    ensures var x := oracle(2);
            WholeLoop(p, decode, oracle, start).result
            == JsonResponse(Some(x.wire.status), decode(x.wire.body), NoFailure)
  {
    AnswersAreClassifiedWhole(p, decode, oracle(2), Left(p, oracle, start, 2));
    assert LeavesRoom(p, oracle, start, 1) && IsLast(p, oracle, start, 2);
    LoopAnswersWithLast(p, decode, oracle, start, 2);
  }
}
