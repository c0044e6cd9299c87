/**
 The outbound call: one attempt, the retry loop under its deadline, and the capped
 read. Times are milliseconds; code between two awaits takes none and sleeps are exact.
 What the network, the provider and the jitter do is an oracle that the loop consults
 once per attempt.
 */
module Transport {
  import opened Base

  type Bytes = seq<Byte>

  datatype Value = Text(text: string) | OtherValue

  type Object = map<string, Value>

  /** `json.loads`, where the outcome is an object. */
  type Decoder = Bytes -> Option<Object>

  datatype Failure =
    | NoFailure | TimedOut | Connection | ServerError | ClientError
    | Oversized | Malformed | Redirected | BulkheadFull | BudgetExhausted

  datatype JsonResponse = JsonResponse(status: Option<int>, body: Option<Object>, failure: Failure) {
    predicate Ok() {
      failure == NoFailure && body.Some?
    }
  }

  datatype Policy = Policy(
    totalTimeout: int,
    budget: int,
    maxAttempts: int,
    backoffBase: int,
    backoffMax: int,
    maxResponseBytes: int,
    bulkheadLimit: int,
    bulkheadWait: int,
    leaseTtl: int)

  /** The settings a deployment would use; the code itself checks none of them. */
  predicate Sane(p: Policy) {
    p.totalTimeout > 0 && p.backoffBase >= 0 && p.backoffMax >= 0
  }

  predicate Retryable(f: Failure) {
    f == TimedOut || f == Connection || f == ServerError
  }

  // ----- reading up to a cap

  /** A body that arrives in pieces of any size. */
  class StreamReader {
    var rest: Bytes

    constructor (body: Bytes)
      ensures rest == body
    {
      rest := body;
    }

    /** `read(n)`: what is buffered, at least one byte unless `n` is 0 or the body has ended. */
    method Read(n: nat) returns (chunk: Bytes)
      modifies this
      ensures |chunk| <= n && old(rest) == chunk + rest
      ensures chunk == [] <==> n == 0 || old(rest) == []
    {
      if n == 0 || rest == [] {
        return [];
      }
      var k :| 1 <= k <= n && k <= |rest|;
      chunk := rest[..k];
      rest := rest[k..];
    }
  }

  /** The first bytes, up to a limit that negative numbers turn into zero. */
  function Prefix(body: Bytes, limit: int): Bytes {
    body[..Min(Max(0, limit), |body|)]
  }

  /** However the body is cut into segments, the result is its first `limit` bytes. */
  method ReadCapped(stream: StreamReader, limit: int) returns (raw: Bytes)
    modifies stream
    ensures raw == Prefix(old(stream.rest), limit)
    ensures old(stream.rest) == raw + stream.rest
  {
    ghost var body := stream.rest;
    var cap := Max(0, limit);
    raw := [];
    while true
      invariant |raw| < cap || raw == []
      invariant |raw| <= cap && body == raw + stream.rest
      decreases |stream.rest|
    {
      ghost var before := raw;
      var chunk := stream.Read(cap - |raw|);
      if chunk == [] {
        break;
      }
      raw := raw + chunk;
      assert before + (chunk + stream.rest) == raw + stream.rest;
      if |raw| >= cap {
        break;
      }
    }
    assert body[..|raw|] == raw;
  }

  // ----- one attempt

  /** Seconds, in milliseconds; dates are not read. */
  datatype RetryAfter = NoHeader | NotSeconds | Seconds(millis: int)

  function RetryAfterMs(header: RetryAfter): Option<int> {
    if header.Seconds? then Some(Max(0, header.millis)) else None
  }

  datatype Wire =
    | Answered(status: int, body: Bytes, retryAfter: RetryAfter)
    | Stalled // a connect or read timeout
    | Broken  // any other client error

  /** What would happen if nothing cut it short, and the jitter drawn for the backoff after it. */
  datatype Exchange = Exchange(wire: Wire, duration: nat, jitter: int)

  /** The whole exchange, request to last byte, runs under this timeout. */
  function AttemptTimeout(p: Policy, remaining: int): int {
    Min(p.totalTimeout, remaining)
  }

  /** A timeout of zero or less is none. */
  predicate CutShort(p: Policy, x: Exchange, remaining: int) {
    0 < AttemptTimeout(p, remaining) < x.duration
  }

  function Elapsed(p: Policy, x: Exchange, remaining: int): nat {
    if CutShort(p, x, remaining) then AttemptTimeout(p, remaining) else x.duration
  }

  /** Status before size, size before shape. */
  function Classify(p: Policy, decode: Decoder, status: int, raw: Bytes): JsonResponse {
    if 300 <= status < 400 then JsonResponse(Some(status), None, Redirected)
    else if status >= 500 || status == 429 then JsonResponse(Some(status), None, ServerError)
    else if status >= 400 then JsonResponse(Some(status), None, ClientError)
    else if |raw| > p.maxResponseBytes then JsonResponse(Some(status), None, Oversized)
    else
      var body := decode(raw);
      if body.None? then JsonResponse(Some(status), None, Malformed) else JsonResponse(Some(status), body, NoFailure)
  }

  function Result(p: Policy, decode: Decoder, x: Exchange, remaining: int): JsonResponse {
    if CutShort(p, x, remaining) then JsonResponse(None, None, TimedOut)
    else
      match x.wire
      case Stalled => JsonResponse(None, None, TimedOut)
      case Broken => JsonResponse(None, None, Connection)
      case Answered(status, body, _) => Classify(p, decode, status, Prefix(body, p.maxResponseBytes + 1))
  }

  function Wait(p: Policy, x: Exchange, remaining: int): Option<int> {
    if !CutShort(p, x, remaining) && x.wire.Answered? then RetryAfterMs(x.wire.retryAfter) else None
  }

  method SingleAttempt(p: Policy, decode: Decoder, x: Exchange, remaining: int)
    returns (result: JsonResponse, retryAfter: Option<int>, elapsed: nat)
    ensures result == Result(p, decode, x, remaining)
    ensures retryAfter == Wait(p, x, remaining)
    ensures elapsed == Elapsed(p, x, remaining)
  {
    var timeout := Min(p.totalTimeout, remaining);
    if 0 < timeout < x.duration {
      return JsonResponse(None, None, TimedOut), None, timeout;
    }
    elapsed := x.duration;
    match x.wire
    case Stalled => return JsonResponse(None, None, TimedOut), None, elapsed;
    case Broken => return JsonResponse(None, None, Connection), None, elapsed;
    case Answered(status, body, header) =>
      var stream := new StreamReader(body);
      var raw := ReadCapped(stream, p.maxResponseBytes + 1);
      return Classify(p, decode, status, raw), RetryAfterMs(header), elapsed;
  }

  // ----- the loop

  function Pow2(n: nat): nat {
    if n == 0 then 1 else 2 * Pow2(n - 1)
  }

  /** The jitter never leaves the interval from zero to the ceiling. */
  function BackoffMs(p: Policy, attempt: int, retryAfter: Option<int>, jitter: int): int
    requires attempt >= 1
  {
    if retryAfter.Some? then Min(retryAfter.value, p.backoffMax)
    else Min(Max(0, jitter), Min(p.backoffMax, p.backoffBase * Pow2(attempt - 1)))
  }

  datatype Attempt = Attempt(number: int, startedAt: int, result: JsonResponse, endedAt: int)

  /** How a loop ends, when, and the attempts it made on the way. */
  datatype LoopEnd = LoopEnd(result: JsonResponse, at: int, attempts: seq<Attempt>)

  type Oracle = int -> Exchange

  /** Attempt number `number`, begun at `now`. */
  function Tried(p: Policy, decode: Decoder, oracle: Oracle, deadline: int, number: int, now: int): Attempt {
    var (x, remaining) := (oracle(number), deadline - now);
    Attempt(number, now, Result(p, decode, x, remaining), now + Elapsed(p, x, remaining))
  }

  function BackoffAfter(p: Policy, oracle: Oracle, deadline: int, a: Attempt): int
    requires a.number >= 1
  {
    BackoffMs(p, a.number, Wait(p, oracle(a.number), deadline - a.startedAt), oracle(a.number).jitter)
  }

  /** Not worth retrying, out of attempts, or no time left for the backoff. */
  predicate StopsAfter(p: Policy, oracle: Oracle, deadline: int, a: Attempt)
    requires a.number >= 1
  {
    || !Retryable(a.result.failure)
    || a.number == p.maxAttempts
    || deadline - a.endedAt <= BackoffAfter(p, oracle, deadline, a)
  }

  /** The rest of the loop, from the top of the iteration for `attempt`. */
  function Loop(p: Policy, decode: Decoder, oracle: Oracle, deadline: int, attempt: int, now: int,
                last: JsonResponse): LoopEnd
    requires attempt >= 1
    decreases p.maxAttempts + 1 - attempt
  {
    if attempt > p.maxAttempts then LoopEnd(last, now, [])
    else if deadline - now <= 0 then LoopEnd(JsonResponse(None, None, BudgetExhausted), now, [])
    else
      var made := Tried(p, decode, oracle, deadline, attempt, now);
      if StopsAfter(p, oracle, deadline, made) then LoopEnd(made.result, made.endedAt, [made])
      else
        var next := made.endedAt + Max(0, BackoffAfter(p, oracle, deadline, made));
        var rest := Loop(p, decode, oracle, deadline, attempt + 1, next, made.result);
        rest.(attempts := [made] + rest.attempts)
  }

  const NOTHING_TRIED := JsonResponse(None, None, Connection)

  function WholeLoop(p: Policy, decode: Decoder, oracle: Oracle, start: int): LoopEnd {
    Loop(p, decode, oracle, start + p.budget, 1, start, NOTHING_TRIED)
  }

  method AttemptLoop(p: Policy, decode: Decoder, oracle: Oracle, start: int) returns (result: JsonResponse, end: int)
    ensures result == WholeLoop(p, decode, oracle, start).result
    ensures end == WholeLoop(p, decode, oracle, start).at
  {
    var deadline := start + p.budget;
    result, end := NOTHING_TRIED, start;
    var attempt := 1;
    while attempt <= p.maxAttempts
      invariant attempt >= 1
      invariant var (whole, rest) := (WholeLoop(p, decode, oracle, start),
                                      Loop(p, decode, oracle, deadline, attempt, end, result));
                whole.result == rest.result && whole.at == rest.at
    {
      var remaining := deadline - end;
      if remaining <= 0 {
        result := JsonResponse(None, None, BudgetExhausted);
        return;
      }
      ghost var made := Tried(p, decode, oracle, deadline, attempt, end);
      var x := oracle(attempt);
      var tried, retryAfter, elapsed := SingleAttempt(p, decode, x, remaining);
      var backoff := BackoffMs(p, attempt, retryAfter, x.jitter);
      assert made == Attempt(attempt, end, tried, end + elapsed) && backoff == BackoffAfter(p, oracle, deadline, made);
      result, end := tried, end + elapsed;
      if !Retryable(result.failure) || attempt == p.maxAttempts || deadline - end <= backoff {
        return;
      }
      end := end + Max(0, backoff);
      attempt := attempt + 1;
    }
  }

  // ----- what the loop promises

  lemma BackoffIsBounded(p: Policy, oracle: Oracle, deadline: int, a: Attempt)
    requires Sane(p) && a.number >= 1
    ensures 0 <= BackoffAfter(p, oracle, deadline, a) <= p.backoffMax
  {
    assert p.backoffBase * Pow2(a.number - 1) >= 0;
  }

  /** From any iteration that still has time, the loop ends by the deadline and never reports an exhausted budget. */
  lemma {:induction false} EndsInTime(p: Policy, decode: Decoder, oracle: Oracle, deadline: int, attempt: int, now: int,
                                      last: JsonResponse)
    requires Sane(p) && attempt >= 1 && now < deadline && last.failure != BudgetExhausted
    ensures var end := Loop(p, decode, oracle, deadline, attempt, now, last);
            now <= end.at <= deadline && end.result.failure != BudgetExhausted
    decreases p.maxAttempts + 1 - attempt
  {
    if attempt <= p.maxAttempts {
      var made := Tried(p, decode, oracle, deadline, attempt, now);
      BackoffIsBounded(p, oracle, deadline, made);
      if !StopsAfter(p, oracle, deadline, made) {
        var next := made.endedAt + BackoffAfter(p, oracle, deadline, made);
        EndsInTime(p, decode, oracle, deadline, attempt + 1, next, made.result);
      }
    }
  }

  /** One call lasts at most its budget, whatever the provider does and however many attempts are allowed. */
  lemma LoopEndsByDeadline(p: Policy, decode: Decoder, oracle: Oracle, start: int)
    requires Sane(p)
    ensures start <= WholeLoop(p, decode, oracle, start).at <= start + Max(0, p.budget)
  {
    if p.budget > 0 {
      EndsInTime(p, decode, oracle, start + p.budget, 1, start, NOTHING_TRIED);
    }
  }

  /** "Budget exhausted" is only ever the answer of a call that had no budget to begin with. */
  lemma BudgetExhaustedIff(p: Policy, decode: Decoder, oracle: Oracle, start: int)
    requires Sane(p)
    ensures WholeLoop(p, decode, oracle, start).result.failure == BudgetExhausted
       <==> p.budget <= 0 && p.maxAttempts >= 1
  {
    if p.budget > 0 {
      EndsInTime(p, decode, oracle, start + p.budget, 1, start, NOTHING_TRIED);
    }
  }

  /** The attempt is what the oracle's exchange amounts to in the time left. */
  predicate Honest(p: Policy, decode: Decoder, oracle: Oracle, deadline: int, a: Attempt) {
    a.number >= 1 && a.startedAt < deadline && a == Tried(p, decode, oracle, deadline, a.number, a.startedAt)
  }

  /**
   Attempt `i`, counted from `first`, is the outcome of the oracle's exchange; the loop went on
   after the one before it, and this one began a backoff later.
   */
  ghost predicate AttemptAt(p: Policy, decode: Decoder, oracle: Oracle, deadline: int, attempts: seq<Attempt>,
                            first: int, i: nat)
    requires i < |attempts|
  {
    && attempts[i].number == first + i && Honest(p, decode, oracle, deadline, attempts[i])
    && (i > 0 ==>
          && attempts[i - 1].number >= 1 && !StopsAfter(p, oracle, deadline, attempts[i - 1])
          && attempts[i].startedAt == attempts[i - 1].endedAt + BackoffAfter(p, oracle, deadline, attempts[i - 1]))
  }

  /** Attempts numbered from `first`; after each but the last the loop went on, one backoff later. */
  ghost predicate Retries(p: Policy, decode: Decoder, oracle: Oracle, deadline: int, attempts: seq<Attempt>,
                          first: int)
  {
    forall i :: 0 <= i < |attempts| ==> AttemptAt(p, decode, oracle, deadline, attempts, first, i)
  }

  /** `end` is what the attempts come to: the last one's result, given because the loop stops there. */
  ghost predicate LastDecides(p: Policy, oracle: Oracle, deadline: int, end: LoopEnd) {
    && end.attempts != []
    && var last := end.attempts[|end.attempts| - 1];
       last.number >= 1 && StopsAfter(p, oracle, deadline, last) && last.result == end.result && last.endedAt == end.at
  }

  /**
   From `now` the loop made at least one attempt and no more than are left, went on only
   after a failure worth retrying that left time for the backoff, and answers with the last.
   */
  ghost predicate Explains(p: Policy, decode: Decoder, oracle: Oracle, deadline: int, end: LoopEnd, first: int,
                           now: int)
  {
    && LastDecides(p, oracle, deadline, end)
    && |end.attempts| <= p.maxAttempts + 1 - first
    && end.attempts[0].startedAt == now
    && Retries(p, decode, oracle, deadline, end.attempts, first)
  }

  lemma StopsAtOnce(p: Policy, decode: Decoder, oracle: Oracle, deadline: int, made: Attempt)
    requires made.number <= p.maxAttempts && Honest(p, decode, oracle, deadline, made)
    requires StopsAfter(p, oracle, deadline, made)
    ensures Explains(p, decode, oracle, deadline, LoopEnd(made.result, made.endedAt, [made]), made.number,
                     made.startedAt)
  {
  }

  lemma GoesOn(p: Policy, decode: Decoder, oracle: Oracle, deadline: int, made: Attempt, rest: LoopEnd)
    requires Honest(p, decode, oracle, deadline, made) && !StopsAfter(p, oracle, deadline, made)
    requires var next := made.endedAt + BackoffAfter(p, oracle, deadline, made);
             Explains(p, decode, oracle, deadline, rest, made.number + 1, next)
    ensures Explains(p, decode, oracle, deadline, rest.(attempts := [made] + rest.attempts), made.number,
                     made.startedAt)
  {
    var all := [made] + rest.attempts;
    forall i | 0 <= i < |all|
      ensures AttemptAt(p, decode, oracle, deadline, all, made.number, i)
    {
      if i > 0 {
        assert AttemptAt(p, decode, oracle, deadline, rest.attempts, made.number + 1, i - 1);
        assert all[i] == rest.attempts[i - 1];
      }
    }
  }

  /** Every loop with time and attempts left can be explained by its attempts. */
  lemma {:induction false} LoopIsExplained(p: Policy, decode: Decoder, oracle: Oracle, deadline: int, attempt: int,
                                           now: int, last: JsonResponse)
    requires Sane(p) && 1 <= attempt <= p.maxAttempts && now < deadline
    ensures Explains(p, decode, oracle, deadline, Loop(p, decode, oracle, deadline, attempt, now, last), attempt, now)
    decreases p.maxAttempts + 1 - attempt
  {
    var made := Tried(p, decode, oracle, deadline, attempt, now);
    if StopsAfter(p, oracle, deadline, made) {
      StopsAtOnce(p, decode, oracle, deadline, made);
    } else {
      BackoffIsBounded(p, oracle, deadline, made);
      var next := made.endedAt + BackoffAfter(p, oracle, deadline, made);
      LoopIsExplained(p, decode, oracle, deadline, attempt + 1, next, made.result);
      GoesOn(p, decode, oracle, deadline, made, Loop(p, decode, oracle, deadline, attempt + 1, next, made.result));
    }
  }

  // ----- the longest a loop can last

  /** `n` attempts at their timeout, with the longest backoff between them. */
  function Attempts(p: Policy, n: int): int {
    if n <= 1 then p.totalTimeout else p.totalTimeout + p.backoffMax + Attempts(p, n - 1)
  }

  function LongestLoop(p: Policy): int {
    if p.budget <= 0 || p.maxAttempts < 1 then 0 else Min(p.budget, Attempts(p, p.maxAttempts))
  }

  lemma {:induction false} AttemptsAreLong(p: Policy, n: int)
    requires Sane(p)
    ensures Attempts(p, n) >= p.totalTimeout && (n >= 2 ==> Attempts(p, n) >= 2 * p.totalTimeout + p.backoffMax)
    decreases n
  {
    if n >= 2 {
      AttemptsAreLong(p, n - 1);
    }
  }

  lemma TurnIsBounded(p: Policy, decode: Decoder, oracle: Oracle, deadline: int, n: int, now: int)
    requires Sane(p) && n >= 1 && now < deadline
    ensures var made := Tried(p, decode, oracle, deadline, n, now);
            made.endedAt <= now + p.totalTimeout && 0 <= BackoffAfter(p, oracle, deadline, made) <= p.backoffMax
  {
    BackoffIsBounded(p, oracle, deadline, Tried(p, decode, oracle, deadline, n, now));
  }

  /** However early it is in the loop, there is time for no more than the attempts that are left. */
  lemma {:induction false} AttemptStartsBy(p: Policy, decode: Decoder, oracle: Oracle, deadline: int,
                                           attempts: seq<Attempt>, i: nat)
    requires Sane(p) && i < |attempts| <= p.maxAttempts
    requires Retries(p, decode, oracle, deadline, attempts, 1)
    ensures attempts[i].startedAt + Attempts(p, p.maxAttempts - i) <= attempts[0].startedAt + Attempts(p, p.maxAttempts)
  {
    if i > 0 {
      AttemptStartsBy(p, decode, oracle, deadline, attempts, i - 1);
      assert AttemptAt(p, decode, oracle, deadline, attempts, 1, i);
      assert AttemptAt(p, decode, oracle, deadline, attempts, 1, i - 1);
      TurnIsBounded(p, decode, oracle, deadline, i, attempts[i - 1].startedAt);
    }
  }

  lemma LastEndsBy(p: Policy, decode: Decoder, oracle: Oracle, deadline: int, attempts: seq<Attempt>)
    requires Sane(p) && 0 < |attempts| <= p.maxAttempts && Retries(p, decode, oracle, deadline, attempts, 1)
    ensures attempts[|attempts| - 1].endedAt <= attempts[0].startedAt + Attempts(p, p.maxAttempts)
  {
    var k := |attempts| - 1;
    AttemptStartsBy(p, decode, oracle, deadline, attempts, k);
    AttemptsAreLong(p, p.maxAttempts - k);
    assert AttemptAt(p, decode, oracle, deadline, attempts, 1, k);
    TurnIsBounded(p, decode, oracle, deadline, k + 1, attempts[k].startedAt);
  }

  /** No provider can make a loop last longer than that. */
  lemma LoopLastsAtMost(p: Policy, decode: Decoder, oracle: Oracle, start: int)
    requires Sane(p)
    ensures start <= WholeLoop(p, decode, oracle, start).at <= start + LongestLoop(p)
  {
    LoopEndsByDeadline(p, decode, oracle, start);
    if p.budget > 0 && p.maxAttempts >= 1 {
      LoopIsExplained(p, decode, oracle, start + p.budget, 1, start, NOTHING_TRIED);
      var end := WholeLoop(p, decode, oracle, start);
      LastEndsBy(p, decode, oracle, start + p.budget, end.attempts);
    }
  }

  /** The pause a slow provider asks for with `left` to go, so that something is left after it. */
  function Pause(p: Policy, left: int): int {
    Min(p.backoffMax, left - p.totalTimeout - 1)
  }

  /** What is left of the longest loop when attempt `n` begins. */
  function LeftAt(p: Policy, n: int): int {
    if n <= 1 then LongestLoop(p)
    else LeftAt(p, n - 1) - p.totalTimeout - Pause(p, LeftAt(p, n - 1))
  }

  /** Fails as late as the timeout allows, and asks for the longest pause that still lets the loop go on. */
  function SlowestProvider(p: Policy): Oracle {
    n => Exchange(Answered(500, [], Seconds(Pause(p, LeftAt(p, n)))), Max(0, Min(p.totalTimeout, LeftAt(p, n))), 0)
  }

  lemma SlowAttempt(p: Policy, decode: Decoder, deadline: int, n: int, now: int)
    requires Sane(p) && n >= 1 && 1 <= LeftAt(p, n) <= deadline - now
    ensures var (left, made) := (LeftAt(p, n), Tried(p, decode, SlowestProvider(p), deadline, n, now));
            && Retryable(made.result.failure) && made.number == n
            && made.endedAt == now + Min(p.totalTimeout, left)
            && (left > p.totalTimeout ==> BackoffAfter(p, SlowestProvider(p), deadline, made) == Pause(p, left))
  {
    var x := SlowestProvider(p)(n);
    assert x.wire == Answered(500, [], Seconds(Pause(p, LeftAt(p, n)))) && !CutShort(p, x, deadline - now);
  }

  /** `left` can be filled with `n` attempts, and either fills the room there is or all of them. */
  predicate Fills(p: Policy, left: int, n: int, room: int) {
    1 <= left <= room && left <= Attempts(p, n) && (left == room || left == Attempts(p, n))
  }

  lemma StillFills(p: Policy, left: int, n: int, room: int)
    requires Sane(p) && Fills(p, left, n, room) && left > p.totalTimeout
    ensures n >= 2 && 0 <= Pause(p, left) < room - p.totalTimeout
    ensures Fills(p, left - p.totalTimeout - Pause(p, left), n - 1, room - p.totalTimeout - Pause(p, left))
  {
    AttemptsAreLong(p, n);
    AttemptsAreLong(p, n - 1);
  }

  /** After attempt `n`, begun at `now`, the loop goes on while something is left, and stops when nothing is. */
  ghost predicate TakesItsTime(p: Policy, decode: Decoder, oracle: Oracle, deadline: int, n: int, now: int)
    requires n >= 1
  {
    var (left, made) := (LeftAt(p, n), Tried(p, decode, oracle, deadline, n, now));
    if left > p.totalTimeout then
      && !StopsAfter(p, oracle, deadline, made)
      && made.endedAt + Max(0, BackoffAfter(p, oracle, deadline, made)) == now + left - LeftAt(p, n + 1)
    else StopsAfter(p, oracle, deadline, made) && made.endedAt == now + left
  }

  lemma NextStillFills(p: Policy, n: int, room: int)
    requires Sane(p) && 1 <= n <= p.maxAttempts && LeftAt(p, n) > p.totalTimeout
    requires Fills(p, LeftAt(p, n), p.maxAttempts + 1 - n, room)
    ensures n < p.maxAttempts && 0 <= Pause(p, LeftAt(p, n)) < room - p.totalTimeout
    ensures LeftAt(p, n + 1) == LeftAt(p, n) - p.totalTimeout - Pause(p, LeftAt(p, n))
    ensures Fills(p, LeftAt(p, n + 1), p.maxAttempts - n, room - (LeftAt(p, n) - LeftAt(p, n + 1)))
  {
    StillFills(p, LeftAt(p, n), p.maxAttempts + 1 - n, room);
  }

  lemma FillingTakesItsTime(p: Policy, decode: Decoder, oracle: Oracle, deadline: int, n: int, now: int)
    requires Sane(p) && 1 <= n <= p.maxAttempts && Fills(p, LeftAt(p, n), p.maxAttempts + 1 - n, deadline - now)
    requires var (left, made) := (LeftAt(p, n), Tried(p, decode, oracle, deadline, n, now));
             && Retryable(made.result.failure) && made.endedAt == now + Min(p.totalTimeout, left)
             && (left > p.totalTimeout ==> BackoffAfter(p, oracle, deadline, made) == Pause(p, left))
    ensures TakesItsTime(p, decode, oracle, deadline, n, now)
  {
    var left := LeftAt(p, n);
    if left > p.totalTimeout {
      NextStillFills(p, n, deadline - now);
    } else {
      AttemptsAreLong(p, p.maxAttempts + 1 - n);
      BackoffIsBounded(p, oracle, deadline, Tried(p, decode, oracle, deadline, n, now));
    }
  }

  lemma SlowestTakesItsTime(p: Policy, decode: Decoder, deadline: int, n: int, now: int)
    requires Sane(p) && 1 <= n <= p.maxAttempts && Fills(p, LeftAt(p, n), p.maxAttempts + 1 - n, deadline - now)
    ensures TakesItsTime(p, decode, SlowestProvider(p), deadline, n, now)
  {
    SlowAttempt(p, decode, deadline, n, now);
    FillingTakesItsTime(p, decode, SlowestProvider(p), deadline, n, now);
  }

  /** Attempt `n` began with exactly the rest of the longest loop ahead of it. */
  ghost predicate OnTime(p: Policy, start: int, n: int, now: int) {
    && now == start + LongestLoop(p) - LeftAt(p, n)
    && Fills(p, LeftAt(p, n), p.maxAttempts + 1 - n, start + p.budget - now)
  }

  lemma NextIsOnTime(p: Policy, decode: Decoder, oracle: Oracle, start: int, n: int, now: int)
    requires Sane(p) && 1 <= n <= p.maxAttempts && OnTime(p, start, n, now)
    requires TakesItsTime(p, decode, oracle, start + p.budget, n, now)
    ensures var made := Tried(p, decode, oracle, start + p.budget, n, now);
            if StopsAfter(p, oracle, start + p.budget, made) then made.endedAt == start + LongestLoop(p)
            else OnTime(p, start, n + 1, made.endedAt + BackoffAfter(p, oracle, start + p.budget, made))
  {
    BackoffIsBounded(p, oracle, start + p.budget, Tried(p, decode, oracle, start + p.budget, n, now));
    if LeftAt(p, n) > p.totalTimeout {
      NextStillFills(p, n, start + p.budget - now);
    }
  }

  /** The provider always takes its time. */
  ghost predicate IsSlow(p: Policy, decode: Decoder, oracle: Oracle, start: int) {
    forall n, now :: 1 <= n <= p.maxAttempts && OnTime(p, start, n, now) ==>
      TakesItsTime(p, decode, oracle, start + p.budget, n, now)
  }

  lemma {:induction false} SlowAttemptsAreOnTime(p: Policy, decode: Decoder, oracle: Oracle, start: int,
                                                 attempts: seq<Attempt>, i: nat)
    requires Sane(p) && p.budget > 0 && i < |attempts| <= p.maxAttempts && attempts[0].startedAt == start
    requires Retries(p, decode, oracle, start + p.budget, attempts, 1) && IsSlow(p, decode, oracle, start)
    ensures OnTime(p, start, i + 1, attempts[i].startedAt)
  {
    if i == 0 {
      AttemptsAreLong(p, p.maxAttempts);
    } else {
      SlowAttemptsAreOnTime(p, decode, oracle, start, attempts, i - 1);
      assert AttemptAt(p, decode, oracle, start + p.budget, attempts, 1, i - 1);
      assert AttemptAt(p, decode, oracle, start + p.budget, attempts, 1, i);
      NextIsOnTime(p, decode, oracle, start, i, attempts[i - 1].startedAt);
    }
  }

  lemma SlowLastEndsAt(p: Policy, decode: Decoder, oracle: Oracle, start: int, attempts: seq<Attempt>)
    requires Sane(p) && p.budget > 0 && 0 < |attempts| <= p.maxAttempts && attempts[0].startedAt == start
    requires Retries(p, decode, oracle, start + p.budget, attempts, 1) && IsSlow(p, decode, oracle, start)
    requires var last := attempts[|attempts| - 1]; last.number >= 1 && StopsAfter(p, oracle, start + p.budget, last)
    ensures attempts[|attempts| - 1].endedAt == start + LongestLoop(p)
  {
    var k := |attempts| - 1;
    SlowAttemptsAreOnTime(p, decode, oracle, start, attempts, k);
    assert AttemptAt(p, decode, oracle, start + p.budget, attempts, 1, k);
    NextIsOnTime(p, decode, oracle, start, k + 1, attempts[k].startedAt);
  }

  lemma SlowestIsSlow(p: Policy, decode: Decoder, start: int)
    requires Sane(p)
    ensures IsSlow(p, decode, SlowestProvider(p), start)
  {
    forall n, now | 1 <= n <= p.maxAttempts && OnTime(p, start, n, now)
      ensures TakesItsTime(p, decode, SlowestProvider(p), start + p.budget, n, now)
    {
      SlowestTakesItsTime(p, decode, start + p.budget, n, now);
    }
  }

  lemma SlowWholeLoopLasts(p: Policy, decode: Decoder, oracle: Oracle, start: int)
    requires Sane(p) && IsSlow(p, decode, oracle, start)
    ensures WholeLoop(p, decode, oracle, start).at == start + LongestLoop(p)
  {
    if p.budget > 0 && p.maxAttempts >= 1 {
      LoopIsExplained(p, decode, oracle, start + p.budget, 1, start, NOTHING_TRIED);
      var end := WholeLoop(p, decode, oracle, start);
      SlowLastEndsAt(p, decode, oracle, start, end.attempts);
    }
  }

  /** And one provider does. */
  lemma LongestLoopIsReached(p: Policy, decode: Decoder, start: int)
    requires Sane(p)
    ensures WholeLoop(p, decode, SlowestProvider(p), start).at == start + LongestLoop(p)
  {
    SlowestIsSlow(p, decode, start);
    SlowWholeLoopLasts(p, decode, SlowestProvider(p), start);
  }

  /**
   An answer is classified by its status and by its whole body: an error status keeps its
   meaning under a body of any size, and a success is decoded whole or not at all.
   */
  lemma AnswersAreClassifiedWhole(p: Policy, decode: Decoder, x: Exchange, remaining: int)
    requires x.wire.Answered? && !CutShort(p, x, remaining)
    ensures var (status, body, r) := (x.wire.status, x.wire.body, Result(p, decode, x, remaining));
            && r.status == Some(status)
            && (r.failure == Redirected <==> 300 <= status < 400)
            && (r.failure == ServerError <==> status >= 500 || status == 429)
            && (r.failure == ClientError <==> 400 <= status < 500 && status != 429)
            && (r.failure == Oversized <==> status < 300 && |body| > p.maxResponseBytes)
            && (r.failure == Malformed <==> status < 300 && |body| <= p.maxResponseBytes && decode(body).None?)
            && (r.failure == NoFailure <==> status < 300 && |body| <= p.maxResponseBytes && decode(body).Some?)
            && r.body == if r.failure == NoFailure then decode(body) else None
  {
    var body := x.wire.body;
    if |body| <= p.maxResponseBytes {
      assert Prefix(body, p.maxResponseBytes + 1) == body;
    }
  }
}
