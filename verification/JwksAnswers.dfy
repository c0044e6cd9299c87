/**
 Exactly what each call of the signing-key cache is told, in every run, in terms of what an
 observer of the provider knows: the set last delivered and when, when fetches started, and
 how the last finished one ended.
 */
module JwksAnswers {
  import opened Base
  import opened Jwks

  ghost predicate Known(s: State, kid: string, key: Jwk) {
    s.published.Some? && kid in s.published.value && s.published.value[kid] == key
  }

  function Age(s: State, now: int): int {
    now - s.publishedAt
  }

  ghost predicate TooSoon(p: Policy, s: State, now: int) {
    s.attempts != [] && now - s.attempts[|s.attempts| - 1] < p.minRefresh
  }

  /** Before the lock a key is served if it is fresh or some call is fetching; otherwise the call waits. */
  lemma AskIsToldIff(p: Policy, clock: int, run: seq<Action>, a: Action, key: Jwk)
    requires IsRun(p, clock, run) && Enabled(End(p, clock, run), a) && a.event.Ask?
    ensures var s := End(p, clock, run);
            && (Answers(p, s, a) == Some(Found(key)) <==>
                  && Known(s, a.event.kid, key)
                  && (Age(s, a.at) < p.ttl || exists c :: c in s.calls && s.calls[c].Fetching?))
            && (Answers(p, s, a).None? <==> Next(p, s, a).calls == s.calls[a.id := Waiting(a.event.kid)])
            && (Answers(p, s, a).Some? ==> Answers(p, s, a).value.Found?)
  {
    RunsKeepInv(p, clock, run);
  }

  /**
   Under the lock: a fetch starts exactly when no fresh key is known and the last attempt is far
   enough back. Otherwise the answer is the key, if it is fresh, or if the last attempt has not
   failed, or if its age is within the grace; "no such key", if the last attempt has not failed; or
   "unavailable".
   */
  lemma EnterIsToldIff(p: Policy, clock: int, run: seq<Action>, a: Action)
    requires IsRun(p, clock, run) && Enabled(End(p, clock, run), a) && a.event.Enter?
    ensures var s := End(p, clock, run);
            var (kid, answer, age) := (s.calls[a.id].kid, Answers(p, s, a), Age(s, a.at));
            && (answer.None? <==> TooSoon(p, s, a.at) == false && !exists key :: Known(s, kid, key) && age < p.ttl)
            && (answer.None? <==> Next(p, s, a).attempts == s.attempts + [a.at])
            && (forall key :: answer == Some(Found(key)) <==>
                  && Known(s, kid, key)
                  && (age < p.ttl || (TooSoon(p, s, a.at) && (s.lastFinished == Failed ==> age < p.maxStale))))
            && (answer == Some(NoSuchKey) <==>
                  TooSoon(p, s, a.at) && s.lastFinished != Failed && !exists key :: Known(s, kid, key))
            && (answer == Some(Unavailable) <==>
                  && TooSoon(p, s, a.at) && s.lastFinished == Failed
                  && !exists key :: Known(s, kid, key) && (age < p.ttl || age < p.maxStale))
  {
    RunsKeepInv(p, clock, run);
    var s := End(p, clock, run);
    var kid := s.calls[a.id].kid;
    if s.published.Some? && kid in s.published.value {
      assert Known(s, kid, s.published.value[kid]);
    }
  }

  /** A fetch that delivers answers from its own set; one that fails serves a key it had within the grace. */
  lemma FetchIsToldIff(p: Policy, clock: int, run: seq<Action>, a: Action, key: Jwk)
    requires IsRun(p, clock, run) && Enabled(End(p, clock, run), a) && (a.event.FetchOk? || a.event.FetchFailed?)
    ensures var s := End(p, clock, run);
            var (kid, answer) := (s.calls[a.id].kid, Answers(p, s, a));
            && answer.Some?
            && (answer == Some(Found(key)) <==>
                  if a.event.FetchOk? then kid in a.event.fetched && a.event.fetched[kid] == key
                  else Known(s, kid, key) && Age(s, a.at) < p.maxStale)
            && (answer.value.NoSuchKey? <==> a.event.FetchOk? && kid !in a.event.fetched)
            && (answer.value.Unavailable? <==>
                  a.event.FetchFailed? && !exists k :: Known(s, kid, k) && Age(s, a.at) < p.maxStale)
  {
    RunsKeepInv(p, clock, run);
    var s := End(p, clock, run);
    var kid := s.calls[a.id].kid;
    if s.published.Some? && kid in s.published.value {
      assert Known(s, kid, s.published.value[kid]);
    }
  }
}
