/**
 Where the guarantee of KeyTheorem ends, in terms a deployment can check: a key protects
 exactly when its lifetime covers the longest call. Otherwise one request sent twice
 posts twice under its key, with no expiry between: when the lifetime is not positive, so
 that claims store nothing; and when a record expires under the call that made it.
 */
module KeyLimits {
  import opened Base
  import opened Wallets
  import opened Movement
  import opened LedgerTheorem
  import opened IdTheorem
  import opened KeyTheorem
  import opened Scenes

  // ----- a lifetime that covers the calls is enough

  predicate BeforeClaim(pc: Pc) {
    pc.Limiting? || pc.Assessing? || pc.Claiming?
  }

  ghost predicate Claimed(calls: Calls, c: nat) {
    c in calls && calls[c].claimedAt.Some?
  }

  /** A record lasts at least its lifetime beyond the claim of the call that reserved it. */
  ghost predicate RecordLasts(cfg: Settings, calls: Calls, r: Record) {
    Claimed(calls, r.holder) && calls[r.holder].claimedAt.value + cfg.ttl <= r.expiresAt
  }

  ghost predicate ClaimTimes(cfg: Settings, s: State) {
    && (forall c :: c in s.calls ==> (BeforeClaim(s.calls[c].pc) ==> s.calls[c].claimedAt.None?))
    && (forall c :: Claimed(s.calls, c) ==> s.calls[c].claimedAt.value <= s.clock)
    && (forall c :: c in s.calls && s.calls[c].pc.ConfirmWriting? ==> Claimed(s.calls, s.calls[c].pc.seen.holder))
    && (forall k :: k in s.keys ==> RecordLasts(cfg, s.calls, s.keys[k]))
  }

  lemma ClaimsStayClaimed(cfg: Settings, s: State, a: Action, c: nat)
    requires ClaimTimes(cfg, s) && Enabled(s, a) && Claimed(s.calls, c)
    ensures Claimed(NextCalls(cfg, s, a), c) && NextCalls(cfg, s, a)[c].claimedAt == s.calls[c].claimedAt
  {
  }

  lemma RecordsStayLasting(cfg: Settings, s: State, a: Action, k: string)
    requires ClaimTimes(cfg, s) && Enabled(s, a) && k in NextKeys(cfg, s, a)
    ensures RecordLasts(cfg, NextCalls(cfg, s, a), NextKeys(cfg, s, a)[k])
  {
    if k in s.keys {
      ClaimsStayClaimed(cfg, s, a, s.keys[k].holder);
    }
    if a.Step? && a.turn.ConfirmWrite? {
      ClaimsStayClaimed(cfg, s, a, s.calls[a.c].pc.seen.holder);
    }
  }

  ghost predicate CallTimes(calls: Calls, c: nat, clock: int)
    requires c in calls
  {
    && (BeforeClaim(calls[c].pc) ==> calls[c].claimedAt.None?)
    && (calls[c].claimedAt.Some? ==> calls[c].claimedAt.value <= clock)
    && (calls[c].pc.ConfirmWriting? ==> Claimed(calls, calls[c].pc.seen.holder))
  }

  lemma CallTimesStay(cfg: Settings, s: State, a: Action, c: nat)
    requires ClaimTimes(cfg, s) && Enabled(s, a) && c in NextCalls(cfg, s, a)
    ensures CallTimes(NextCalls(cfg, s, a), c, Apply(cfg, s, a).clock)
  {
    var pc := NextCalls(cfg, s, a)[c].pc;
    if c in s.calls && s.calls[c].pc == pc && pc.ConfirmWriting? {
      ClaimsStayClaimed(cfg, s, a, pc.seen.holder);
    } else if pc.ConfirmWriting? {
      assert RecordLasts(cfg, s.calls, pc.seen);
      ClaimsStayClaimed(cfg, s, a, pc.seen.holder);
    }
  }

  lemma StepKeepsClaimTimes(cfg: Settings, s: State, a: Action)
    requires ClaimTimes(cfg, s) && Enabled(s, a)
    ensures ClaimTimes(cfg, Apply(cfg, s, a))
  {
    forall c | c in NextCalls(cfg, s, a)
      ensures CallTimes(NextCalls(cfg, s, a), c, Apply(cfg, s, a).clock)
    {
      CallTimesStay(cfg, s, a, c);
    }
    forall k | k in NextKeys(cfg, s, a)
      ensures RecordLasts(cfg, NextCalls(cfg, s, a), NextKeys(cfg, s, a)[k])
    {
      RecordsStayLasting(cfg, s, a, k);
    }
  }

  lemma {:induction false} RunsKeepClaimTimes(cfg: Settings, run: seq<Action>)
    requires IsRun(cfg, run)
    ensures ClaimTimes(cfg, End(cfg, run))
    decreases |run|
  {
    if run != [] {
      RunsKeepClaimTimes(cfg, run[..|run| - 1]);
      StepKeepsClaimTimes(cfg, End(cfg, run[..|run| - 1]), run[|run| - 1]);
    }
  }

  /** If every call is over before its key's lifetime is, no record expires under its call. */
  lemma {:induction false} LifetimeCoversCalls(cfg: Settings, run: seq<Action>, limit: int)
    requires IsRun(cfg, run) && CallsShorterThan(cfg, run, limit) && limit <= cfg.ttl
    ensures RecordsOutliveCalls(cfg, run)
    decreases |run|
  {
    if run != [] {
      var before := run[..|run| - 1];
      LifetimeCoversCalls(cfg, before, limit);
      RunsKeepClaimTimes(cfg, before);
      var s := End(cfg, before);
      assert forall k :: k in s.keys ==> RecordLasts(cfg, s.calls, s.keys[k]);
    }
  }

  // ----- a key that lasts too short a time

  const KEY: Option<string> := Some("k")

  lemma PostedTwiceInARow(log: seq<Event>, k: string, a: Id, b: Id)
    ensures !Separated(log + [Posted(k, a)] + [Posted(k, b)])
  {
    var once := log + [Posted(k, a)];
    var twice := once + [Posted(k, b)];
    assert twice[..|twice| - 1] == once;
  }

  lemma SameRequestTwice(cfg: Settings, a: Id, b: Id) returns (run: seq<Action>)
    requires cfg.ttl <= 0 && a != b
    ensures IsRun(cfg, run) && RecordsOutliveCalls(cfg, run) && (forall limit :: CallsShorterThan(cfg, run, limit))
    ensures !Separated(End(cfg, run).log) && PostedInOrder(End(cfg, run), a, b)
  {
    run := OpensWallet(cfg);
    run := OneMore(cfg, run, 0, KEY, a);
    run := OneMore(cfg, run, 1, KEY, b);
    PostedTwiceInARow([], KeyOf(cfg, Asks(KEY)).value, a, b);
  }

  /** The ledger holds two entries of the wallet, `a` and then `b`. */
  ghost predicate PostedInOrder(s: State, a: Id, b: Id) {
    && |s.ledger| == 2
    && s.ledger[0].entry.wallet == 0 && s.ledger[0].entry.id == a
    && s.ledger[1].entry.wallet == 0 && s.ledger[1].entry.id == b
  }

  /** No key is ever posted twice without an expiry between, in all runs, if and only if claims last. */
  lemma KeysProtectIffTtlIsPositive(cfg: Settings)
    ensures (forall run :: IsRun(cfg, run) && RecordsOutliveCalls(cfg, run) ==> Separated(End(cfg, run).log))
            <==> cfg.ttl > 0
  {
    if cfg.ttl > 0 {
      forall run | IsRun(cfg, run) && RecordsOutliveCalls(cfg, run)
        ensures Separated(End(cfg, run).log)
      {
        RunsKeepKeyInv(cfg, run);
      }
    } else {
      var run := SameRequestTwice(cfg, 0, 1);
    }
  }

  // ----- an expiry under a running call

  /** Call 0 has claimed the key, and the record has run out. */
  lemma ClaimRunsOut(cfg: Settings) returns (run: seq<Action>)
    requires cfg.ttl > 0
    ensures IsRun(cfg, run) && End(cfg, run).keys == map[] && End(cfg, run).ledger == []
    ensures Idle(End(cfg, run)) && End(cfg, run).wallets[0].cents == 0
    ensures Only(End(cfg, run), End(cfg, run), 0, KEY, Locking) && End(cfg, run).calls.Keys == {0}
    ensures forall limit :: limit > cfg.ttl ==> CallsShorterThan(cfg, run, limit)
  {
    run := OpensWallet(cfg);
    run := ComesToTheLock(cfg, run, 0, KEY);
    run := LetsRunOut(cfg, run);
  }

  lemma LetsRunOut(cfg: Settings, run: seq<Action>) returns (next: seq<Action>)
    requires cfg.ttl > 0 && IsRun(cfg, run) && (forall limit :: CallsShorterThan(cfg, run, limit))
    requires var s := End(cfg, run);
             && (forall k :: k in s.keys ==> s.keys[k].expiresAt == s.clock + cfg.ttl)
             && (forall c :: c in s.calls ==> s.calls[c].claimedAt == Some(s.clock))
    ensures IsRun(cfg, next) && (forall limit :: limit > cfg.ttl ==> CallsShorterThan(cfg, next, limit))
    ensures var (s, t) := (End(cfg, run), End(cfg, next));
            && t.wallets == s.wallets && t.ledger == s.ledger && t.calls == s.calls && t.keys == map[]
  {
    var tick := Tick(cfg.ttl);
    var s := End(cfg, run);
    next := RunExtends(cfg, run, tick);
    assert next[..|next| - 1] == run && next[|next| - 1] == tick;
    assert forall limit :: limit > cfg.ttl ==> InTime(s, tick, limit);
    assert Due(s, cfg.ttl) == s.keys.Keys;
  }

  /**
   The hypothesis of KeyTheorem is needed, whatever the lifetime: if the record expires
   while its call still runs, a retry claims the key anew, and both post.
   */
  lemma ExpiryUnderARunningCall(cfg: Settings, a: Id, b: Id) returns (run: seq<Action>)
    requires cfg.ttl > 0 && a != b
    ensures IsRun(cfg, run) && (forall limit :: limit > cfg.ttl ==> CallsShorterThan(cfg, run, limit))
    ensures !Separated(End(cfg, run).log) && PostedInOrder(End(cfg, run), a, b)
  {
    run := ClaimRunsOut(cfg);
    var log := End(cfg, run).log;
    run := OneMore(cfg, run, 1, KEY, a);
    run := Finishes(cfg, run, End(cfg, run), 0, KEY, b);
    PostedTwiceInARow(log, KeyOf(cfg, Asks(KEY)).value, a, b);
  }

  /** Where every call ends within `limit` ticks of its claim, keys protect if and only if they live that long. */
  lemma KeysProtectIffLifetimeCoversCalls(cfg: Settings, limit: int)
    ensures (forall run :: IsRun(cfg, run) && CallsShorterThan(cfg, run, limit) ==> Separated(End(cfg, run).log))
            <==> cfg.ttl >= Max(1, limit)
  {
    if cfg.ttl >= Max(1, limit) {
      forall run | IsRun(cfg, run) && CallsShorterThan(cfg, run, limit)
        ensures Separated(End(cfg, run).log)
      {
        LifetimeCoversCalls(cfg, run, limit);
        RunsKeepKeyInv(cfg, run);
      }
    } else if cfg.ttl <= 0 {
      var run := SameRequestTwice(cfg, 0, 1);
    } else {
      var run := ExpiryUnderARunningCall(cfg, 0, 1);
    }
  }
}
