/**
 Why each call got the answer it got. Every finished call of every run is explained by what it
 was told on its way: by the limiter, by the assessment, and by the record it found under its key.
 */
module AnswerTheorem {
  import opened Base
  import opened Wallets
  import opened Movement
  import opened LedgerTheorem
  import opened IdTheorem
  import opened KeyTheorem
  import opened OwnerTheorem

  predicate Denied(cfg: Settings, call: Call) {
    cfg.limitEnabled && !call.granted
  }

  /** The refusals that come after the lock. */
  predicate LateRefusal(why: Refusal) {
    why.WalletBusy? || why.WalletNotFound? || why.VersionConflict? || why.NotPermitted?
  }

  /** The record a call found under its key when it claimed it. */
  predicate FoundOther(call: Call) {
    call.atClaim.Some? && call.atClaim.value.fingerprint != Fingerprint(call.req)
  }

  predicate FoundSame(call: Call) {
    call.atClaim.Some? && call.atClaim.value.fingerprint == Fingerprint(call.req)
  }

  /** Each early refusal is given for its one reason, and for that reason nothing else is. */
  predicate EarlyRefusalsExplained(cfg: Settings, call: Call) {
    && (call.pc == Done(Rejected(RateLimited)) <==> Denied(cfg, call))
    && (call.pc == Done(Rejected(RiskRefused)) <==> call.risk == Some(Refused))
    && (call.pc == Done(Rejected(RiskUnavailable)) <==> call.risk == Some(Unavailable) && !cfg.failOpen)
    && (call.pc == Done(Rejected(KeyReused)) <==> FoundOther(call))
    && (call.pc == Done(Rejected(InProgress)) <==> FoundSame(call) && call.atClaim.value.response.None?)
  }

  predicate LetThrough(cfg: Settings, risk: Option<Risk>) {
    risk == Some(Allowed) || (risk == Some(Unavailable) && cfg.failOpen)
  }

  /** What a call that is still on its way has not been told yet, and what it must have been told. */
  predicate Untold(cfg: Settings, call: Call) {
    && (call.risk.None? <==> Denied(cfg, call) || call.pc.Assessing?)
    && (call.pc.Claiming? || !LetThrough(cfg, call.risk) ==> call.atClaim.None?)
    && (Replaying(call.pc) ==> FoundSame(call) && call.atClaim.value.response.Some?)
    && (call.pc.RollingBack? || call.pc.Releasing? ==> LateRefusal(call.pc.why))
  }

  predicate Explained(cfg: Settings, call: Call) {
    if call.pc.Limiting? then call.risk.None? && call.atClaim.None?
    else if call.pc.Crashed? then true
    else EarlyRefusalsExplained(cfg, call) && Untold(cfg, call)
  }

  lemma MoverExplained(cfg: Settings, s: State, call: Call, turn: Turn)
    requires CanTake(call.pc, turn) && Explained(cfg, call) && (cfg.ttl <= 0 ==> s.keys == map[])
    ensures Explained(cfg, NextCall(cfg, s, call, turn))
  {
    if turn.Claim? {
      assert call.risk.Some? && (call.risk.value.Allowed? || call.risk.value.Refused? || call.risk.value.Unavailable?);
    }
  }

  lemma {:induction false} RunsExplain(cfg: Settings, run: seq<Action>, c: nat)
    requires IsRun(cfg, run) && c in End(cfg, run).calls
    ensures Explained(cfg, End(cfg, run).calls[c])
    decreases |run|
  {
    var (before, a) := (run[..|run| - 1], run[|run| - 1]);
    var s := End(cfg, before);
    if c in s.calls {
      RunsExplain(cfg, before, c);
      if a.Step? && a.c == c {
        if cfg.ttl <= 0 {
          NoLifetimeNoRecords(cfg, before);
        }
        MoverExplained(cfg, s, s.calls[c], a.turn);
      }
    }
  }

  /**
   In every run a finished call was rate limited exactly if the limiter is on and denied it, refused
   by risk exactly if the provider refused, unavailable exactly if the provider was and fail-open is
   off, told its key is reused exactly if it found another payload under it, and told it is in
   progress exactly if it found its own payload without a response.
   */
  lemma EarlyRefusalsAreExplained(cfg: Settings, run: seq<Action>, c: nat)
    requires IsRun(cfg, run) && c in End(cfg, run).calls && End(cfg, run).calls[c].pc.Done?
    ensures var (call, answer) := (End(cfg, run).calls[c], End(cfg, run).calls[c].pc.answer);
            && (answer == Rejected(RateLimited) <==> cfg.limitEnabled && !call.granted)
            && (answer == Rejected(RiskRefused) <==> call.risk == Some(Refused))
            && (answer == Rejected(RiskUnavailable) <==> call.risk == Some(Unavailable) && !cfg.failOpen)
            && (answer == Rejected(KeyReused) <==>
                  call.atClaim.Some? && call.atClaim.value.fingerprint != Fingerprint(call.req))
            && (answer == Rejected(InProgress) <==>
                  && call.atClaim.Some? && call.atClaim.value.fingerprint == Fingerprint(call.req)
                  && call.atClaim.value.response.None?)
  {
    RunsExplain(cfg, run, c);
  }

  /** Nobody is turned away before the claim but for a denial, a refusal, or an outage without fail-open. */
  lemma GatesOpenIff(cfg: Settings, run: seq<Action>, c: nat, turn: Turn)
    requires IsRun(cfg, run) && Enabled(End(cfg, run), Step(c, turn)) && (turn.Limit? || turn.Assess?)
    ensures var pc := NextCalls(cfg, End(cfg, run), Step(c, turn))[c].pc;
            && (turn.Limit? ==>
                  && (pc == Assessing <==> !cfg.limitEnabled || turn.granted)
                  && (pc == Done(Rejected(RateLimited)) <==> cfg.limitEnabled && !turn.granted))
            && (turn.Assess? ==>
                  && (pc == Claiming <==> turn.risk == Allowed || (turn.risk == Unavailable && cfg.failOpen))
                  && (pc == Done(Rejected(RiskRefused)) <==> turn.risk == Refused)
                  && (pc == Done(Rejected(RiskUnavailable)) <==> turn.risk == Unavailable && !cfg.failOpen))
  {
    var next := run + [Step(c, turn)];
    assert next[..|next| - 1] == run;
    RunsExplain(cfg, next, c);
  }

  // ----- replays

  /** The id of the entry a call in the middle of a replay, or at its end, is about. */
  function ReplayedId(pc: Pc): Option<Id> {
    match pc
    case FindingEntry(r) => Some(r.entry)
    case FindingWallet(Some(e)) => Some(e.id)
    case EndingReplay(e) => Some(e.id)
    case Done(Settled(e, true, _)) => Some(e.id)
    case _ => None
  }

  /** A call that found its payload with a response is replaying that response, or has, or died on the way. */
  predicate ReplaysWhatItFound(call: Call) {
    && (FoundSame(call) && call.atClaim.value.response.Some? && !call.pc.Crashed? ==>
          ReplayedId(call.pc) == Some(call.atClaim.value.response.value.entry))
    && (ReplayedId(call.pc).Some? ==> FoundSame(call) && call.atClaim.value.response.Some?)
    && (call.pc.Limiting? || call.pc.Assessing? || call.pc.Claiming? ==> call.atClaim.None?)
  }

  lemma MoverReplays(cfg: Settings, s: State, call: Call, turn: Turn)
    requires CanTake(call.pc, turn) && ReplaysWhatItFound(call) && cfg.ttl > 0
    requires Backed(cfg, s.wallets, s.ledger, s.calls, call)
    ensures ReplaysWhatItFound(NextCall(cfg, s, call, turn))
  {
    if turn.FindEntry? {
      FindByIdIsIn(s.ledger, call.pc.receipt.entry);
    }
  }

  lemma {:induction false} RunsReplay(cfg: Settings, run: seq<Action>, c: nat)
    requires IsRun(cfg, run) && RecordsOutliveCalls(cfg, run) && cfg.ttl > 0 && c in End(cfg, run).calls
    ensures ReplaysWhatItFound(End(cfg, run).calls[c])
    decreases |run|
  {
    var (before, a) := (run[..|run| - 1], run[|run| - 1]);
    var s := End(cfg, before);
    if c in s.calls {
      RunsReplay(cfg, before, c);
      if a.Step? && a.c == c {
        RunsKeepKeyInv(cfg, before);
        assert Backed(cfg, s.wallets, s.ledger, s.calls, s.calls[c]);
        MoverReplays(cfg, s, s.calls[c], a.turn);
      }
    }
  }

  /** What `call` commits it commits as its own. */
  ghost predicate FreshIsOwn(ledger: seq<Posting>, call: Call, c: nat) {
    match call.pc
    case ConfirmReading(e) => Posting(e, c) in ledger
    case ConfirmWriting(e, _) => Posting(e, c) in ledger
    case Done(Settled(e, false, _)) => Posting(e, c) in ledger
    case _ => true
  }

  lemma StepPostsItsOwn(cfg: Settings, s: State, a: Action, c: nat)
    requires Enabled(s, a) && c in s.calls && FreshIsOwn(s.ledger, s.calls[c], c)
    ensures FreshIsOwn(NextLedger(s, a), NextCalls(cfg, s, a)[c], c)
  {
  }

  lemma {:induction false} RunsPostTheirOwn(cfg: Settings, run: seq<Action>, c: nat)
    requires IsRun(cfg, run) && c in End(cfg, run).calls
    ensures FreshIsOwn(End(cfg, run).ledger, End(cfg, run).calls[c], c)
    decreases |run|
  {
    var (before, a) := (run[..|run| - 1], run[|run| - 1]);
    var s := End(cfg, before);
    if c in s.calls {
      RunsPostTheirOwn(cfg, before, c);
      StepPostsItsOwn(cfg, s, a, c);
    }
  }

  /**
   In every run in which records outlive their calls, a finished call was answered with a replay
   exactly if it found its own payload with a response under its key; it is then the committed entry
   that response names, with the balance it was written with. A settled answer that is no replay is
   the call's own posting.
   */
  lemma ReplaysAreExplained(cfg: Settings, run: seq<Action>, c: nat)
    requires IsRun(cfg, run) && RecordsOutliveCalls(cfg, run) && cfg.ttl > 0
    requires c in End(cfg, run).calls && End(cfg, run).calls[c].pc.Done?
    ensures var (s, call, answer) := (End(cfg, run), End(cfg, run).calls[c], End(cfg, run).calls[c].pc.answer);
            var replay := FoundSame(call) && call.atClaim.value.response.Some?;
            && (replay <==> answer.Settled? && answer.replayed)
            && (replay ==>
                  && answer.balance == answer.entry.balanceAfter
                  && exists p :: p in s.ledger && p.entry == answer.entry
                       && p.entry.id == call.atClaim.value.response.value.entry)
            && (answer.Settled? && !answer.replayed ==> Posting(answer.entry, c) in s.ledger)
  {
    RunsReplay(cfg, run, c);
    RunsPostTheirOwn(cfg, run, c);
    RunsKeepKeyInv(cfg, run);
    var (s, call) := (End(cfg, run), End(cfg, run).calls[c]);
    assert Backed(cfg, s.wallets, s.ledger, s.calls, call);
    if call.pc.answer.Settled? {
      FindByIdIsIn(s.ledger, call.pc.answer.entry.id);
    }
  }

  /** What a claim is told by the record that is there, or by there being none. */
  lemma ClaimIsToldIff(cfg: Settings, run: seq<Action>, c: nat)
    requires IsRun(cfg, run) && Enabled(End(cfg, run), Step(c, Claim)) && cfg.ttl > 0
    requires End(cfg, run).calls[c].req.key.Some?
    ensures var s := End(cfg, run);
            var (req, pc) := (s.calls[c].req, NextCalls(cfg, s, Step(c, Claim))[c].pc);
            var found := Lookup(s.keys, cfg.scope(req.owner, req.key.value));
            && (pc == Done(Rejected(KeyReused)) <==> found.Some? && found.value.fingerprint != Fingerprint(req))
            && (pc == Done(Rejected(InProgress)) <==>
                  found.Some? && found.value.fingerprint == Fingerprint(req) && found.value.response.None?)
            && (pc.FindingEntry? <==>
                  found.Some? && found.value.fingerprint == Fingerprint(req) && found.value.response.Some?)
            && (pc.FindingEntry? ==> pc.receipt == found.value.response.value)
            && (pc == Locking <==> found.None?)
            && NextKeys(cfg, s, Step(c, Claim))
               == if found.Some? then s.keys
                  else s.keys[cfg.scope(req.owner, req.key.value) :=
                         Record(Fingerprint(req), None, s.clock + cfg.ttl, c)]
  {
  }
}
