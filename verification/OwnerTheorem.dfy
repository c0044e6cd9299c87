/**
 What one owner's requests can do to everybody else, and what a refused request
 leaves behind.
 */
module OwnerTheorem {
  import opened Base
  import opened Wallets
  import opened Identity
  import opened Movement
  import opened LedgerTheorem
  import opened KeyTheorem

  // ----- isolation

  ghost predicate InjectiveScope(cfg: Settings) {
    forall o1, k1, o2, k2 :: cfg.scope(o1, k1) == cfg.scope(o2, k2) ==> o1 == o2 && k1 == k2
  }

  /** The key the code builds from owner and client string satisfies the hypothesis below. */
  lemma DeployedScopeIsInjective(limitEnabled: bool, failOpen: bool, ttl: int)
    ensures InjectiveScope(Deployed(limitEnabled, failOpen, ttl))
  {
    var cfg := Deployed(limitEnabled, failOpen, ttl);
    forall o1, k1, o2, k2 | cfg.scope(o1, k1) == cfg.scope(o2, k2)
      ensures o1 == o2 && k1 == k2
    {
      ScopedKeyInjective(o1, k1, o2, k2);
    }
  }

  /** On whose behalf an action happens; time passes for everyone. */
  function OnBehalfOf(s: State, a: Action): Option<Id> {
    match a
    case OpenWallet(_, owner, _, _) => Some(owner)
    case CloseWallet(w, _) => if w in s.wallets then Some(s.wallets[w].owner) else None
    case Begin(_, req) => Some(req.owner)
    case Step(c, _) => if c in s.calls then Some(s.calls[c].req.owner) else None
    case Tick(_) => None
  }

  /** A stored record is what it was, or gone because its time has come. */
  predicate KeptUntilDue(was: Option<Record>, now: Option<Record>, clock: int) {
    now == was || (was.Some? && now.None? && was.value.expiresAt <= clock)
  }

  /** Nothing of `o`'s differs: wallets, their entries, and the records of its keys that have not run out. */
  ghost predicate SameFor(cfg: Settings, o: Id, s: State, t: State) {
    && s.clock <= t.clock
    && (forall w :: Owned(s.wallets, w, o) || Owned(t.wallets, w, o) ==>
          && w in s.wallets && w in t.wallets && s.wallets[w] == t.wallets[w]
          && EntriesOf(s.ledger, w) == EntriesOf(t.ledger, w))
    && (forall k :: KeptUntilDue(Lookup(s.keys, cfg.scope(o, k)), Lookup(t.keys, cfg.scope(o, k)), t.clock))
  }

  lemma KeysOfOthersStay(cfg: Settings, s: State, a: Action, o: Id, k: string)
    requires InjectiveScope(cfg) && Enabled(s, a) && OnBehalfOf(s, a) != Some(o)
    ensures KeptUntilDue(Lookup(s.keys, cfg.scope(o, k)), Lookup(NextKeys(cfg, s, a), cfg.scope(o, k)),
                         Apply(cfg, s, a).clock)
  {
    if a.Step? && s.calls[a.c].req.key.Some? {
      assert cfg.scope(s.calls[a.c].req.owner, s.calls[a.c].req.key.value) != cfg.scope(o, k);
    }
  }

  lemma RowsOfOthersStay(s: State, a: Action, o: Id, w: Id)
    requires Inv(s) && Enabled(s, a) && OnBehalfOf(s, a) != Some(o)
    requires Owned(s.wallets, w, o) || Owned(NextWallets(s, a), w, o)
    ensures w in s.wallets && w in NextWallets(s, a) && NextWallets(s, a)[w] == s.wallets[w]
    ensures EntriesOf(NextLedger(s, a), w) == EntriesOf(s.ledger, w)
  {
    TablesStaySound(s, a);
    if Commits(a) {
      assert CallOk(s.wallets, s.calls[a.c]);
      EntriesExtend(s.ledger, Posting(s.calls[a.c].pc.entry, a.c), w);
      assert EntriesOf(s.ledger, w) + [] == EntriesOf(s.ledger, w);
    }
  }

  /** From position `from` on, nothing in the run is done for `o`. */
  ghost predicate Avoids(cfg: Settings, run: seq<Action>, from: nat, o: Id)
    requires IsRun(cfg, run) && from <= |run|
    decreases |run|
  {
    from == |run| ||
    var (before, a) := (run[..|run| - 1], run[|run| - 1]);
    Avoids(cfg, before, from, o) && OnBehalfOf(End(cfg, before), a) != Some(o)
  }

  /** `run[..n]` of a run is a run. */
  lemma {:induction false} PrefixIsRun(cfg: Settings, run: seq<Action>, n: nat)
    requires IsRun(cfg, run) && n <= |run|
    ensures IsRun(cfg, run[..n])
    decreases |run|
  {
    if n == |run| {
      assert run[..n] == run;
    } else {
      PrefixIsRun(cfg, run[..|run| - 1], n);
      assert run[..|run| - 1][..n] == run[..n];
    }
  }

  /**
   Isolation: whatever other owners do, whichever client keys they choose and however
   long it takes, `o`'s committed wallets and entries stay what they were, and its key
   records do until they expire.
   */
  lemma {:induction false} OthersCannotTouch(cfg: Settings, run: seq<Action>, from: nat, o: Id)
    requires InjectiveScope(cfg) && IsRun(cfg, run) && from <= |run| && Avoids(cfg, run, from, o)
    ensures IsRun(cfg, run[..from])
    ensures SameFor(cfg, o, End(cfg, run[..from]), End(cfg, run))
    decreases |run|
  {
    if from == |run| {
      assert run[..from] == run;
    } else {
      var (before, a) := (run[..|run| - 1], run[|run| - 1]);
      OthersCannotTouch(cfg, before, from, o);
      assert before[..from] == run[..from];
      RunsKeepInv(cfg, before);
      StepCannotTouch(cfg, End(cfg, before), a, o);
      SameForJoins(cfg, o, End(cfg, run[..from]), End(cfg, before), End(cfg, run));
    }
  }

  lemma SameForJoins(cfg: Settings, o: Id, r: State, s: State, t: State)
    requires SameFor(cfg, o, r, s) && SameFor(cfg, o, s, t)
    ensures SameFor(cfg, o, r, t)
  {
    forall k
      ensures KeptUntilDue(Lookup(r.keys, cfg.scope(o, k)), Lookup(t.keys, cfg.scope(o, k)), t.clock)
    {
      assert KeptUntilDue(Lookup(r.keys, cfg.scope(o, k)), Lookup(s.keys, cfg.scope(o, k)), s.clock);
    }
  }

  lemma StepCannotTouch(cfg: Settings, s: State, a: Action, o: Id)
    requires InjectiveScope(cfg) && Inv(s) && Enabled(s, a) && OnBehalfOf(s, a) != Some(o)
    ensures SameFor(cfg, o, s, Apply(cfg, s, a))
  {
    forall w | Owned(s.wallets, w, o) || Owned(NextWallets(s, a), w, o)
      ensures w in s.wallets && w in NextWallets(s, a) && NextWallets(s, a)[w] == s.wallets[w]
      ensures EntriesOf(NextLedger(s, a), w) == EntriesOf(s.ledger, w)
    {
      RowsOfOthersStay(s, a, o, w);
    }
    forall k
      ensures KeptUntilDue(Lookup(s.keys, cfg.scope(o, k)), Lookup(NextKeys(cfg, s, a), cfg.scope(o, k)),
                           Apply(cfg, s, a).clock)
    {
      KeysOfOthersStay(cfg, s, a, o, k);
    }
  }

  // ----- refusals and permissions

  /** The limiter granted (when it is enabled) and the assessment let the movement through. */
  predicate Vetted(cfg: Settings, call: Call) {
    && (cfg.limitEnabled ==> call.granted)
    && (call.risk == Some(Allowed) || (call.risk == Some(Unavailable) && cfg.failOpen))
  }

  predicate Replaying(pc: Pc) {
    pc.FindingEntry? || pc.FindingWallet? || pc.EndingReplay?
  }

  predicate Settled(pc: Pc) {
    pc.Done? && pc.answer.Settled?
  }

  /** What a call was told before it got where it is. */
  ghost predicate Permitted(cfg: Settings, call: Call) {
    && (call.pc.Assessing? ==> (cfg.limitEnabled ==> call.granted))
    && (call.pc.Claiming? || Replaying(call.pc) || BeforeCommit(call.pc) || Confirming(call.pc) || Settled(call.pc) ==>
          Vetted(cfg, call))
  }

  predicate PastCommit(pc: Pc) {
    Confirming(pc) || Settled(pc) || pc.Crashed?
  }

  /** A posting's call was vetted, is past its commit and was not refused. */
  ghost predicate PostedOnce(cfg: Settings, s: State) {
    && (forall p :: p in s.ledger ==>
          p.call in s.calls && Vetted(cfg, s.calls[p.call]) && PastCommit(s.calls[p.call].pc))
    && (forall i, j :: 0 <= i < j < |s.ledger| ==> s.ledger[i].call != s.ledger[j].call)
  }

  ghost predicate GateInv(cfg: Settings, s: State) {
    && (forall c :: c in s.calls ==> Permitted(cfg, s.calls[c]))
    && PostedOnce(cfg, s)
  }

  lemma MoverPermitted(cfg: Settings, s: State, call: Call, turn: Turn)
    requires Permitted(cfg, call) && CanTake(call.pc, turn)
    ensures Permitted(cfg, NextCall(cfg, s, call, turn))
  {
  }

  lemma PosterStays(cfg: Settings, s: State, call: Call, turn: Turn)
    requires CanTake(call.pc, turn) && Vetted(cfg, call)
    requires PastCommit(call.pc) || turn.Commit?
    ensures Vetted(cfg, NextCall(cfg, s, call, turn)) && PastCommit(NextCall(cfg, s, call, turn).pc)
  {
  }

  lemma StepKeepsGate(cfg: Settings, s: State, a: Action)
    requires GateInv(cfg, s) && Enabled(s, a)
    ensures GateInv(cfg, Apply(cfg, s, a))
  {
    if a.Step? {
      assert Permitted(cfg, s.calls[a.c]);
      MoverPermitted(cfg, s, s.calls[a.c], a.turn);
    }
    forall p | p in NextLedger(s, a)
      ensures p.call in NextCalls(cfg, s, a)
      ensures Vetted(cfg, NextCalls(cfg, s, a)[p.call]) && PastCommit(NextCalls(cfg, s, a)[p.call].pc)
    {
      if a.Step? && p.call == a.c {
        PosterStays(cfg, s, s.calls[a.c], a.turn);
      }
    }
  }

  lemma {:induction false} RunsKeepGate(cfg: Settings, run: seq<Action>)
    requires IsRun(cfg, run)
    ensures GateInv(cfg, End(cfg, run))
    decreases |run|
  {
    if run != [] {
      RunsKeepGate(cfg, run[..|run| - 1]);
      StepKeepsGate(cfg, End(cfg, run[..|run| - 1]), run[|run| - 1]);
    }
  }

  /**
   Every committed entry was preceded, in its own call, by a limiter grant when
   limiting is enabled, and by ALLOWED, or by UNAVAILABLE with fail-open set; and
   no call commits twice.
   */
  lemma EntriesWerePermitted(cfg: Settings, run: seq<Action>, p: Posting)
    requires IsRun(cfg, run) && p in End(cfg, run).ledger
    ensures p.call in End(cfg, run).calls && Vetted(cfg, End(cfg, run).calls[p.call])
    ensures forall q :: q in End(cfg, run).ledger && q.call == p.call ==> q == p
  {
    RunsKeepGate(cfg, run);
  }

  /** A commit leaves its call in the ledger for good. */
  lemma {:induction false} CommitsLeavePostings(cfg: Settings, run: seq<Action>, c: nat, i: nat)
    requires IsRun(cfg, run) && i < |run| && run[i] == Step(c, Commit)
    ensures exists p :: p in End(cfg, run).ledger && p.call == c
    decreases |run|
  {
    var (before, a) := (run[..|run| - 1], run[|run| - 1]);
    var s := End(cfg, before);
    if i == |run| - 1 {
      assert NextLedger(s, a)[|s.ledger|].call == c;
    } else {
      CommitsLeavePostings(cfg, before, c, i);
      var p :| p in s.ledger && p.call == c;
      assert p in NextLedger(s, a);
    }
  }

  /** The action at `i` of a run, if no commit, left both tables as it found them. */
  lemma OnlyCommitsMove(cfg: Settings, run: seq<Action>, i: nat)
    requires IsRun(cfg, run) && i < |run| && run[i].Step? && !run[i].turn.Commit?
    ensures IsRun(cfg, run[..i]) && IsRun(cfg, run[..i + 1])
    ensures End(cfg, run[..i + 1]).wallets == End(cfg, run[..i]).wallets
    ensures End(cfg, run[..i + 1]).ledger == End(cfg, run[..i]).ledger
  {
    PrefixIsRun(cfg, run, i);
    PrefixIsRun(cfg, run, i + 1);
    assert run[..i + 1][..i] == run[..i];
  }

  lemma RefusedCallsPostNothing(cfg: Settings, run: seq<Action>, c: nat)
    requires IsRun(cfg, run) && c in End(cfg, run).calls
    requires End(cfg, run).calls[c].pc.Done? && End(cfg, run).calls[c].pc.answer.Rejected?
    ensures forall p :: p in End(cfg, run).ledger ==> p.call != c
  {
    RunsKeepGate(cfg, run);
  }

  /** A refused call never committed: each of its steps left both tables as it found them. */
  lemma RefusedCallsMovedNothing(cfg: Settings, run: seq<Action>, c: nat, i: nat)
    requires IsRun(cfg, run) && c in End(cfg, run).calls
    requires End(cfg, run).calls[c].pc.Done? && End(cfg, run).calls[c].pc.answer.Rejected?
    requires i < |run| && run[i].Step? && run[i].c == c
    ensures forall p :: p in End(cfg, run).ledger ==> p.call != c
    ensures IsRun(cfg, run[..i]) && IsRun(cfg, run[..i + 1])
    ensures End(cfg, run[..i + 1]).wallets == End(cfg, run[..i]).wallets
    ensures End(cfg, run[..i + 1]).ledger == End(cfg, run[..i]).ledger
  {
    RefusedCallsPostNothing(cfg, run, c);
    if run[i].turn.Commit? {
      CommitsLeavePostings(cfg, run, c, i);
    } else {
      OnlyCommitsMove(cfg, run, i);
    }
  }

  /** A call still on its way to a commit found nothing under its key when it claimed it. */
  predicate FoundNothing(call: Call) {
    BeforeCommit(call.pc) && call.req.key.Some? ==> call.atClaim == None
  }

  lemma MoverFoundNothing(cfg: Settings, s: State, call: Call, turn: Turn)
    requires FoundNothing(call) && CanTake(call.pc, turn) && cfg.ttl > 0
    requires Backed(cfg, s.wallets, s.ledger, s.calls, call)
    ensures FoundNothing(NextCall(cfg, s, call, turn))
  {
  }

  lemma {:induction false} RunsKeepFoundNothing(cfg: Settings, run: seq<Action>, c: nat)
    requires IsRun(cfg, run) && RecordsOutliveCalls(cfg, run) && cfg.ttl > 0
    requires c in End(cfg, run).calls
    ensures FoundNothing(End(cfg, run).calls[c])
    decreases |run|
  {
    var (before, a) := (run[..|run| - 1], run[|run| - 1]);
    var s := End(cfg, before);
    if c in s.calls {
      RunsKeepFoundNothing(cfg, before, c);
      RunsKeepKeyInv(cfg, before);
      if a.Step? && a.c == c {
        assert Backed(cfg, s.wallets, s.ledger, s.calls, s.calls[c]);
        MoverFoundNothing(cfg, s, s.calls[c], a.turn);
      }
    }
  }

  /** Without a lifetime nothing is ever stored, so nothing is ever found or written back. */
  ghost predicate StoreUnused(s: State) {
    s.keys == map[] && forall c :: c in s.calls ==> s.calls[c].atClaim == None && !s.calls[c].pc.ConfirmWriting?
  }

  lemma {:induction false} NoLifetimeNoRecords(cfg: Settings, run: seq<Action>)
    requires IsRun(cfg, run) && cfg.ttl <= 0
    ensures StoreUnused(End(cfg, run))
    decreases |run|
  {
    if run != [] {
      NoLifetimeNoRecords(cfg, run[..|run| - 1]);
    }
  }

  lemma ClaimRefusalKeepsKeys(cfg: Settings, s: State, c: nat)
    requires c in s.calls && s.calls[c].pc.Claiming? && cfg.ttl > 0
    requires AfterClaim(cfg, s.keys, s.calls[c].req).Done?
    ensures Reserved(cfg, s, c, s.calls[c].req) == s.keys
  {
  }

  lemma ReleaseEmptiesKey(cfg: Settings, s: State, c: nat)
    requires c in s.calls && s.calls[c].pc.Releasing? && Holds(cfg, s.keys, s.calls[c], c)
    ensures forall k :: Lookup(Released(cfg, s, s.calls[c].req), k)
                        == if KeyOf(cfg, s.calls[c].req) == Some(k) then None else Lookup(s.keys, k)
  {
  }

  /**
   The step that refuses a call leaves its key as the claim found it, and touches
   no other key; a call refused before its claim touches none at all.
   */
  lemma RefusalsRestoreTheKey(cfg: Settings, run: seq<Action>, c: nat, turn: Turn)
    requires IsRun(cfg, run) && RecordsOutliveCalls(cfg, run)
    requires Enabled(End(cfg, run), Step(c, turn))
    requires var (s, call) := (End(cfg, run), End(cfg, run).calls[c]);
             var pc := NextPc(cfg, s, call.req, call.pc, turn);
             pc.Done? && pc.answer.Rejected?
    ensures var (s, call) := (End(cfg, run), End(cfg, run).calls[c]);
            var after := NextKeys(cfg, s, Step(c, turn));
            if turn.Limit? || turn.Assess? then after == s.keys
            else forall k :: Lookup(after, k) ==
                   if KeyOf(cfg, call.req) == Some(k) then NextCall(cfg, s, call, turn).atClaim else Lookup(s.keys, k)
  {
    var s := End(cfg, run);
    if cfg.ttl <= 0 {
      NoLifetimeNoRecords(cfg, run);
    } else if turn.Claim? {
      ClaimRefusalKeepsKeys(cfg, s, c);
    } else if turn.Release? {
      RunsKeepFoundNothing(cfg, run, c);
      RunsKeepKeyInv(cfg, run);
      assert Holds(cfg, s.keys, s.calls[c], c);
      ReleaseEmptiesKey(cfg, s, c);
    }
  }
}
