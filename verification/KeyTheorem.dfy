/**
 What the idempotency key guarantees. The store's `confirm` and `release` carry no
 ownership token, so everything here rests on one hypothesis about the run: no
 record expires while the call that reserved it is still running.
 */
module KeyTheorem {
  import opened Base
  import opened Wallets
  import opened Movement
  import opened LedgerTheorem
  import opened IdTheorem

  type Calls = map<nat, Call>

  predicate Finished(pc: Pc) {
    pc.Done? || pc.Crashed?
  }

  ghost predicate ExpiresLate(s: State, a: Action) {
    a.Tick? ==>
      forall k :: k in Due(s, a.dt) && s.keys[k].holder in s.calls ==> Finished(s.calls[s.keys[k].holder].pc)
  }

  /** The hypothesis, for a whole run. */
  ghost predicate RecordsOutliveCalls(cfg: Settings, run: seq<Action>)
    requires IsRun(cfg, run)
    decreases |run|
  {
    run == [] ||
    (RecordsOutliveCalls(cfg, run[..|run| - 1]) && ExpiresLate(End(cfg, run[..|run| - 1]), run[|run| - 1]))
  }

  /** When time passes, no unfinished call gets to be `limit` ticks or more past its claim. */
  ghost predicate InTime(s: State, a: Action, limit: int) {
    a.Tick? ==>
      forall c :: c in s.calls && !Finished(s.calls[c].pc) && s.calls[c].claimedAt.Some? ==>
        s.clock + a.dt - s.calls[c].claimedAt.value < limit
  }

  ghost predicate CallsShorterThan(cfg: Settings, run: seq<Action>, limit: int)
    requires IsRun(cfg, run)
    decreases |run|
  {
    run == [] ||
    (CallsShorterThan(cfg, run[..|run| - 1], limit) && InTime(End(cfg, run[..|run| - 1]), run[|run| - 1], limit))
  }

  predicate BeforeCommit(pc: Pc) {
    pc.Locking? || pc.Reading? || pc.Deciding? || Drafted(pc) || pc.RollingBack? || pc.Releasing?
  }

  predicate Confirming(pc: Pc) {
    pc.ConfirmReading? || pc.ConfirmWriting?
  }

  predicate CanHold(pc: Pc) {
    BeforeCommit(pc) || Confirming(pc) || Finished(pc)
  }

  /** A call past its claim holds the record under its key, unconfirmed. */
  ghost predicate Holds(cfg: Settings, keys: map<string, Record>, call: Call, c: nat) {
    (BeforeCommit(call.pc) || Confirming(call.pc)) && call.req.key.Some? ==>
      && var k := KeyOf(cfg, call.req).value;
      && k in keys && keys[k].holder == c && keys[k].response == None
      && keys[k].fingerprint == Fingerprint(call.req)
      && (call.pc.ConfirmWriting? ==> call.pc.seen == keys[k])
  }

  predicate Matches(entry: Entry, p: Payload) {
    && entry.wallet == p.wallet && entry.direction == p.direction && entry.currency == p.currency
    && entry.cents == Worth(p.amount) && entry.description == Strip(p.description)
  }

  /** `entry` is committed, is what `req` asked for, and was made by a call with that key and payload. */
  ghost predicate Made(cfg: Settings, wallets: Table, ledger: seq<Posting>, calls: Calls, req: Request, entry: Entry) {
    && Matches(entry, Fingerprint(req))
    && Owned(wallets, req.wallet, req.owner)
    && var p := FindById(ledger, entry.id);
    && p.Some? && p.value.entry == entry && p.value.call in calls
    && var maker := calls[p.value.call].req;
    && KeyOf(cfg, maker) == KeyOf(cfg, req) && Fingerprint(maker) == Fingerprint(req)
  }

  /** What a call in the middle of a replay, a confirmation or an answer knows. */
  ghost predicate Backed(cfg: Settings, wallets: Table, ledger: seq<Posting>, calls: Calls, call: Call) {
    match call.pc
    case FindingEntry(r) =>
      var p := FindById(ledger, r.entry);
      p.Some? && Made(cfg, wallets, ledger, calls, call.req, p.value.entry)
    case FindingWallet(found) => found.Some? && Made(cfg, wallets, ledger, calls, call.req, found.value)
    case EndingReplay(e) => Made(cfg, wallets, ledger, calls, call.req, e)
    case ConfirmReading(e) => call.req.key.Some? && Made(cfg, wallets, ledger, calls, call.req, e)
    case ConfirmWriting(e, _) => call.req.key.Some? && Made(cfg, wallets, ledger, calls, call.req, e)
    case Done(Settled(e, _, balance)) =>
      balance == e.balanceAfter && Made(cfg, wallets, ledger, calls, call.req, e)
    case _ => true
  }

  /** A record belongs to a call with its payload, and its response is a receipt for that payload. */
  ghost predicate RecordOk(cfg: Settings, wallets: Table, ledger: seq<Posting>, calls: Calls, k: string, r: Record) {
    && r.holder in calls
    && var holder := calls[r.holder];
    && KeyOf(cfg, holder.req) == Some(k) && Fingerprint(holder.req) == r.fingerprint
    && CanHold(holder.pc)
    && (r.response.Some? ==>
          && Finished(holder.pc)
          && var p := FindById(ledger, r.response.value.entry);
          && p.Some? && p.value.entry.wallet == r.response.value.wallet
          && Made(cfg, wallets, ledger, calls, holder.req, p.value.entry))
  }

  /** Has `k` been posted since it last expired? */
  predicate PostedSince(log: seq<Event>, k: string) {
    log != [] &&
    match log[|log| - 1]
    case Posted(key, _) => key == k || PostedSince(log[..|log| - 1], k)
    case Expired(keys) => k !in keys && PostedSince(log[..|log| - 1], k)
  }

  /** Every posting happened when its key had not been posted since it last expired. */
  predicate Separated(log: seq<Event>) {
    log == [] ||
    (Separated(log[..|log| - 1])
     && (log[|log| - 1].Posted? ==> !PostedSince(log[..|log| - 1], log[|log| - 1].key)))
  }

  /** A key posted since its last expiry still has its record, held by a call past its commit. */
  ghost predicate StillClaimed(keys: map<string, Record>, calls: Calls, k: string) {
    && k in keys && keys[k].holder in calls
    && var pc := calls[keys[k].holder].pc;
    && (Confirming(pc) || Finished(pc))
  }

  ghost predicate KeyInv(cfg: Settings, s: State) {
    && (forall c :: c in s.calls ==> Holds(cfg, s.keys, s.calls[c], c))
    && (forall c :: c in s.calls ==> Backed(cfg, s.wallets, s.ledger, s.calls, s.calls[c]))
    && (forall k :: k in s.keys ==> RecordOk(cfg, s.wallets, s.ledger, s.calls, k, s.keys[k]))
    && (forall k :: PostedSince(s.log, k) ==> StillClaimed(s.keys, s.calls, k))
    && Separated(s.log)
  }

  // ----- who holds a key

  /** Claiming an absent key reserves it for the claimer. */
  lemma ClaimerHolds(cfg: Settings, s: State, c: nat)
    requires c in s.calls && s.calls[c].pc.Claiming? && cfg.ttl > 0
    ensures Holds(cfg, Reserved(cfg, s, c, s.calls[c].req), NextCall(cfg, s, s.calls[c], Claim), c)
  {
  }

  lemma MoverHolds(cfg: Settings, s: State, c: nat, turn: Turn)
    requires c in s.calls && CanTake(s.calls[c].pc, turn) && !turn.Claim? && cfg.ttl > 0
    requires Holds(cfg, s.keys, s.calls[c], c) && Backed(cfg, s.wallets, s.ledger, s.calls, s.calls[c])
    ensures turn.ConfirmWrite? || turn.Release? || Holds(cfg, s.keys, NextCall(cfg, s, s.calls[c], turn), c)
  {
  }

  /** Only the holder writes, releases or reserves a held key. */
  lemma OthersLeaveHeldKey(cfg: Settings, s: State, c: nat, turn: Turn, k: string)
    requires Enabled(s, Step(c, turn)) && k in s.keys && s.keys[k].holder != c
    requires Holds(cfg, s.keys, s.calls[c], c) && Backed(cfg, s.wallets, s.ledger, s.calls, s.calls[c])
    ensures var after := NextKeys(cfg, s, Step(c, turn)); k in after && after[k] == s.keys[k]
  {
  }

  /** A held key expires only after its call. */
  lemma BystanderHolds(cfg: Settings, s: State, a: Action, d: nat)
    requires KeyInv(cfg, s) && Enabled(s, a) && ExpiresLate(s, a)
    requires d in s.calls && (a.Step? ==> a.c != d)
    ensures Holds(cfg, NextKeys(cfg, s, a), s.calls[d], d)
  {
    assert Holds(cfg, s.keys, s.calls[d], d);
    if a.Step? && s.calls[d].req.key.Some? && KeyOf(cfg, s.calls[d].req).value in s.keys {
      assert Holds(cfg, s.keys, s.calls[a.c], a.c);
      assert Backed(cfg, s.wallets, s.ledger, s.calls, s.calls[a.c]);
      if s.keys[KeyOf(cfg, s.calls[d].req).value].holder == d {
        OthersLeaveHeldKey(cfg, s, a.c, a.turn, KeyOf(cfg, s.calls[d].req).value);
      }
    }
  }

  // ----- what committed entries stay

  lemma {:induction false} FindByIdIsIn(ledger: seq<Posting>, id: Id)
    requires FindById(ledger, id).Some?
    ensures FindById(ledger, id).value in ledger && FindById(ledger, id).value.entry.id == id
  {
    if ledger[|ledger| - 1].entry.id != id {
      FindByIdIsIn(ledger[..|ledger| - 1], id);
    }
  }

  lemma FindInExtended(ledger: seq<Posting>, p: Posting, id: Id)
    ensures FindById(ledger + [p], id) == if p.entry.id == id then Some(p) else FindById(ledger, id)
  {
    assert (ledger + [p])[..|ledger + [p]| - 1] == ledger;
  }

  lemma FoundStaysFound(s: State, a: Action, id: Id)
    requires IdsDistinct(s) && Enabled(s, a) && FindById(s.ledger, id).Some?
    ensures FindById(NextLedger(s, a), id) == FindById(s.ledger, id)
  {
    if Commits(a) {
      FindByIdIsIn(s.ledger, id);
      assert StagedAlone(s.ledger, s.calls, a.c);
      FindInExtended(s.ledger, Posting(s.calls[a.c].pc.entry, a.c), id);
    }
  }

  lemma RequestsStay(cfg: Settings, s: State, a: Action, c: nat)
    requires Enabled(s, a) && c in s.calls
    ensures c in NextCalls(cfg, s, a) && NextCalls(cfg, s, a)[c].req == s.calls[c].req
  {
  }

  /** Nothing unmakes an entry: the ledger only grows, by fresh ids, and owners never change. */
  lemma MadeStays(cfg: Settings, s: State, a: Action, req: Request, e: Entry)
    requires Inv(s) && IdsDistinct(s) && Enabled(s, a)
    requires Made(cfg, s.wallets, s.ledger, s.calls, req, e)
    ensures Made(cfg, NextWallets(s, a), NextLedger(s, a), NextCalls(cfg, s, a), req, e)
    ensures FindById(NextLedger(s, a), e.id) == FindById(s.ledger, e.id)
  {
    TablesStaySound(s, a);
    FoundStaysFound(s, a, e.id);
    RequestsStay(cfg, s, a, FindById(s.ledger, e.id).value.call);
  }

  lemma BackedStays(cfg: Settings, s: State, a: Action, call: Call)
    requires Inv(s) && IdsDistinct(s) && Enabled(s, a)
    requires Backed(cfg, s.wallets, s.ledger, s.calls, call)
    ensures Backed(cfg, NextWallets(s, a), NextLedger(s, a), NextCalls(cfg, s, a), call)
  {
    match call.pc
    case FindingEntry(r) =>
      var e := FindById(s.ledger, r.entry).value.entry;
      FindByIdIsIn(s.ledger, r.entry);
      MadeStays(cfg, s, a, call.req, e);
    case FindingWallet(found) => MadeStays(cfg, s, a, call.req, found.value);
    case EndingReplay(e) => MadeStays(cfg, s, a, call.req, e);
    case ConfirmReading(e) => MadeStays(cfg, s, a, call.req, e);
    case ConfirmWriting(e, _) => MadeStays(cfg, s, a, call.req, e);
    case Done(Settled(e, _, _)) => MadeStays(cfg, s, a, call.req, e);
    case _ =>
  }

  /** A commit makes its own entry. */
  lemma CommitMakes(cfg: Settings, s: State, c: nat)
    requires Inv(s) && c in s.calls && s.calls[c].pc.Committing?
    ensures var call := s.calls[c];
            var a := Step(c, Commit);
            Made(cfg, NextWallets(s, a), NextLedger(s, a), NextCalls(cfg, s, a), call.req, call.pc.entry)
            && (call.req.key.None? ==> call.pc.next.cents == call.pc.entry.balanceAfter)
  {
    var call := s.calls[c];
    assert CallOk(s.wallets, call);
    assert Reconciles(s.wallets[call.req.wallet], EntriesOf(s.ledger, call.req.wallet));
    MovedCents(call.pc.snap, call.req.direction, Worth(call.req.amount), call.req.currency, call.pc.entry.occurredAt);
  }

  /** A replayed claim starts from the record of a call with the same key and payload. */
  lemma ReplayIsBacked(cfg: Settings, s: State, c: nat)
    requires KeyInv(cfg, s) && c in s.calls && s.calls[c].pc.Claiming?
    ensures Backed(cfg, s.wallets, s.ledger, s.calls, NextCall(cfg, s, s.calls[c], Claim))
  {
    var req := s.calls[c].req;
    if AfterClaim(cfg, s.keys, req).FindingEntry? {
      var k := KeyOf(cfg, req).value;
      assert RecordOk(cfg, s.wallets, s.ledger, s.calls, k, s.keys[k]);
    }
  }

  lemma FoundIsBacked(cfg: Settings, s: State, call: Call)
    requires call.pc.FindingEntry? && Backed(cfg, s.wallets, s.ledger, s.calls, call)
    ensures Backed(cfg, s.wallets, s.ledger, s.calls, NextCall(cfg, s, call, FindEntry))
  {
    FindByIdIsIn(s.ledger, call.pc.receipt.entry);
  }

  lemma OtherTurnsStayBacked(cfg: Settings, s: State, call: Call, turn: Turn)
    requires CanTake(call.pc, turn) && !turn.Commit? && !turn.Claim? && !turn.FindEntry?
    requires Backed(cfg, s.wallets, s.ledger, s.calls, call)
    ensures Backed(cfg, s.wallets, s.ledger, s.calls, NextCall(cfg, s, call, turn))
  {
  }

  lemma MoverBacked(cfg: Settings, s: State, c: nat, turn: Turn)
    requires KeyInv(cfg, s) && c in s.calls && CanTake(s.calls[c].pc, turn) && !turn.Commit?
    ensures Backed(cfg, s.wallets, s.ledger, s.calls, NextCall(cfg, s, s.calls[c], turn))
  {
    assert Backed(cfg, s.wallets, s.ledger, s.calls, s.calls[c]);
    if turn.Claim? {
      ReplayIsBacked(cfg, s, c);
    } else if turn.FindEntry? {
      FoundIsBacked(cfg, s, s.calls[c]);
    } else {
      OtherTurnsStayBacked(cfg, s, s.calls[c], turn);
    }
  }

  lemma CallsStayBacked(cfg: Settings, s: State, a: Action, d: nat)
    requires KeyInv(cfg, s) && Inv(s) && IdsDistinct(s) && Enabled(s, a) && d in NextCalls(cfg, s, a)
    ensures Backed(cfg, NextWallets(s, a), NextLedger(s, a), NextCalls(cfg, s, a), NextCalls(cfg, s, a)[d])
  {
    if d in s.calls {
      if !a.Step? || a.c != d {
        assert Backed(cfg, s.wallets, s.ledger, s.calls, s.calls[d]);
        BackedStays(cfg, s, a, s.calls[d]);
      } else if a.turn.Commit? {
        CommitMakes(cfg, s, d);
      } else {
        MoverBacked(cfg, s, d, a.turn);
        BackedStays(cfg, s, a, NextCall(cfg, s, s.calls[d], a.turn));
      }
    }
  }

  // ----- what the store holds

  /** Past its claim a call never goes back before it. */
  lemma HolderStays(cfg: Settings, s: State, call: Call, turn: Turn)
    requires CanHold(call.pc) && CanTake(call.pc, turn)
    ensures CanHold(NextPc(cfg, s, call.req, call.pc, turn))
    ensures !Finished(call.pc)
  {
  }

  /** A record nobody touched, while its holder may have moved. */
  lemma RecordStays(cfg: Settings, s: State, a: Action, k: string)
    requires KeyInv(cfg, s) && Inv(s) && IdsDistinct(s) && Enabled(s, a) && k in s.keys
    requires a.Step? && a.turn.Release? ==> KeyOf(cfg, s.calls[a.c].req) != Some(k)
    ensures RecordOk(cfg, NextWallets(s, a), NextLedger(s, a), NextCalls(cfg, s, a), k, s.keys[k])
  {
    var r := s.keys[k];
    assert RecordOk(cfg, s.wallets, s.ledger, s.calls, k, r);
    if a.Step? && a.c == r.holder {
      HolderStays(cfg, s, s.calls[a.c], a.turn);
    }
    RequestsStay(cfg, s, a, r.holder);
    if r.response.Some? {
      FindByIdIsIn(s.ledger, r.response.value.entry);
      MadeStays(cfg, s, a, s.calls[r.holder].req, FindById(s.ledger, r.response.value.entry).value.entry);
    }
  }

  /** The record a call writes when it confirms is a receipt for its own entry. */
  lemma ConfirmedIsOk(cfg: Settings, s: State, c: nat)
    requires KeyInv(cfg, s) && Inv(s) && Enabled(s, Step(c, ConfirmWrite))
    ensures var (a, k) := (Step(c, ConfirmWrite), KeyOf(cfg, s.calls[c].req).value);
            s.calls[c].req.key.Some?
            && RecordOk(cfg, s.wallets, s.ledger, NextCalls(cfg, s, a), k, NextKeys(cfg, s, a)[k])
  {
    assert Holds(cfg, s.keys, s.calls[c], c);
    assert Backed(cfg, s.wallets, s.ledger, s.calls, s.calls[c]);
  }

  /** The record a claim leaves is its call's own. */
  lemma NewRecordIsOk(cfg: Settings, s: State, a: Action, k: string)
    requires KeyInv(cfg, s) && Enabled(s, a) && k in NextKeys(cfg, s, a) && k !in s.keys
    requires a.Step? && a.turn.Claim?
    ensures RecordOk(cfg, NextWallets(s, a), NextLedger(s, a), NextCalls(cfg, s, a), k, NextKeys(cfg, s, a)[k])
  {
  }

  lemma RecordsStayOk(cfg: Settings, s: State, a: Action, k: string)
    requires KeyInv(cfg, s) && Inv(s) && IdsDistinct(s) && Enabled(s, a) && k in NextKeys(cfg, s, a)
    ensures RecordOk(cfg, NextWallets(s, a), NextLedger(s, a), NextCalls(cfg, s, a), k, NextKeys(cfg, s, a)[k])
  {
    if a.Step? {
      assert Holds(cfg, s.keys, s.calls[a.c], a.c);
    }
    if a.Step? && a.turn.ConfirmWrite? && KeyOf(cfg, s.calls[a.c].req) == Some(k) {
      ConfirmedIsOk(cfg, s, a.c);
    } else if k in s.keys {
      RecordStays(cfg, s, a, k);
    } else if a.Step? && a.turn.Claim? {
      NewRecordIsOk(cfg, s, a, k);
    }
  }

  // ----- when a key is posted

  lemma LogExtends(log: seq<Event>, e: Event)
    ensures (log + [e])[..|log + [e]| - 1] == log
  {
  }

  /** After anything but a posting, a key that counts as posted did so before, and did not expire now. */
  lemma PostedBefore(cfg: Settings, s: State, a: Action, k: string)
    requires Enabled(s, a) && PostedSince(NextLog(cfg, s, a), k)
    ensures PostedSince(s.log, k) || (Commits(a) && KeyOf(cfg, s.calls[a.c].req) == Some(k))
    ensures a.Tick? ==> k !in Due(s, a.dt)
  {
    if |NextLog(cfg, s, a)| > |s.log| {
      LogExtends(s.log, NextLog(cfg, s, a)[|s.log|]);
    }
  }

  /** Once past its commit, a call stays there. */
  lemma PastCommitStays(cfg: Settings, s: State, a: Action, c: nat)
    requires Enabled(s, a) && c in s.calls && (Confirming(s.calls[c].pc) || Finished(s.calls[c].pc))
    ensures var pc := NextCalls(cfg, s, a)[c].pc; Confirming(pc) || Finished(pc)
  {
  }

  /** A record whose holder is past its commit is neither released nor taken over. */
  lemma ClaimStays(cfg: Settings, s: State, a: Action, k: string)
    requires Enabled(s, a) && StillClaimed(s.keys, s.calls, k)
    requires a.Tick? ==> k !in Due(s, a.dt)
    requires a.Step? ==>
               Holds(cfg, s.keys, s.calls[a.c], a.c) && Backed(cfg, s.wallets, s.ledger, s.calls, s.calls[a.c])
    ensures k in NextKeys(cfg, s, a) && NextKeys(cfg, s, a)[k].holder == s.keys[k].holder
  {
  }

  lemma ClaimsStay(cfg: Settings, s: State, a: Action, k: string)
    requires KeyInv(cfg, s) && Enabled(s, a) && PostedSince(NextLog(cfg, s, a), k)
    ensures StillClaimed(NextKeys(cfg, s, a), NextCalls(cfg, s, a), k)
  {
    PostedBefore(cfg, s, a, k);
    if Commits(a) && KeyOf(cfg, s.calls[a.c].req) == Some(k) {
      assert Holds(cfg, s.keys, s.calls[a.c], a.c);
    } else {
      if a.Step? {
        assert Holds(cfg, s.keys, s.calls[a.c], a.c);
        assert Backed(cfg, s.wallets, s.ledger, s.calls, s.calls[a.c]);
      }
      ClaimStays(cfg, s, a, k);
      PastCommitStays(cfg, s, a, s.keys[k].holder);
    }
  }

  /** A committing call holds its key and has not posted, so nobody has since the last expiry. */
  lemma LogStaysSeparated(cfg: Settings, s: State, a: Action)
    requires KeyInv(cfg, s) && Enabled(s, a)
    ensures Separated(NextLog(cfg, s, a))
  {
    if a.Step? {
      assert Holds(cfg, s.keys, s.calls[a.c], a.c);
    }
    if |NextLog(cfg, s, a)| > |s.log| {
      LogExtends(s.log, NextLog(cfg, s, a)[|s.log|]);
    }
  }

  lemma StepKeepsKeyInv(cfg: Settings, s: State, a: Action)
    requires KeyInv(cfg, s) && Inv(s) && IdsDistinct(s)
    requires Enabled(s, a) && ExpiresLate(s, a) && cfg.ttl > 0
    ensures KeyInv(cfg, Apply(cfg, s, a))
  {
    forall d | d in NextCalls(cfg, s, a)
      ensures Holds(cfg, NextKeys(cfg, s, a), NextCalls(cfg, s, a)[d], d)
      ensures Backed(cfg, NextWallets(s, a), NextLedger(s, a), NextCalls(cfg, s, a), NextCalls(cfg, s, a)[d])
    {
      CallsStayBacked(cfg, s, a, d);
      if a.Step? && a.c == d {
        assert Holds(cfg, s.keys, s.calls[d], d) && Backed(cfg, s.wallets, s.ledger, s.calls, s.calls[d]);
        if a.turn.Claim? {
          ClaimerHolds(cfg, s, d);
        } else {
          MoverHolds(cfg, s, d, a.turn);
        }
      } else if d in s.calls {
        BystanderHolds(cfg, s, a, d);
      }
    }
    forall k | k in NextKeys(cfg, s, a)
      ensures RecordOk(cfg, NextWallets(s, a), NextLedger(s, a), NextCalls(cfg, s, a), k, NextKeys(cfg, s, a)[k])
    {
      RecordsStayOk(cfg, s, a, k);
    }
    forall k | PostedSince(NextLog(cfg, s, a), k)
      ensures StillClaimed(NextKeys(cfg, s, a), NextCalls(cfg, s, a), k)
    {
      ClaimsStay(cfg, s, a, k);
    }
    LogStaysSeparated(cfg, s, a);
  }

  lemma {:induction false} RunsKeepKeyInv(cfg: Settings, run: seq<Action>)
    requires IsRun(cfg, run) && RecordsOutliveCalls(cfg, run) && cfg.ttl > 0
    ensures KeyInv(cfg, End(cfg, run))
    decreases |run|
  {
    if run != [] {
      var before := run[..|run| - 1];
      RunsKeepKeyInv(cfg, before);
      RunsKeepInv(cfg, before);
      RunsKeepDistinct(cfg, before);
      StepKeepsKeyInv(cfg, End(cfg, before), run[|run| - 1]);
    }
  }

  // ----- the theorems

  /** Every committed entry has its event, under the key its call used. */
  ghost predicate LogCovers(cfg: Settings, s: State) {
    forall p :: p in s.ledger ==>
      && p.call in s.calls
      && (s.calls[p.call].req.key.Some? ==> Posted(KeyOf(cfg, s.calls[p.call].req).value, p.entry.id) in s.log)
  }

  lemma {:induction false} RunsKeepLogCovers(cfg: Settings, run: seq<Action>)
    requires IsRun(cfg, run)
    ensures LogCovers(cfg, End(cfg, run))
    decreases |run|
  {
    if run != [] {
      var (before, a) := (run[..|run| - 1], run[|run| - 1]);
      RunsKeepLogCovers(cfg, before);
      var s := End(cfg, before);
      forall p | p in NextLedger(s, a)
        ensures p.call in NextCalls(cfg, s, a)
        ensures var req := NextCalls(cfg, s, a)[p.call].req;
                req.key.Some? ==> Posted(KeyOf(cfg, req).value, p.entry.id) in NextLog(cfg, s, a)
      {
        if p in s.ledger {
          RequestsStay(cfg, s, a, p.call);
        }
      }
    }
  }

  ghost predicate ExpiredBetween(log: seq<Event>, k: string, i: nat, j: nat)
    requires j <= |log|
  {
    exists m :: i < m < j && log[m].Expired? && k in log[m].keys
  }

  lemma {:induction false} NotPostedSince(log: seq<Event>, k: string, i: nat)
    requires i < |log| && log[i].Posted? && log[i].key == k && !PostedSince(log, k)
    ensures ExpiredBetween(log, k, i, |log|)
  {
    var last := |log| - 1;
    if log[last].Expired? && k in log[last].keys {
      assert i < last < |log|;
    } else {
      NotPostedSince(log[..last], k, i);
      var m :| i < m < last && log[..last][m].Expired? && k in log[..last][m].keys;
      assert log[m].Expired? && k in log[m].keys;
    }
  }

  lemma {:induction false} SeparatedPostings(log: seq<Event>, k: string, i: nat, j: nat)
    requires Separated(log) && i < j < |log|
    requires log[i].Posted? && log[i].key == k && log[j].Posted? && log[j].key == k
    ensures ExpiredBetween(log, k, i, j)
  {
    var front := log[..|log| - 1];
    if j == |log| - 1 {
      NotPostedSince(front, k, i);
      var m :| i < m < |front| && front[m].Expired? && k in front[m].keys;
      assert log[m] == front[m];
    } else {
      SeparatedPostings(front, k, i, j);
      var m :| i < m < j && front[m].Expired? && k in front[m].keys;
      assert log[m] == front[m];
    }
  }

  /** Where the log has the posting of `p`. */
  lemma PostedAt(cfg: Settings, run: seq<Action>, p: Posting, k: string) returns (i: nat)
    requires IsRun(cfg, run) && p in End(cfg, run).ledger
    requires p.call in End(cfg, run).calls && KeyOf(cfg, End(cfg, run).calls[p.call].req) == Some(k)
    ensures i < |End(cfg, run).log| && End(cfg, run).log[i] == Posted(k, p.entry.id)
  {
    RunsKeepLogCovers(cfg, run);
    i :| i < |End(cfg, run).log| && End(cfg, run).log[i] == Posted(k, p.entry.id);
  }

  lemma DifferentEntriesDifferentIds(cfg: Settings, run: seq<Action>, p: Posting, q: Posting)
    requires IsRun(cfg, run) && p in End(cfg, run).ledger && q in End(cfg, run).ledger && p != q
    ensures p.entry.id != q.entry.id
  {
    RunsKeepDistinct(cfg, run);
    FindByIdFinds(End(cfg, run).ledger, p);
    FindByIdFinds(End(cfg, run).ledger, q);
  }

  /**
   One key moves money once per lifetime: two committed entries made under one
   scoped key are separated by an expiry of that key. Crashes, failed confirms and
   any number of concurrent retries are allowed.
   */
  lemma EntriesUnderOneKeyAreSeparated(cfg: Settings, run: seq<Action>, p: Posting, q: Posting, k: string)
    requires IsRun(cfg, run) && RecordsOutliveCalls(cfg, run) && cfg.ttl > 0
    requires p in End(cfg, run).ledger && q in End(cfg, run).ledger && p != q
    requires p.call in End(cfg, run).calls && KeyOf(cfg, End(cfg, run).calls[p.call].req) == Some(k)
    requires q.call in End(cfg, run).calls && KeyOf(cfg, End(cfg, run).calls[q.call].req) == Some(k)
    ensures var log := End(cfg, run).log;
            exists i, j :: 0 <= i < |log| && 0 <= j < |log|
              && log[i] == Posted(k, p.entry.id) && log[j] == Posted(k, q.entry.id)
              && (ExpiredBetween(log, k, i, j) || ExpiredBetween(log, k, j, i))
  {
    RunsKeepKeyInv(cfg, run);
    DifferentEntriesDifferentIds(cfg, run, p, q);
    var log := End(cfg, run).log;
    var i := PostedAt(cfg, run, p, k);
    var j := PostedAt(cfg, run, q, k);
    if i < j {
      SeparatedPostings(log, k, i, j);
    } else {
      SeparatedPostings(log, k, j, i);
    }
  }

  /**
   A COMPLETED record always points at a committed entry, made by the call that
   reserved the key, for the same owner and the same payload.
   */
  lemma CompletedRecordsPointAtEntries(cfg: Settings, run: seq<Action>, k: string)
    requires IsRun(cfg, run) && RecordsOutliveCalls(cfg, run) && cfg.ttl > 0
    requires k in End(cfg, run).keys && End(cfg, run).keys[k].response.Some?
    ensures var (s, r) := (End(cfg, run), End(cfg, run).keys[k]);
            exists p :: p in s.ledger && p.entry.id == r.response.value.entry
              && Matches(p.entry, r.fingerprint)
              && Owned(s.wallets, p.entry.wallet, r.fingerprint.owner)
              && p.call in s.calls && KeyOf(cfg, s.calls[p.call].req) == Some(k)
  {
    RunsKeepKeyInv(cfg, run);
    var s := End(cfg, run);
    assert RecordOk(cfg, s.wallets, s.ledger, s.calls, k, s.keys[k]);
    FindByIdIsIn(s.ledger, s.keys[k].response.value.entry);
  }

  /**
   However far the wallet has moved on, an answer reports the one committed entry
   made under that key for that payload, and the balance it was written with.
   */
  lemma AnswersReportTheOriginal(cfg: Settings, run: seq<Action>, c: nat)
    requires IsRun(cfg, run) && RecordsOutliveCalls(cfg, run) && cfg.ttl > 0
    requires c in End(cfg, run).calls && End(cfg, run).calls[c].pc.Done? && End(cfg, run).calls[c].pc.answer.Settled?
    ensures var (s, req, answer) :=
              (End(cfg, run), End(cfg, run).calls[c].req, End(cfg, run).calls[c].pc.answer);
            && answer.balance == answer.entry.balanceAfter
            && Matches(answer.entry, Fingerprint(req))
            && exists p :: p in s.ledger && p.entry == answer.entry && p.call in s.calls
                 && KeyOf(cfg, s.calls[p.call].req) == KeyOf(cfg, req)
                 && Fingerprint(s.calls[p.call].req) == Fingerprint(req)
                 && forall q :: q in s.ledger && q.entry.id == p.entry.id ==> q == p
  {
    RunsKeepKeyInv(cfg, run);
    RunsKeepDistinct(cfg, run);
    var s := End(cfg, run);
    var answer := s.calls[c].pc.answer;
    assert Backed(cfg, s.wallets, s.ledger, s.calls, s.calls[c]);
    FindByIdIsIn(s.ledger, answer.entry.id);
    var p := FindById(s.ledger, answer.entry.id).value;
    forall q | q in s.ledger && q.entry.id == p.entry.id
      ensures q == p
    {
      FindByIdFinds(s.ledger, q);
    }
  }

  /** The branch that applies a replayed movement again is never taken. */
  lemma FallThroughIsUnreachable(cfg: Settings, run: seq<Action>, c: nat)
    requires IsRun(cfg, run) && RecordsOutliveCalls(cfg, run) && cfg.ttl > 0
    requires c in End(cfg, run).calls && End(cfg, run).calls[c].pc.FindingWallet?
    ensures var (s, call) := (End(cfg, run), End(cfg, run).calls[c]);
            AfterFindWallet(s, call.req, call.pc.found).EndingReplay?
  {
    RunsKeepKeyInv(cfg, run);
    var s := End(cfg, run);
    assert Backed(cfg, s.wallets, s.ledger, s.calls, s.calls[c]);
  }
}
