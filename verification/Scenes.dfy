/**
 Runs made to order: one request, with a key of choice, that arrives, is let through, and
 posts a cent to an open wallet or is cut short. Each lemma extends a run by one part.
 */
module Scenes {
  import opened Base
  import opened Decimals
  import opened Wallets
  import opened Movement
  import opened LedgerTheorem
  import opened IdTheorem
  import opened KeyTheorem

  const CENT: Decimal := Finite(false, 1, -2)
  const OPEN_WALLET: Action := OpenWallet(0, 0, "EUR", 0)

  function Asks(key: Option<string>): Request {
    Request(0, 0, CENT, "EUR", Credit, "", key)
  }

  /** A state where the wallet can take another cent and no transaction is open. */
  ghost predicate Idle(s: State) {
    && 0 in s.wallets
    && var w := s.wallets[0];
    && w.owner == 0 && w.currency == "EUR" && w.status == Open && 0 <= w.cents < 10
    && (forall c :: c in s.calls ==> !HasInserted(s.calls[c].pc))
  }

  /** `next` is a run that goes on from `run`, keeps the hypotheses on time that `run` kept, and draws `ids`. */
  ghost predicate GoesOn(cfg: Settings, run: seq<Action>, next: seq<Action>, ids: seq<Id>) {
    && IsRun(cfg, run) && IsRun(cfg, next)
    && (RecordsOutliveCalls(cfg, run) ==> RecordsOutliveCalls(cfg, next))
    && (forall limit :: CallsShorterThan(cfg, run, limit) ==> CallsShorterThan(cfg, next, limit))
    && DrawnIds(cfg, next) == DrawnIds(cfg, run) + ids
  }

  lemma RunExtends(cfg: Settings, run: seq<Action>, a: Action) returns (next: seq<Action>)
    requires IsRun(cfg, run) && Enabled(End(cfg, run), a)
    ensures next == run + [a] && IsRun(cfg, next) && End(cfg, next) == Apply(cfg, End(cfg, run), a)
  {
    next := run + [a];
    assert next[..|next| - 1] == run && next[|next| - 1] == a;
  }

  lemma HypothesesExtend(cfg: Settings, run: seq<Action>, a: Action, next: seq<Action>)
    requires IsRun(cfg, run) && Enabled(End(cfg, run), a) && IsRun(cfg, next) && next == run + [a] && !a.Tick?
    ensures RecordsOutliveCalls(cfg, run) ==> RecordsOutliveCalls(cfg, next)
    ensures forall limit :: CallsShorterThan(cfg, run, limit) ==> CallsShorterThan(cfg, next, limit)
  {
    assert next[..|next| - 1] == run && next[|next| - 1] == a;
    forall limit | CallsShorterThan(cfg, run, limit)
      ensures CallsShorterThan(cfg, next, limit)
    {
    }
  }

  lemma DrawsExtend(cfg: Settings, run: seq<Action>, a: Action, next: seq<Action>)
    requires IsRun(cfg, run) && Enabled(End(cfg, run), a) && IsRun(cfg, next) && next == run + [a]
    ensures DrawnIds(cfg, next) == DrawnIds(cfg, run) + NewDraw(End(cfg, run), a)
  {
    assert next[..|next| - 1] == run && next[|next| - 1] == a;
  }

  /** Any possible step but the passing of time is one way to go on. */
  lemma StepGoesOn(cfg: Settings, run: seq<Action>, a: Action) returns (next: seq<Action>)
    requires IsRun(cfg, run) && Enabled(End(cfg, run), a) && !a.Tick?
    ensures GoesOn(cfg, run, next, NewDraw(End(cfg, run), a)) && End(cfg, next) == Apply(cfg, End(cfg, run), a)
  {
    next := RunExtends(cfg, run, a);
    HypothesesExtend(cfg, run, a, next);
    DrawsExtend(cfg, run, a, next);
  }

  /** Parts that draw nothing more follow each other. */
  lemma GoesOnJoins(cfg: Settings, a: seq<Action>, b: seq<Action>, c: seq<Action>, ids: seq<Id>)
    requires GoesOn(cfg, a, b, ids) && GoesOn(cfg, b, c, [])
    ensures GoesOn(cfg, a, c, ids)
  {
    assert DrawnIds(cfg, b) + [] == DrawnIds(cfg, b);
  }

  lemma GoesOnDraws(cfg: Settings, a: seq<Action>, b: seq<Action>, c: seq<Action>, ids: seq<Id>)
    requires GoesOn(cfg, a, b, []) && GoesOn(cfg, b, c, ids)
    ensures GoesOn(cfg, a, c, ids)
  {
    assert DrawnIds(cfg, a) + [] == DrawnIds(cfg, a);
  }

  lemma CentIsOne()
    ensures Worth(CENT) == 1
  {
    assert Pow10(0) == 1;
  }

  /** `base`, but for call `c`, which is sending the request and has come as far as `pc`. */
  ghost predicate Only(s: State, base: State, c: nat, key: Option<string>, pc: Pc) {
    && c in s.calls && s.calls[c].pc == pc && s.calls[c].req == Asks(key)
    && s.calls == base.calls[c := s.calls[c]]
    && s.wallets == base.wallets && s.ledger == base.ledger && s.log == base.log
  }

  lemma Arrives(cfg: Settings, run: seq<Action>, c: nat, key: Option<string>) returns (next: seq<Action>)
    requires IsRun(cfg, run) && c !in End(cfg, run).calls
    ensures GoesOn(cfg, run, next, [])
    ensures Only(End(cfg, next), End(cfg, run), c, key, Limiting) && End(cfg, next).keys == End(cfg, run).keys
  {
    next := StepGoesOn(cfg, run, Begin(c, Asks(key)));
  }

  lemma PassesLimiter(cfg: Settings, run: seq<Action>, base: State, c: nat, key: Option<string>)
    returns (next: seq<Action>)
    requires IsRun(cfg, run) && Only(End(cfg, run), base, c, key, Limiting)
    ensures GoesOn(cfg, run, next, [])
    ensures Only(End(cfg, next), base, c, key, Assessing) && End(cfg, next).keys == End(cfg, run).keys
  {
    next := StepGoesOn(cfg, run, Step(c, Limit(true)));
  }

  lemma PassesAssessment(cfg: Settings, run: seq<Action>, base: State, c: nat, key: Option<string>)
    returns (next: seq<Action>)
    requires IsRun(cfg, run) && Only(End(cfg, run), base, c, key, Assessing)
    ensures GoesOn(cfg, run, next, [])
    ensures Only(End(cfg, next), base, c, key, Claiming) && End(cfg, next).keys == End(cfg, run).keys
  {
    next := StepGoesOn(cfg, run, Step(c, Assess(Allowed)));
  }

  /** A claim by this key goes through: there is no key, claims store nothing, or it is free. */
  ghost predicate Claimable(cfg: Settings, keys: map<string, Record>, key: Option<string>) {
    key.None? || cfg.ttl <= 0 || KeyOf(cfg, Asks(key)).value !in keys
  }

  lemma Claims(cfg: Settings, run: seq<Action>, base: State, c: nat, key: Option<string>) returns (next: seq<Action>)
    requires IsRun(cfg, run) && Only(End(cfg, run), base, c, key, Claiming)
    requires Claimable(cfg, End(cfg, run).keys, key)
    ensures GoesOn(cfg, run, next, [])
    ensures Only(End(cfg, next), base, c, key, Locking)
    ensures forall k :: k in End(cfg, next).keys && k !in End(cfg, run).keys ==>
              End(cfg, next).keys[k].expiresAt == End(cfg, next).clock + cfg.ttl
    ensures key.Some? ==> End(cfg, next).calls[c].claimedAt == Some(End(cfg, next).clock)
  {
    next := StepGoesOn(cfg, run, Step(c, Claim));
  }

  /** From its arrival to the lock. */
  lemma ComesToTheLock(cfg: Settings, run: seq<Action>, c: nat, key: Option<string>) returns (next: seq<Action>)
    requires IsRun(cfg, run) && c !in End(cfg, run).calls && Claimable(cfg, End(cfg, run).keys, key)
    ensures GoesOn(cfg, run, next, [])
    ensures Only(End(cfg, next), End(cfg, run), c, key, Locking)
    ensures forall k :: k in End(cfg, next).keys && k !in End(cfg, run).keys ==>
              End(cfg, next).keys[k].expiresAt == End(cfg, next).clock + cfg.ttl
    ensures key.Some? ==> End(cfg, next).calls[c].claimedAt == Some(End(cfg, next).clock)
  {
    var base := End(cfg, run);
    var r1 := Arrives(cfg, run, c, key);
    var r2 := PassesLimiter(cfg, r1, base, c, key);
    GoesOnJoins(cfg, run, r1, r2, []);
    var r3 := PassesAssessment(cfg, r2, base, c, key);
    GoesOnJoins(cfg, run, r2, r3, []);
    next := Claims(cfg, r3, base, c, key);
    GoesOnJoins(cfg, run, r3, next, []);
  }

  function Paid(w: WalletState): WalletState {
    Touched(w, w.cents + 1, 0)
  }

  /** The key is not part of an entry. */
  function PaidEntry(w: WalletState, id: Id): Entry {
    EntryFor(Asks(None), id, Paid(w), 0)
  }

  lemma Enters(cfg: Settings, run: seq<Action>, base: State, c: nat, key: Option<string>) returns (next: seq<Action>)
    requires IsRun(cfg, run) && Only(End(cfg, run), base, c, key, Locking)
    ensures GoesOn(cfg, run, next, [])
    ensures Only(End(cfg, next), base, c, key, Reading)
  {
    next := StepGoesOn(cfg, run, Step(c, TakeLock(true)));
  }

  lemma ReadIsNext(cfg: Settings, s: State, base: State, c: nat, key: Option<string>)
    requires Idle(base) && Only(s, base, c, key, Reading)
    ensures Enabled(s, Step(c, ReadWallet)) && NewDraw(s, Step(c, ReadWallet)) == []
    ensures Only(Apply(cfg, s, Step(c, ReadWallet)), base, c, key, Deciding(base.wallets[0]))
  {
  }

  lemma Reads(cfg: Settings, run: seq<Action>, base: State, c: nat, key: Option<string>) returns (next: seq<Action>)
    requires IsRun(cfg, run) && Idle(base) && Only(End(cfg, run), base, c, key, Reading)
    ensures GoesOn(cfg, run, next, [])
    ensures Only(End(cfg, next), base, c, key, Deciding(base.wallets[0]))
  {
    ReadIsNext(cfg, End(cfg, run), base, c, key);
    next := StepGoesOn(cfg, run, Step(c, ReadWallet));
  }

  lemma Decides(cfg: Settings, run: seq<Action>, base: State, c: nat, key: Option<string>, id: Id)
    returns (next: seq<Action>)
    requires IsRun(cfg, run) && Idle(base) && Only(End(cfg, run), base, c, key, Deciding(base.wallets[0]))
    ensures GoesOn(cfg, run, next, [id])
    ensures var w := base.wallets[0]; Only(End(cfg, next), base, c, key, Inserting(w, Paid(w), PaidEntry(w, id)))
  {
    CentIsOne();
    next := StepGoesOn(cfg, run, Step(c, Decide(id, 0)));
  }

  lemma InsertIsNext(cfg: Settings, s: State, base: State, c: nat, key: Option<string>, id: Id)
    requires Idle(base) && Unposted(base.ledger, id)
    requires var w := base.wallets[0]; Only(s, base, c, key, Inserting(w, Paid(w), PaidEntry(w, id)))
    ensures Enabled(s, Step(c, InsertEntry)) && NewDraw(s, Step(c, InsertEntry)) == []
    ensures var (t, w) := (Apply(cfg, s, Step(c, InsertEntry)), base.wallets[0]);
            Only(t, base, c, key, Updating(w, Paid(w), PaidEntry(w, id)))
  {
  }

  lemma Inserts(cfg: Settings, run: seq<Action>, base: State, c: nat, key: Option<string>, id: Id)
    returns (next: seq<Action>)
    requires IsRun(cfg, run) && Idle(base) && Unposted(base.ledger, id)
    requires var w := base.wallets[0]; Only(End(cfg, run), base, c, key, Inserting(w, Paid(w), PaidEntry(w, id)))
    ensures GoesOn(cfg, run, next, [])
    ensures var w := base.wallets[0]; Only(End(cfg, next), base, c, key, Updating(w, Paid(w), PaidEntry(w, id)))
  {
    InsertIsNext(cfg, End(cfg, run), base, c, key, id);
    next := StepGoesOn(cfg, run, Step(c, InsertEntry));
  }

  lemma UpdateIsNext(cfg: Settings, s: State, base: State, c: nat, key: Option<string>, id: Id)
    requires Idle(base)
    requires var w := base.wallets[0]; Only(s, base, c, key, Updating(w, Paid(w), PaidEntry(w, id)))
    ensures Enabled(s, Step(c, UpdateWallet)) && NewDraw(s, Step(c, UpdateWallet)) == []
    ensures var (t, w) := (Apply(cfg, s, Step(c, UpdateWallet)), base.wallets[0]);
            Only(t, base, c, key, Committing(w, Paid(w), PaidEntry(w, id)))
  {
  }

  lemma Updates(cfg: Settings, run: seq<Action>, base: State, c: nat, key: Option<string>, id: Id)
    returns (next: seq<Action>)
    requires IsRun(cfg, run) && Idle(base)
    requires var w := base.wallets[0]; Only(End(cfg, run), base, c, key, Updating(w, Paid(w), PaidEntry(w, id)))
    ensures GoesOn(cfg, run, next, [])
    ensures var w := base.wallets[0]; Only(End(cfg, next), base, c, key, Committing(w, Paid(w), PaidEntry(w, id)))
  {
    UpdateIsNext(cfg, End(cfg, run), base, c, key, id);
    next := StepGoesOn(cfg, run, Step(c, UpdateWallet));
  }

  function PostedUnder(cfg: Settings, key: Option<string>, id: Id): seq<Event> {
    if key.None? then [] else [Posted(KeyOf(cfg, Asks(key)).value, id)]
  }

  /** What one committed request made of `s`. */
  ghost predicate Followed(cfg: Settings, s: State, t: State, c: nat, key: Option<string>, id: Id)
    requires 0 in s.wallets
  {
    && t.wallets == s.wallets[0 := Paid(s.wallets[0])]
    && t.log == s.log + PostedUnder(cfg, key, id)
    && t.ledger == s.ledger + [Posting(PaidEntry(s.wallets[0], id), c)]
    && c in t.calls && !HasInserted(t.calls[c].pc)
    && t.calls == s.calls[c := t.calls[c]]
  }

  lemma CommitIsNext(cfg: Settings, s: State, base: State, c: nat, key: Option<string>, id: Id)
    requires Idle(base)
    requires var w := base.wallets[0]; Only(s, base, c, key, Committing(w, Paid(w), PaidEntry(w, id)))
    ensures Enabled(s, Step(c, Commit)) && NewDraw(s, Step(c, Commit)) == []
    ensures Followed(cfg, base, Apply(cfg, s, Step(c, Commit)), c, key, id)
  {
  }

  lemma Settles(cfg: Settings, run: seq<Action>, base: State, c: nat, key: Option<string>, id: Id)
    returns (next: seq<Action>)
    requires IsRun(cfg, run) && Idle(base)
    requires var w := base.wallets[0]; Only(End(cfg, run), base, c, key, Committing(w, Paid(w), PaidEntry(w, id)))
    ensures GoesOn(cfg, run, next, [])
    ensures Followed(cfg, base, End(cfg, next), c, key, id)
  {
    CommitIsNext(cfg, End(cfg, run), base, c, key, id);
    next := StepGoesOn(cfg, run, Step(c, Commit));
  }

  /** From the lock to the draft, which draws the id. */
  lemma ComesToADraft(cfg: Settings, run: seq<Action>, base: State, c: nat, key: Option<string>, id: Id)
    returns (next: seq<Action>)
    requires IsRun(cfg, run) && Idle(base) && Only(End(cfg, run), base, c, key, Locking)
    ensures GoesOn(cfg, run, next, [id])
    ensures var w := base.wallets[0]; Only(End(cfg, next), base, c, key, Inserting(w, Paid(w), PaidEntry(w, id)))
  {
    var r1 := Enters(cfg, run, base, c, key);
    var r2 := Reads(cfg, r1, base, c, key);
    GoesOnJoins(cfg, run, r1, r2, []);
    next := Decides(cfg, r2, base, c, key, id);
    GoesOnDraws(cfg, run, r2, next, [id]);
  }

  /** Past its claim, in an idle state, a call goes through and posts under its key. */
  lemma Finishes(cfg: Settings, run: seq<Action>, base: State, c: nat, key: Option<string>, id: Id)
    returns (next: seq<Action>)
    requires IsRun(cfg, run) && Idle(base) && Only(End(cfg, run), base, c, key, Locking) && Unposted(base.ledger, id)
    ensures GoesOn(cfg, run, next, [id])
    ensures Followed(cfg, base, End(cfg, next), c, key, id)
  {
    var r2 := ComesToADraft(cfg, run, base, c, key, id);
    var r3 := Inserts(cfg, r2, base, c, key, id);
    GoesOnJoins(cfg, run, r2, r3, [id]);
    var r4 := Updates(cfg, r3, base, c, key, id);
    GoesOnJoins(cfg, run, r3, r4, [id]);
    next := Settles(cfg, r4, base, c, key, id);
    GoesOnJoins(cfg, run, r4, next, [id]);
  }

  /** A request that arrives when its claim goes through posts. */
  lemma OneMore(cfg: Settings, run: seq<Action>, c: nat, key: Option<string>, id: Id) returns (next: seq<Action>)
    requires IsRun(cfg, run) && Idle(End(cfg, run)) && c !in End(cfg, run).calls && Unposted(End(cfg, run).ledger, id)
    requires Claimable(cfg, End(cfg, run).keys, key)
    ensures GoesOn(cfg, run, next, [id])
    ensures Followed(cfg, End(cfg, run), End(cfg, next), c, key, id)
  {
    var r := ComesToTheLock(cfg, run, c, key);
    next := Finishes(cfg, r, End(cfg, run), c, key, id);
    GoesOnDraws(cfg, run, r, next, [id]);
  }

  lemma Dies(cfg: Settings, run: seq<Action>, base: State, c: nat, key: Option<string>, pc: Pc)
    returns (next: seq<Action>)
    requires IsRun(cfg, run) && Only(End(cfg, run), base, c, key, pc) && pc.Inserting?
    ensures GoesOn(cfg, run, next, [])
    ensures Only(End(cfg, next), base, c, key, Crashed)
  {
    next := StepGoesOn(cfg, run, Step(c, Crash));
  }

  /** A request without a key that draws its id and then dies. */
  lemma DrawsAndDies(cfg: Settings, run: seq<Action>, c: nat, id: Id) returns (next: seq<Action>)
    requires IsRun(cfg, run) && Idle(End(cfg, run)) && c !in End(cfg, run).calls
    ensures GoesOn(cfg, run, next, [id])
    ensures Only(End(cfg, next), End(cfg, run), c, None, Crashed)
  {
    var base := End(cfg, run);
    var r1 := ComesToTheLock(cfg, run, c, None);
    var r2 := ComesToADraft(cfg, r1, base, c, None, id);
    GoesOnDraws(cfg, run, r1, r2, [id]);
    var w := base.wallets[0];
    next := Dies(cfg, r2, base, c, None, Inserting(w, Paid(w), PaidEntry(w, id)));
    GoesOnJoins(cfg, run, r2, next, [id]);
  }

  lemma OpensWallet(cfg: Settings) returns (run: seq<Action>)
    ensures GoesOn(cfg, [], run, []) && RecordsOutliveCalls(cfg, run)
    ensures forall limit :: CallsShorterThan(cfg, run, limit)
    ensures Idle(End(cfg, run)) && End(cfg, run).wallets[0].cents == 0
    ensures var s := End(cfg, run); s.calls == map[] && s.keys == map[] && s.ledger == [] && s.log == []
  {
    run := StepGoesOn(cfg, [], OPEN_WALLET);
    assert forall limit :: CallsShorterThan(cfg, [], limit);
  }
}
