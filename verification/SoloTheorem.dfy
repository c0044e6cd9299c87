/**
 What one call does when nothing comes between its steps: from whatever state a run has reached,
 exactly which rows, entries and records it leaves and what it answers. A retry of a finished
 call is then answered with the entry of that call.
 */
module SoloTheorem {
  import opened Base
  import opened Moneys
  import opened Wallets
  import opened Movement
  import opened LedgerTheorem
  import opened IdTheorem
  import opened KeyTheorem
  import opened AnswerTheorem

  // ----- uninterrupted steps

  ghost predicate Leads(cfg: Settings, s: State, c: nat, turn: Turn, t: State) {
    Enabled(s, Step(c, turn)) && t == Apply(cfg, s, Step(c, turn))
  }

  ghost function LeadsBy(cfg: Settings, c: nat): (State, Turn, State) -> bool {
    (s: State, turn: Turn, t: State) => Leads(cfg, s, c, turn, t)
  }

  ghost predicate Chain(leads: (State, Turn, State) -> bool, s: State, turns: seq<Turn>, t: State)
    decreases |turns|
  {
    if turns == [] then t == s
    else exists next :: leads(s, turns[0], next) && Chain(leads, next, turns[1..], t)
  }

  lemma {:induction false} ChainJoins(leads: (State, Turn, State) -> bool, r: State, s: State, t: State, a: seq<Turn>,
                                      b: seq<Turn>)
    requires Chain(leads, r, a, s) && Chain(leads, s, b, t)
    ensures Chain(leads, r, a + b, t)
    decreases |a|
  {
    if a == [] {
      assert a + b == b;
    } else {
      var next :| leads(r, a[0], next) && Chain(leads, next, a[1..], s);
      ChainJoins(leads, next, s, t, a[1..], b);
      assert (a + b)[0] == a[0] && (a + b)[1..] == a[1..] + b;
    }
  }

  /** Call `c` takes these turns one after the other, each possible when it comes, and the state is then `t`. */
  ghost predicate Solo(cfg: Settings, s: State, c: nat, turns: seq<Turn>, t: State) {
    Chain(LeadsBy(cfg, c), s, turns, t)
  }

  lemma SoloStep(cfg: Settings, s: State, c: nat, turn: Turn)
    requires Enabled(s, Step(c, turn))
    ensures Solo(cfg, s, c, [turn], Apply(cfg, s, Step(c, turn)))
  {
    var next := Apply(cfg, s, Step(c, turn));
    assert [turn][1..] == [] && LeadsBy(cfg, c)(s, turn, next) && Chain(LeadsBy(cfg, c), next, [], next);
  }

  lemma SoloJoins(cfg: Settings, r: State, s: State, t: State, c: nat, a: seq<Turn>, b: seq<Turn>)
    requires Solo(cfg, r, c, a, s) && Solo(cfg, s, c, b, t)
    ensures Solo(cfg, r, c, a + b, t)
  {
    ChainJoins(LeadsBy(cfg, c), r, s, t, a, b);
  }

  function Steps(c: nat, turns: seq<Turn>): seq<Action> {
    seq(|turns|, i requires 0 <= i < |turns| => Step(c, turns[i]))
  }

  lemma StepsFollow(run: seq<Action>, c: nat, turns: seq<Turn>)
    requires turns != []
    ensures run + [Step(c, turns[0])] + Steps(c, turns[1..]) == run + Steps(c, turns)
  {
    assert Steps(c, turns) == [Step(c, turns[0])] + Steps(c, turns[1..]);
  }

  lemma FirstExtends(cfg: Settings, run: seq<Action>, c: nat, turns: seq<Turn>, t: State) returns (next: seq<Action>)
    requires IsRun(cfg, run) && turns != [] && Solo(cfg, End(cfg, run), c, turns, t)
    ensures next == run + [Step(c, turns[0])] && IsRun(cfg, next) && Solo(cfg, End(cfg, next), c, turns[1..], t)
    ensures RecordsOutliveCalls(cfg, run) ==> RecordsOutliveCalls(cfg, next)
  {
    var first :| LeadsBy(cfg, c)(End(cfg, run), turns[0], first) && Chain(LeadsBy(cfg, c), first, turns[1..], t);
    next := run + [Step(c, turns[0])];
    assert next[..|next| - 1] == run && next[|next| - 1] == Step(c, turns[0]);
  }

  /** Turns taken from the end of a run make a longer run, in which no time has passed. */
  lemma {:induction false} SoloExtends(cfg: Settings, run: seq<Action>, c: nat, turns: seq<Turn>, t: State)
    returns (next: seq<Action>)
    requires IsRun(cfg, run) && Solo(cfg, End(cfg, run), c, turns, t)
    ensures next == run + Steps(c, turns) && IsRun(cfg, next) && End(cfg, next) == t
    ensures RecordsOutliveCalls(cfg, run) ==> RecordsOutliveCalls(cfg, next)
    decreases |turns|
  {
    if turns == [] {
      next := run;
    } else {
      var longer := FirstExtends(cfg, run, c, turns, t);
      next := SoloExtends(cfg, longer, c, turns[1..], t);
      StepsFollow(run, c, turns);
    }
  }

  // ----- where only the call itself has moved

  function Put(s: State, c: nat, pc: Pc): State
    requires c in s.calls
  {
    s.(calls := s.calls[c := s.calls[c].(pc := pc)])
  }

  /** Turns that change nothing but where the call is. */
  predicate IsQuiet(turn: Turn) {
    || turn.FindEntry? || turn.FindWallet? || turn.EndReplay? || turn.TakeLock? || turn.ReadWallet?
    || turn.InsertEntry? || turn.UpdateWallet? || turn.ConfirmRead? || turn.Rollback?
  }

  lemma QuietStep(cfg: Settings, s: State, c: nat, turn: Turn, pc: Pc)
    requires Enabled(s, Step(c, turn)) && IsQuiet(turn) && pc == NextPc(cfg, s, s.calls[c].req, s.calls[c].pc, turn)
    ensures Apply(cfg, s, Step(c, turn)) == Put(s, c, pc) && Solo(cfg, s, c, [turn], Put(s, c, pc))
  {
    SoloStep(cfg, s, c, turn);
  }

  // ----- what a movement is, told from the request and the row

  /** Exactly the movements a wallet permits. */
  predicate Permits(row: WalletState, req: Request) {
    && row.status == Open && req.currency == row.currency && Worth(req.amount) > 0
    && match req.direction
       case Credit => row.cents + Worth(req.amount) <= MAX_CENTS
       case Debit => Worth(req.amount) <= row.cents
  }

  function RowAfter(row: WalletState, req: Request, at: int): WalletState {
    row.(cents := if req.direction == Credit then row.cents + Worth(req.amount) else row.cents - Worth(req.amount),
         version := row.version + 1, updatedAt := at)
  }

  function EntryOf(row: WalletState, req: Request, id: Id, at: int): Entry {
    Entry(id, req.wallet, req.direction, Worth(req.amount), req.currency, RowAfter(row, req, at).cents,
          Strip(req.description), at)
  }

  /** Why a movement is not permitted: the first reason, in the order in which the wallet looks for them. */
  function Objection(row: WalletState, req: Request): WalletError {
    if row.status == Closed then WalletClosed
    else if Worth(req.amount) <= 0 then BadMoney(NotPositive)
    else if req.currency != row.currency then BadMoney(CurrencyMismatch)
    else if req.direction == Credit then BadMoney(OutOfRange)
    else InsufficientFunds
  }

  lemma MovedIff(row: WalletState, req: Request, at: int)
    requires Sound(row)
    ensures Moved(row, req.direction, Worth(req.amount), req.currency, at) ==
            if Permits(row, req) then Ok(RowAfter(row, req, at)) else Err(Objection(row, req))
  {
    DepositedIff(row, Worth(req.amount), req.currency, at);
    WithdrawnIff(row, Worth(req.amount), req.currency, at);
  }

  lemma DecisionIs(cfg: Settings, s: State, c: nat, id: Id, at: int)
    requires c in s.calls && s.calls[c].pc.Deciding? && Sound(s.calls[c].pc.snap)
    ensures var (req, snap) := (s.calls[c].req, s.calls[c].pc.snap);
            var pc := if Permits(snap, req)
                      then Inserting(snap, RowAfter(snap, req, at), EntryOf(snap, req, id, at))
                      else RollingBack(NotPermitted(Objection(snap, req)));
            var top := if Permits(snap, req) then Max(s.topId, id) else s.topId;
            Solo(cfg, s, c, [Decide(id, at)], Put(s, c, pc).(topId := top))
  {
    MovedIff(s.calls[c].pc.snap, s.calls[c].req, at);
    SoloStep(cfg, s, c, Decide(id, at));
  }

  // ----- a movement that goes through

  /** The call stands before the lock, and its wallet, its row and the id are there for the taking. */
  ghost predicate ReadyToMove(s: State, c: nat, id: Id) {
    && c in s.calls && s.calls[c].pc.Locking?
    && var req := s.calls[c].req;
    && Owned(s.wallets, req.wallet, req.owner) && Sound(s.wallets[req.wallet])
    && Permits(s.wallets[req.wallet], req)
    && IdFree(s, id) && RowFree(s, req.wallet)
  }

  lemma SoloDrafts(cfg: Settings, s: State, c: nat, id: Id, at: int) returns (t: State)
    requires ReadyToMove(s, c, id)
    ensures Solo(cfg, s, c, [TakeLock(true), ReadWallet, Decide(id, at)], t)
    ensures var row := s.wallets[s.calls[c].req.wallet];
            var req := s.calls[c].req;
            var draft := Inserting(row, RowAfter(row, req, at), EntryOf(row, req, id, at));
            t == Put(s, c, draft).(topId := Max(s.topId, id))
  {
    var (req, row) := (s.calls[c].req, s.wallets[s.calls[c].req.wallet]);
    SoloReads(cfg, s, c, Deciding(row));
    var s1 := Put(s, c, Deciding(row));
    DecisionIs(cfg, s1, c, id, at);
    t := Put(s1, c, Inserting(row, RowAfter(row, req, at), EntryOf(row, req, id, at))).(topId := Max(s.topId, id));
    SoloJoins(cfg, s, s1, t, c, [TakeLock(true)] + [ReadWallet], [Decide(id, at)]);
    assert [TakeLock(true)] + [ReadWallet] + [Decide(id, at)] == [TakeLock(true), ReadWallet, Decide(id, at)];
  }

  /** `t` is `s` with one row replaced, one entry more, and the poster of both past its commit. */
  predicate PostedBy(s: State, t: State, c: nat, row: WalletState, entry: Entry)
    requires c in s.calls
  {
    && t.wallets == s.wallets[s.calls[c].req.wallet := row] && t.ledger == s.ledger + [Posting(entry, c)]
    && t.keys == s.keys && t.clock == s.clock
    && t.calls == s.calls[c := s.calls[c].(pc :=
         if s.calls[c].req.key.None? then Done(Settled(entry, false, row.cents)) else ConfirmReading(entry))]
  }

  lemma SoloPosts(cfg: Settings, s: State, c: nat) returns (t: State)
    requires c in s.calls && s.calls[c].pc.Inserting? && IdFree(s, s.calls[c].pc.entry.id)
    requires RowFree(s, s.calls[c].req.wallet) && s.calls[c].req.wallet in s.wallets
    requires s.wallets[s.calls[c].req.wallet].version == s.calls[c].pc.snap.version
    ensures Solo(cfg, s, c, [InsertEntry, UpdateWallet, Commit], t)
    ensures PostedBy(s, t, c, s.calls[c].pc.next, s.calls[c].pc.entry)
  {
    var pc := s.calls[c].pc;
    QuietStep(cfg, s, c, InsertEntry, Updating(pc.snap, pc.next, pc.entry));
    var s1 := Put(s, c, Updating(pc.snap, pc.next, pc.entry));
    t := SoloUpdates(cfg, s1, c);
    SoloJoins(cfg, s, s1, t, c, [InsertEntry], [UpdateWallet, Commit]);
    assert [InsertEntry] + [UpdateWallet, Commit] == [InsertEntry, UpdateWallet, Commit];
  }

  lemma SoloUpdates(cfg: Settings, s: State, c: nat) returns (t: State)
    requires c in s.calls && s.calls[c].pc.Updating?
    requires RowFree(s, s.calls[c].req.wallet) && s.calls[c].req.wallet in s.wallets
    requires s.wallets[s.calls[c].req.wallet].version == s.calls[c].pc.snap.version
    ensures Solo(cfg, s, c, [UpdateWallet, Commit], t)
    ensures PostedBy(s, t, c, s.calls[c].pc.next, s.calls[c].pc.entry)
  {
    var pc := s.calls[c].pc;
    QuietStep(cfg, s, c, UpdateWallet, Committing(pc.snap, pc.next, pc.entry));
    var s1 := Put(s, c, Committing(pc.snap, pc.next, pc.entry));
    SoloStep(cfg, s1, c, Commit);
    t := Apply(cfg, s1, Step(c, Commit));
    SoloJoins(cfg, s, s1, t, c, [UpdateWallet], [Commit]);
    assert [UpdateWallet] + [Commit] == [UpdateWallet, Commit];
  }

  function MovingTurns(id: Id, at: int): seq<Turn> {
    [TakeLock(true), ReadWallet, Decide(id, at), InsertEntry, UpdateWallet, Commit]
  }

  /**
   A permitted movement that nobody disturbs moves its wallet by its amount, leaves one entry that
   says so, and touches nothing else. Without a key it is then over; with one it goes on to confirm.
   */
  lemma SoloMoves(cfg: Settings, s: State, c: nat, id: Id, at: int) returns (t: State)
    requires ReadyToMove(s, c, id)
    ensures Solo(cfg, s, c, MovingTurns(id, at), t)
    ensures var (req, row) := (s.calls[c].req, s.wallets[s.calls[c].req.wallet]);
            PostedBy(s, t, c, RowAfter(row, req, at), EntryOf(row, req, id, at))
  {
    var s1 := SoloDrafts(cfg, s, c, id, at);
    t := SoloPosts(cfg, s1, c);
    assert s1.calls[c := t.calls[c]] == s.calls[c := t.calls[c]];
    SoloJoins(cfg, s, s1, t, c, [TakeLock(true), ReadWallet, Decide(id, at)], [InsertEntry, UpdateWallet, Commit]);
    assert [TakeLock(true), ReadWallet, Decide(id, at)] + [InsertEntry, UpdateWallet, Commit] == MovingTurns(id, at);
  }

  /** The confirmation writes the receipt into the record that is there and gives it its full lifetime again. */
  lemma SoloConfirms(cfg: Settings, s: State, c: nat, k: string) returns (t: State)
    requires c in s.calls && s.calls[c].pc.ConfirmReading? && KeyOf(cfg, s.calls[c].req) == Some(k)
    requires cfg.ttl > 0 && k in s.keys
    ensures Solo(cfg, s, c, [ConfirmRead, ConfirmWrite], t)
    ensures var entry := s.calls[c].pc.entry;
            && t.keys == s.keys[k :=
                 s.keys[k].(response := Some(Receipt(entry.id, entry.wallet)), expiresAt := s.clock + cfg.ttl)]
            && t.wallets == s.wallets && t.ledger == s.ledger && t.clock == s.clock
            && t.calls == s.calls[c := s.calls[c].(pc := Done(Settled(entry, false, entry.balanceAfter)))]
  {
    var entry := s.calls[c].pc.entry;
    QuietStep(cfg, s, c, ConfirmRead, ConfirmWriting(entry, s.keys[k]));
    var s1 := Put(s, c, ConfirmWriting(entry, s.keys[k]));
    SoloStep(cfg, s1, c, ConfirmWrite);
    t := Apply(cfg, s1, Step(c, ConfirmWrite));
    SoloJoins(cfg, s, s1, t, c, [ConfirmRead], [ConfirmWrite]);
    assert [ConfirmRead] + [ConfirmWrite] == [ConfirmRead, ConfirmWrite];
  }

  /** A confirmation that fails, or finds nothing to confirm, changes nothing, and the caller still gets its answer. */
  lemma SoloConfirmsNothing(cfg: Settings, s: State, c: nat, turn: Turn) returns (t: State)
    requires c in s.calls && Confirming(s.calls[c].pc)
    requires turn == ConfirmFail
          || (turn == ConfirmRead && s.calls[c].pc.ConfirmReading?
              && (cfg.ttl <= 0 || KeyOf(cfg, s.calls[c].req).None? || KeyOf(cfg, s.calls[c].req).value !in s.keys))
    ensures Solo(cfg, s, c, [turn], t)
    ensures var entry := s.calls[c].pc.entry; t == Put(s, c, Done(Settled(entry, false, entry.balanceAfter)))
  {
    SoloStep(cfg, s, c, turn);
    t := Apply(cfg, s, Step(c, turn));
  }

  // ----- a movement that is refused

  /** The way back: the refusal stands, and a reservation under the call's key is given back. */
  lemma SoloGivesUp(cfg: Settings, s: State, c: nat) returns (t: State)
    requires c in s.calls && s.calls[c].pc.RollingBack?
    ensures Solo(cfg, s, c, [Rollback, Release], t)
    ensures && t.wallets == s.wallets && t.ledger == s.ledger && t.clock == s.clock
            && t.calls == s.calls[c := s.calls[c].(pc := Done(Rejected(s.calls[c].pc.why)))]
    ensures forall k :: Lookup(t.keys, k) ==
              if KeyOf(cfg, s.calls[c].req) == Some(k) && k in s.keys && s.keys[k].response.None? then None
              else Lookup(s.keys, k)
  {
    var why := s.calls[c].pc.why;
    QuietStep(cfg, s, c, Rollback, Releasing(why));
    var s1 := Put(s, c, Releasing(why));
    SoloStep(cfg, s1, c, Release);
    t := Apply(cfg, s1, Step(c, Release));
    SoloJoins(cfg, s, s1, t, c, [Rollback], [Release]);
    assert [Rollback] + [Release] == [Rollback, Release];
  }

  /** Why a call before the lock will be refused if nobody disturbs it, if it will. */
  function Obstacle(s: State, req: Request, acquired: bool): Option<Refusal> {
    if !acquired then Some(WalletBusy)
    else if req.wallet !in s.wallets || s.wallets[req.wallet].owner != req.owner then Some(WalletNotFound)
    else if !Permits(s.wallets[req.wallet], req) then Some(NotPermitted(Objection(s.wallets[req.wallet], req)))
    else None
  }

  function TurnsTo(why: Refusal, id: Id, at: int): seq<Turn> {
    if why.WalletBusy? then [TakeLock(false)]
    else if why.WalletNotFound? then [TakeLock(true)] + [ReadWallet]
    else [TakeLock(true)] + [ReadWallet] + [Decide(id, at)]
  }

  lemma SoloReads(cfg: Settings, s: State, c: nat, pc: Pc)
    requires c in s.calls && s.calls[c].pc.Locking? && pc == AfterRead(s, s.calls[c].req)
    ensures Solo(cfg, s, c, [TakeLock(true)] + [ReadWallet], Put(s, c, pc))
  {
    QuietStep(cfg, s, c, TakeLock(true), Reading);
    var s1 := Put(s, c, Reading);
    QuietStep(cfg, s1, c, ReadWallet, pc);
    assert Put(s1, c, pc) == Put(s, c, pc);
    SoloJoins(cfg, s, s1, Put(s, c, pc), c, [TakeLock(true)], [ReadWallet]);
  }

  lemma SoloMeetsObjection(cfg: Settings, s: State, c: nat, why: Refusal, id: Id, at: int)
    requires c in s.calls && s.calls[c].pc.Locking? && Obstacle(s, s.calls[c].req, true) == Some(why)
    requires why.NotPermitted? && Sound(s.wallets[s.calls[c].req.wallet])
    ensures Solo(cfg, s, c, [TakeLock(true)] + [ReadWallet] + [Decide(id, at)], Put(s, c, RollingBack(why)))
  {
    var row := s.wallets[s.calls[c].req.wallet];
    SoloReads(cfg, s, c, Deciding(row));
    var s1 := Put(s, c, Deciding(row));
    DecisionIs(cfg, s1, c, id, at);
    assert Put(s1, c, RollingBack(why)).(topId := s1.topId) == Put(s, c, RollingBack(why));
    SoloJoins(cfg, s, s1, Put(s, c, RollingBack(why)), c, [TakeLock(true)] + [ReadWallet], [Decide(id, at)]);
  }

  lemma SoloMeetsObstacle(cfg: Settings, s: State, c: nat, acquired: bool, id: Id, at: int)
    requires c in s.calls && s.calls[c].pc.Locking? && Obstacle(s, s.calls[c].req, acquired).Some?
    requires s.calls[c].req.wallet in s.wallets ==> Sound(s.wallets[s.calls[c].req.wallet])
    ensures var why := Obstacle(s, s.calls[c].req, acquired).value;
            Solo(cfg, s, c, TurnsTo(why, id, at), Put(s, c, RollingBack(why)))
  {
    var (req, why) := (s.calls[c].req, Obstacle(s, s.calls[c].req, acquired).value);
    if why.WalletBusy? {
      QuietStep(cfg, s, c, TakeLock(false), RollingBack(WalletBusy));
    } else if why.WalletNotFound? {
      SoloReads(cfg, s, c, RollingBack(WalletNotFound));
    } else {
      SoloMeetsObjection(cfg, s, c, why, id, at);
    }
  }

  /**
   A movement that meets an obstacle is refused for that obstacle and moves nothing: the lock is
   busy, the wallet is not there for this owner, or the wallet objects.
   */
  lemma SoloIsRefused(cfg: Settings, s: State, c: nat, acquired: bool, id: Id, at: int) returns (t: State)
    requires c in s.calls && s.calls[c].pc.Locking? && Obstacle(s, s.calls[c].req, acquired).Some?
    requires s.calls[c].req.wallet in s.wallets ==> Sound(s.wallets[s.calls[c].req.wallet])
    ensures var why := Obstacle(s, s.calls[c].req, acquired).value;
            && Solo(cfg, s, c, TurnsTo(why, id, at) + [Rollback, Release], t)
            && t.wallets == s.wallets && t.ledger == s.ledger && t.clock == s.clock
            && t.calls == s.calls[c := s.calls[c].(pc := Done(Rejected(why)))]
    ensures forall k :: Lookup(t.keys, k) ==
              if KeyOf(cfg, s.calls[c].req) == Some(k) && k in s.keys && s.keys[k].response.None? then None
              else Lookup(s.keys, k)
  {
    var why := Obstacle(s, s.calls[c].req, acquired).value;
    SoloMeetsObstacle(cfg, s, c, acquired, id, at);
    var s1 := Put(s, c, RollingBack(why));
    t := SoloGivesUp(cfg, s1, c);
    SoloJoins(cfg, s, s1, t, c, TurnsTo(why, id, at), [Rollback, Release]);
  }

  /** The conditional update matches exactly if the row still has the version that was read. */
  lemma UpdateMatchesIff(cfg: Settings, run: seq<Action>, c: nat)
    requires IsRun(cfg, run) && Enabled(End(cfg, run), Step(c, UpdateWallet))
    ensures var s := End(cfg, run);
            var (call, pc) := (s.calls[c], NextCalls(cfg, s, Step(c, UpdateWallet))[c].pc);
            call.req.wallet in s.wallets
            && var moved := s.wallets[call.req.wallet] != call.pc.snap;
            && (pc == RollingBack(VersionConflict) <==> moved)
            && (pc == Committing(call.pc.snap, call.pc.next, call.pc.entry) <==> !moved)
  {
    RunsKeepInv(cfg, run);
    assert CallOk(End(cfg, run).wallets, End(cfg, run).calls[c]);
  }

  // ----- a replay

  const REPLAY_TURNS := [Claim, FindEntry, FindWallet, EndReplay]

  /** The call is about to claim a key that is completed for its payload. */
  ghost predicate ReadyToReplay(cfg: Settings, s: State, c: nat, k: string) {
    && c in s.calls && s.calls[c].pc.Claiming? && KeyOf(cfg, s.calls[c].req) == Some(k)
    && k in s.keys && s.keys[k].fingerprint == Fingerprint(s.calls[c].req) && s.keys[k].response.Some?
  }

  lemma SoloClaimsReplay(cfg: Settings, s: State, c: nat, k: string) returns (t: State)
    requires cfg.ttl > 0 && ReadyToReplay(cfg, s, c, k)
    ensures Solo(cfg, s, c, [Claim], t)
    ensures c in t.calls && t.calls[c].req == s.calls[c].req && t.calls[c].pc == FindingEntry(s.keys[k].response.value)
    ensures t == s.(calls := s.calls[c := t.calls[c]])
  {
    SoloStep(cfg, s, c, Claim);
    t := Apply(cfg, s, Step(c, Claim));
  }

  lemma SoloReplays(cfg: Settings, s: State, c: nat, k: string, p: Posting) returns (t: State)
    requires cfg.ttl > 0 && ReadyToReplay(cfg, s, c, k)
    requires FindById(s.ledger, s.keys[k].response.value.entry) == Some(p)
    requires var req := s.calls[c].req;
             Owned(s.wallets, p.entry.wallet, req.owner) && Owned(s.wallets, req.wallet, req.owner)
    ensures Solo(cfg, s, c, REPLAY_TURNS, t)
    ensures && t.wallets == s.wallets && t.ledger == s.ledger && t.keys == s.keys && t.clock == s.clock
            && c in t.calls && t.calls == s.calls[c := t.calls[c]]
            && t.calls[c].pc == Done(Settled(p.entry, true, p.entry.balanceAfter))
  {
    var s1 := SoloClaimsReplay(cfg, s, c, k);
    t := SoloEndsReplay(cfg, s1, c, p);
    SoloJoins(cfg, s, s1, t, c, [Claim], [FindEntry, FindWallet, EndReplay]);
    assert [Claim] + [FindEntry, FindWallet, EndReplay] == REPLAY_TURNS;
  }

  lemma SoloEndsReplay(cfg: Settings, s: State, c: nat, p: Posting) returns (t: State)
    requires c in s.calls && s.calls[c].pc.FindingEntry? && FindById(s.ledger, s.calls[c].pc.receipt.entry) == Some(p)
    requires var req := s.calls[c].req;
             Owned(s.wallets, p.entry.wallet, req.owner) && Owned(s.wallets, req.wallet, req.owner)
    ensures Solo(cfg, s, c, [FindEntry, FindWallet, EndReplay], t)
    ensures t == Put(s, c, Done(Settled(p.entry, true, p.entry.balanceAfter)))
  {
    QuietStep(cfg, s, c, FindEntry, FindingWallet(Some(p.entry)));
    var s1 := Put(s, c, FindingWallet(Some(p.entry)));
    t := SoloShowsOriginal(cfg, s1, c);
    SoloJoins(cfg, s, s1, t, c, [FindEntry], [FindWallet, EndReplay]);
    assert [FindEntry] + [FindWallet, EndReplay] == [FindEntry, FindWallet, EndReplay];
  }

  lemma SoloShowsOriginal(cfg: Settings, s: State, c: nat) returns (t: State)
    requires c in s.calls && s.calls[c].pc.FindingWallet? && s.calls[c].pc.found.Some?
    requires Owned(s.wallets, s.calls[c].req.wallet, s.calls[c].req.owner)
    ensures Solo(cfg, s, c, [FindWallet, EndReplay], t)
    ensures var e := s.calls[c].pc.found.value; t == Put(s, c, Done(Settled(e, true, e.balanceAfter)))
  {
    var e := s.calls[c].pc.found.value;
    QuietStep(cfg, s, c, FindWallet, EndingReplay(e));
    var s1 := Put(s, c, EndingReplay(e));
    QuietStep(cfg, s1, c, EndReplay, Done(Settled(e, true, e.balanceAfter)));
    t := Put(s1, c, Done(Settled(e, true, e.balanceAfter)));
    SoloJoins(cfg, s, s1, t, c, [FindWallet], [EndReplay]);
    assert [FindWallet] + [EndReplay] == [FindWallet, EndReplay];
  }

  /**
   In every run in which records outlive their calls, a call that finds its key completed for its
   payload is answered with the committed entry the receipt names, as a replay, and changes nothing.
   */
  lemma CompletedKeysAreReplayed(cfg: Settings, run: seq<Action>, c: nat, k: string) returns (p: Posting)
    requires IsRun(cfg, run) && RecordsOutliveCalls(cfg, run) && cfg.ttl > 0
    requires ReadyToReplay(cfg, End(cfg, run), c, k)
    ensures p in End(cfg, run).ledger && p.entry.id == End(cfg, run).keys[k].response.value.entry
    ensures var (next, s) := (run + Steps(c, REPLAY_TURNS), End(cfg, run));
            && IsRun(cfg, next) && RecordsOutliveCalls(cfg, next)
            && var t := End(cfg, next);
               && t.wallets == s.wallets && t.ledger == s.ledger && t.keys == s.keys && t.clock == s.clock
               && c in t.calls && t.calls == s.calls[c := t.calls[c]]
               && t.calls[c].pc == Done(Settled(p.entry, true, p.entry.balanceAfter))
  {
    RunsKeepKeyInv(cfg, run);
    var s := End(cfg, run);
    assert RecordOk(cfg, s.wallets, s.ledger, s.calls, k, s.keys[k]);
    FindByIdIsIn(s.ledger, s.keys[k].response.value.entry);
    p := FindById(s.ledger, s.keys[k].response.value.entry).value;
    var t := SoloReplays(cfg, s, c, k, p);
    var _ := SoloExtends(cfg, run, c, REPLAY_TURNS, t);
  }

  // ----- a call and its retry

  /** `c` has its key and can move; `d` is about to claim the same key for the same payload. */
  ghost predicate ReadyToRetry(cfg: Settings, s: State, c: nat, d: nat, id: Id) {
    && ReadyToMove(s, c, id) && d in s.calls && d != c && s.calls[d].pc.Claiming?
    && s.calls[c].req.key.Some? && KeyOf(cfg, s.calls[d].req) == KeyOf(cfg, s.calls[c].req)
    && Fingerprint(s.calls[d].req) == Fingerprint(s.calls[c].req)
  }

  function KeyedTurns(id: Id, at: int): seq<Turn> {
    MovingTurns(id, at) + [ConfirmRead, ConfirmWrite]
  }

  /** What a movement under `k` leaves of `s` when it has settled. */
  ghost predicate SettledUnder(cfg: Settings, s: State, t: State, c: nat, k: string, id: Id, at: int)
    requires ReadyToMove(s, c, id)
  {
    var req := s.calls[c].req;
    var row := s.wallets[req.wallet];
    var entry := EntryOf(row, req, id, at);
    && t.wallets == s.wallets[req.wallet := RowAfter(row, req, at)]
    && t.ledger == s.ledger + [Posting(entry, c)]
    && t.keys == s.keys[k := Record(Fingerprint(req), Some(Receipt(id, req.wallet)), s.clock + cfg.ttl, c)]
    && t.calls == s.calls[c := s.calls[c].(pc := Done(Settled(entry, false, entry.balanceAfter)))]
  }

  lemma SoloSettles(cfg: Settings, s: State, c: nat, k: string, id: Id, at: int) returns (t: State)
    requires cfg.ttl > 0 && ReadyToMove(s, c, id) && KeyOf(cfg, s.calls[c].req) == Some(k)
    requires Holds(cfg, s.keys, s.calls[c], c)
    ensures Solo(cfg, s, c, KeyedTurns(id, at), t) && SettledUnder(cfg, s, t, c, k, id, at)
  {
    var s1 := SoloMoves(cfg, s, c, id, at);
    t := SoloConfirms(cfg, s1, c, k);
    SoloJoins(cfg, s, s1, t, c, MovingTurns(id, at), [ConfirmRead, ConfirmWrite]);
  }

  /** A movement with a key, from the lock to its answer. */
  lemma KeyedCallSettles(cfg: Settings, run: seq<Action>, c: nat, k: string, id: Id, at: int)
    requires IsRun(cfg, run) && RecordsOutliveCalls(cfg, run) && cfg.ttl > 0
    requires ReadyToMove(End(cfg, run), c, id) && KeyOf(cfg, End(cfg, run).calls[c].req) == Some(k)
    ensures var next := run + Steps(c, KeyedTurns(id, at));
            && IsRun(cfg, next) && RecordsOutliveCalls(cfg, next)
            && SettledUnder(cfg, End(cfg, run), End(cfg, next), c, k, id, at)
  {
    var s := End(cfg, run);
    RunsKeepKeyInv(cfg, run);
    assert Holds(cfg, s.keys, s.calls[c], c);
    var t := SoloSettles(cfg, s, c, k, id, at);
    var _ := SoloExtends(cfg, run, c, KeyedTurns(id, at), t);
  }

  /**
   End to end: a movement under a key settles, and a retry of it is answered with the very same
   entry and balance. The wallet has moved once, and there is one entry.
   */
  lemma RetriesAreReplayed(cfg: Settings, run: seq<Action>, c: nat, d: nat, id: Id, at: int)
    requires IsRun(cfg, run) && RecordsOutliveCalls(cfg, run) && cfg.ttl > 0
    requires ReadyToRetry(cfg, End(cfg, run), c, d, id)
    ensures var next := run + Steps(c, KeyedTurns(id, at)) + Steps(d, REPLAY_TURNS);
            && IsRun(cfg, next)
            && var (s, t) := (End(cfg, run), End(cfg, next));
               var req := s.calls[c].req;
               var entry := EntryOf(s.wallets[req.wallet], req, id, at);
               && t.wallets == s.wallets[req.wallet := RowAfter(s.wallets[req.wallet], req, at)]
               && t.ledger == s.ledger + [Posting(entry, c)]
               && c in t.calls && t.calls[c].pc == Done(Settled(entry, false, entry.balanceAfter))
               && d in t.calls && t.calls[d].pc == Done(Settled(entry, true, entry.balanceAfter))
  {
    var s := End(cfg, run);
    var k := KeyOf(cfg, s.calls[c].req).value;
    var settled := run + Steps(c, KeyedTurns(id, at));
    KeyedCallSettles(cfg, run, c, k, id, at);
    var p := CompletedKeysAreReplayed(cfg, settled, d, k);
    RunsKeepDistinct(cfg, settled);
    var entry := EntryOf(s.wallets[s.calls[c].req.wallet], s.calls[c].req, id, at);
    FindByIdFinds(End(cfg, settled).ledger, p);
    FindByIdFinds(End(cfg, settled).ledger, Posting(entry, c));
  }

  // ----- the description

  /** Stripping takes white space off both ends and nothing else. */
  lemma {:induction false} StripTrims(s: string) returns (i: nat, j: nat)
    ensures i <= j <= |s| && Strip(s) == s[i..j]
    ensures forall k :: 0 <= k < i || j <= k < |s| ==> IsSpace(s[k])
    ensures i < j ==> !IsSpace(s[i]) && !IsSpace(s[j - 1])
    decreases |s|
  {
    if s == "" {
      i, j := 0, 0;
    } else if IsSpace(s[0]) {
      i, j := StripTrims(s[1..]);
      i, j := i + 1, j + 1;
      assert forall k :: 0 < k < |s| ==> s[k] == s[1..][k - 1];
    } else if IsSpace(s[|s| - 1]) {
      i, j := StripTrims(s[..|s| - 1]);
    } else {
      i, j := 0, |s|;
    }
  }
}
