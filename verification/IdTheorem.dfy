/**
 Entry identifiers. In every run committed ids are distinct, by the primary key.
 If draws never go down (what UUIDv7 is chosen for), the id order of one wallet's
 entries is the order its versions were committed in, under every interleaving.
 */
module IdTheorem {
  import opened Base
  import opened Wallets
  import opened Movement
  import opened LedgerTheorem

  ghost predicate Unposted(ledger: seq<Posting>, id: Id) {
    forall p :: p in ledger ==> p.entry.id != id
  }

  ghost predicate DistinctIds(ledger: seq<Posting>) {
    forall i, j :: 0 <= i < j < |ledger| ==> ledger[i].entry.id != ledger[j].entry.id
  }

  /** An inserted, uncommitted row has its id to itself. */
  ghost predicate StagedAlone(ledger: seq<Posting>, calls: map<nat, Call>, c: nat)
    requires c in calls
  {
    HasInserted(calls[c].pc) ==>
      && Unposted(ledger, calls[c].pc.entry.id)
      && forall d :: d in calls && d != c && HasInserted(calls[d].pc) ==> calls[d].pc.entry.id != calls[c].pc.entry.id
  }

  ghost predicate IdsDistinct(s: State) {
    && DistinctIds(s.ledger)
    && forall c :: c in s.calls ==> StagedAlone(s.ledger, s.calls, c)
  }

  /** A call inserts its own draft, and afterwards only keeps it or drops it. */
  lemma StagedComesFrom(cfg: Settings, s: State, call: Call, turn: Turn)
    requires CanTake(call.pc, turn) && HasInserted(NextPc(cfg, s, call.req, call.pc, turn))
    ensures turn.InsertEntry? || turn.UpdateWallet?
    ensures turn.UpdateWallet? ==> call.pc.Updating?
    ensures NextPc(cfg, s, call.req, call.pc, turn).entry == call.pc.entry
  {
  }

  lemma StagedStaysAlone(cfg: Settings, s: State, a: Action, c: nat)
    requires IdsDistinct(s) && Enabled(s, a) && c in NextCalls(cfg, s, a)
    ensures StagedAlone(NextLedger(s, a), NextCalls(cfg, s, a), c)
  {
    var calls := NextCalls(cfg, s, a);
    if a.Step? {
      assert StagedAlone(s.ledger, s.calls, a.c);
      if HasInserted(calls[a.c].pc) {
        StagedComesFrom(cfg, s, s.calls[a.c], a.turn);
      }
    }
    if c in s.calls {
      assert StagedAlone(s.ledger, s.calls, c);
    }
  }

  lemma StepKeepsDistinct(cfg: Settings, s: State, a: Action)
    requires IdsDistinct(s) && Enabled(s, a)
    ensures IdsDistinct(Apply(cfg, s, a))
  {
    if Commits(a) {
      assert StagedAlone(s.ledger, s.calls, a.c);
    }
    forall c | c in NextCalls(cfg, s, a)
      ensures StagedAlone(NextLedger(s, a), NextCalls(cfg, s, a), c)
    {
      StagedStaysAlone(cfg, s, a, c);
    }
  }

  lemma {:induction false} RunsKeepDistinct(cfg: Settings, run: seq<Action>)
    requires IsRun(cfg, run)
    ensures IdsDistinct(End(cfg, run))
    decreases |run|
  {
    if run != [] {
      RunsKeepDistinct(cfg, run[..|run| - 1]);
      StepKeepsDistinct(cfg, End(cfg, run[..|run| - 1]), run[|run| - 1]);
    }
  }

  /** Reading an entry by its id finds that entry. */
  lemma {:induction false} FindByIdFinds(ledger: seq<Posting>, p: Posting)
    requires p in ledger && DistinctIds(ledger)
    ensures FindById(ledger, p.entry.id) == Some(p)
  {
    var last := |ledger| - 1;
    if ledger[last] != p {
      var i :| 0 <= i < |ledger| && ledger[i] == p;
      assert ledger[i].entry.id != ledger[last].entry.id;
      FindByIdFinds(ledger[..last], p);
    }
  }

  // ----- rising draws

  /** The ids drawn in a run, in order. */
  ghost function DrawnIds(cfg: Settings, run: seq<Action>): seq<Id>
    requires IsRun(cfg, run)
    decreases |run|
  {
    if run == [] then []
    else
      var (before, a) := (run[..|run| - 1], run[|run| - 1]);
      DrawnIds(cfg, before) + NewDraw(End(cfg, before), a)
  }

  ghost function NewDraw(s: State, a: Action): seq<Id>
    requires Enabled(s, a)
  {
    if a.Step? && Draws(s.calls[a.c], a.turn) then [a.turn.id] else []
  }

  /** No id drawn is below one drawn before it. */
  ghost predicate DrawsNeverFall(cfg: Settings, run: seq<Action>)
    requires IsRun(cfg, run)
    decreases |run|
  {
    run == [] ||
    (DrawsNeverFall(cfg, run[..|run| - 1]) && FreshDraw(End(cfg, run[..|run| - 1]), run[|run| - 1]))
  }

  predicate FreshDraw(s: State, a: Action) {
    a.Step? && a.c in s.calls && Draws(s.calls[a.c], a.turn) ==> a.turn.id >= s.topId
  }

  function LastId(es: seq<Entry>): int {
    if es == [] then -1 else es[|es| - 1].id
  }

  predicate Ascending(es: seq<Entry>) {
    es == [] || (LastId(es[..|es| - 1]) < es[|es| - 1].id && Ascending(es[..|es| - 1]))
  }

  /** A draft that could still commit carries an id above everything its wallet has. */
  ghost predicate DraftIsNewest(wallets: Table, ledger: seq<Posting>, top: int, call: Call) {
    Drafted(call.pc) ==>
      && call.pc.entry.id <= top
      && (call.req.wallet in wallets && wallets[call.req.wallet].version == call.pc.snap.version ==>
            LastId(EntriesOf(ledger, call.req.wallet)) <= call.pc.entry.id)
  }

  ghost predicate WalletAscends(ledger: seq<Posting>, top: int, w: Id) {
    Ascending(EntriesOf(ledger, w)) && LastId(EntriesOf(ledger, w)) <= top
  }

  ghost predicate Ordered(s: State) {
    && (forall w :: w in s.wallets ==> WalletAscends(s.ledger, s.topId, w))
    && (forall c :: c in s.calls ==> DraftIsNewest(s.wallets, s.ledger, s.topId, s.calls[c]))
    && s.topId >= -1
  }

  lemma PostingAscends(ledger: seq<Posting>, top: int, p: Posting, w: Id)
    requires WalletAscends(ledger, top, w)
    requires p.entry.wallet == w ==> LastId(EntriesOf(ledger, w)) < p.entry.id <= top
    ensures WalletAscends(ledger + [p], top, w)
  {
    EntriesExtend(ledger, p, w);
    if p.entry.wallet == w {
      AscendingExtends(EntriesOf(ledger, w), p.entry);
    } else {
      assert EntriesOf(ledger + [p], w) == EntriesOf(ledger, w);
    }
  }

  lemma AscendingExtends(es: seq<Entry>, e: Entry)
    requires Ascending(es) && LastId(es) < e.id
    ensures Ascending(es + [e]) && LastId(es + [e]) == e.id
  {
    assert (es + [e])[..|es + [e]| - 1] == es;
  }

  lemma {:induction false} EntriesArePosted(ledger: seq<Posting>, w: Id, id: Id)
    requires Unposted(ledger, id)
    ensures LastId(EntriesOf(ledger, w)) != id
  {
    if ledger != [] {
      var front := ledger[..|ledger| - 1];
      EntriesArePosted(front, w, id);
      assert ledger[|ledger| - 1].entry.id != id;
      assert EntriesOf(front, w) + [] == EntriesOf(front, w);
    }
  }

  lemma WalletsStayAscending(s: State, a: Action, w: Id)
    requires Inv(s) && IdsDistinct(s) && Ordered(s) && Enabled(s, a) && w in NextWallets(s, a)
    ensures WalletAscends(NextLedger(s, a), NextTopId(s, a), w)
  {
    if Commits(a) {
      assert CallOk(s.wallets, s.calls[a.c]);
      assert DraftIsNewest(s.wallets, s.ledger, s.topId, s.calls[a.c]);
      assert StagedAlone(s.ledger, s.calls, a.c);
      EntriesArePosted(s.ledger, w, s.calls[a.c].pc.entry.id);
      PostingAscends(s.ledger, s.topId, Posting(s.calls[a.c].pc.entry, a.c), w);
    } else if w !in s.wallets {
      NoEntries(s.ledger, w);
    } else {
      assert WalletAscends(s.ledger, s.topId, w);
    }
  }

  /** A new draft's id is drawn above everything committed so far; an old one is kept as it was. */
  lemma MovingDraftIsNewest(cfg: Settings, s: State, call: Call, turn: Turn)
    requires CallOk(s.wallets, call) && CanTake(call.pc, turn) && !turn.Commit?
    requires DraftIsNewest(s.wallets, s.ledger, s.topId, call)
    requires call.req.wallet in s.wallets ==> WalletAscends(s.ledger, s.topId, call.req.wallet)
    requires Draws(call, turn) ==> turn.id >= s.topId
    ensures DraftIsNewest(
              s.wallets, s.ledger, if Draws(call, turn) then Max(s.topId, turn.id) else s.topId,
              NextCall(cfg, s, call, turn))
  {
  }

  /** Elsewhere: once the row has moved, the draft has lost its claim to be newest. */
  lemma StandingDraftIsNewest(s: State, a: Action, call: Call)
    requires Inv(s) && Enabled(s, a) && CallOk(s.wallets, call)
    requires DraftIsNewest(s.wallets, s.ledger, s.topId, call)
    ensures DraftIsNewest(NextWallets(s, a), NextLedger(s, a), NextTopId(s, a), call)
  {
    TablesStaySound(s, a);
    if Commits(a) {
      var p := Posting(s.calls[a.c].pc.entry, a.c);
      assert CallOk(s.wallets, s.calls[a.c]);
      EntriesExtend(s.ledger, p, call.req.wallet);
      assert EntriesOf(s.ledger, call.req.wallet) + [] == EntriesOf(s.ledger, call.req.wallet);
    }
  }

  lemma StepKeepsOrder(cfg: Settings, s: State, a: Action)
    requires Inv(s) && IdsDistinct(s) && Ordered(s) && Enabled(s, a) && FreshDraw(s, a)
    ensures Ordered(Apply(cfg, s, a))
  {
    forall w | w in NextWallets(s, a)
      ensures WalletAscends(NextLedger(s, a), NextTopId(s, a), w)
    {
      WalletsStayAscending(s, a, w);
    }
    forall d | d in NextCalls(cfg, s, a)
      ensures DraftIsNewest(NextWallets(s, a), NextLedger(s, a), NextTopId(s, a), NextCalls(cfg, s, a)[d])
    {
      if d in s.calls {
        assert CallOk(s.wallets, s.calls[d]);
        if !a.Step? || a.c != d {
          StandingDraftIsNewest(s, a, s.calls[d]);
        } else if !a.turn.Commit? {
          MovingDraftIsNewest(cfg, s, s.calls[d], a.turn);
        }
      }
    }
  }

  lemma {:induction false} RunsKeepOrder(cfg: Settings, run: seq<Action>)
    requires IsRun(cfg, run) && DrawsNeverFall(cfg, run)
    ensures Ordered(End(cfg, run))
    decreases |run|
  {
    if run != [] {
      RunsKeepOrder(cfg, run[..|run| - 1]);
      RunsKeepInv(cfg, run[..|run| - 1]);
      RunsKeepDistinct(cfg, run[..|run| - 1]);
      StepKeepsOrder(cfg, End(cfg, run[..|run| - 1]), run[|run| - 1]);
    }
  }

  lemma {:induction false} AscendingPairs(es: seq<Entry>, i: nat, j: nat)
    requires Ascending(es) && i < j < |es|
    ensures es[i].id < es[j].id
  {
    var front := es[..|es| - 1];
    if j < |es| - 1 {
      AscendingPairs(front, i, j);
    } else if i < j - 1 {
      AscendingPairs(front, i, j - 1);
    }
  }

  /**
   If draws never fall, one wallet's committed entries have strictly increasing
   ids in the order their versions were committed, however the calls interleaved.
   */
  lemma IdOrderIsVersionOrder(cfg: Settings, run: seq<Action>, w: Id, i: nat, j: nat)
    requires IsRun(cfg, run) && DrawsNeverFall(cfg, run) && w in End(cfg, run).wallets
    requires i < j < |EntriesOf(End(cfg, run).ledger, w)|
    ensures EntriesOf(End(cfg, run).ledger, w)[i].id < EntriesOf(End(cfg, run).ledger, w)[j].id
  {
    RunsKeepOrder(cfg, run);
    assert WalletAscends(End(cfg, run).ledger, End(cfg, run).topId, w);
    AscendingPairs(EntriesOf(End(cfg, run).ledger, w), i, j);
  }
}
