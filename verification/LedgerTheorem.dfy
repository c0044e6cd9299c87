/**
 What every interleaving keeps of the ledger: each committed balance is the sum
 of its committed entries, each entry carries the running balance, and the
 version counts them. The only guard used is the version predicate of UPDATE.
 */
module LedgerTheorem {
  import opened Base
  import opened Moneys
  import opened Wallets
  import opened Movement

  function EntriesOf(ledger: seq<Posting>, w: Id): seq<Entry> {
    if ledger == [] then []
    else
      var last := ledger[|ledger| - 1].entry;
      EntriesOf(ledger[..|ledger| - 1], w) + (if last.wallet == w then [last] else [])
  }

  /** Credits minus debits. */
  function Balance(es: seq<Entry>): int {
    if es == [] then 0
    else Balance(es[..|es| - 1]) + Effect(es[|es| - 1].direction, es[|es| - 1].cents)
  }

  ghost predicate RunningBalance(e: Entry, balance: int, currency: string) {
    && e.balanceAfter == balance
    && 0 <= balance <= MAX_CENTS
    && e.cents > 0
    && e.currency == currency
  }

  ghost predicate RunningBalances(es: seq<Entry>, currency: string) {
    es == [] ||
    (RunningBalance(es[|es| - 1], Balance(es), currency) && RunningBalances(es[..|es| - 1], currency))
  }

  /** The wallet row is a cache of its entries. */
  ghost predicate Reconciles(row: WalletState, es: seq<Entry>) {
    && row.cents == Balance(es)
    && row.version == |es| + (if row.status == Closed then 1 else 0)
    && Sound(row)
    && RunningBalances(es, row.currency)
  }

  type Table = map<Id, WalletState>

  ghost predicate LedgerSound(wallets: Table, ledger: seq<Posting>) {
    && (forall w :: w in wallets ==> Reconciles(wallets[w], EntriesOf(ledger, w)))
    && (forall p :: p in ledger ==> p.entry.wallet in wallets)
  }

  /** A row a call once read: if the version has not moved, neither has the row. */
  ghost predicate SnapshotOk(wallets: Table, req: Request, snap: WalletState) {
    && req.wallet in wallets
    && var row := wallets[req.wallet];
    && row.owner == snap.owner == req.owner
    && row.currency == snap.currency
    && snap.version <= row.version
    && (snap.version == row.version ==> snap == row)
  }

  ghost predicate Derived(req: Request, snap: WalletState, next: WalletState, entry: Entry) {
    && Moved(snap, req.direction, Worth(req.amount), req.currency, entry.occurredAt) == Ok(next)
    && entry == EntryFor(req, entry.id, next, entry.occurredAt)
  }

  predicate Drafted(pc: Pc) {
    pc.Inserting? || pc.Updating? || pc.Committing?
  }

  ghost predicate CallOk(wallets: Table, call: Call) {
    && (call.pc.Deciding? ==> SnapshotOk(wallets, call.req, call.pc.snap))
    && (Drafted(call.pc) ==>
          SnapshotOk(wallets, call.req, call.pc.snap) && Derived(call.req, call.pc.snap, call.pc.next, call.pc.entry))
    && (call.pc.Committing? ==> wallets[call.req.wallet] == call.pc.snap)
  }

  /** A matched UPDATE keeps its row to itself. */
  ghost predicate RowsExclusive(calls: map<nat, Call>) {
    forall c, d ::
      (c in calls && d in calls && calls[c].pc.Committing? && calls[d].pc.Committing?
       && calls[c].req.wallet == calls[d].req.wallet) ==> c == d
  }

  ghost predicate Inv(s: State) {
    && LedgerSound(s.wallets, s.ledger)
    && (forall c :: c in s.calls ==> CallOk(s.wallets, s.calls[c]))
    && RowsExclusive(s.calls)
  }

  lemma BalanceExtends(es: seq<Entry>, e: Entry, currency: string)
    requires RunningBalances(es, currency)
    requires RunningBalance(e, Balance(es) + Effect(e.direction, e.cents), currency)
    ensures Balance(es + [e]) == e.balanceAfter && RunningBalances(es + [e], currency)
  {
    assert (es + [e])[..|es + [e]| - 1] == es;
  }

  lemma EntriesExtend(ledger: seq<Posting>, p: Posting, w: Id)
    ensures EntriesOf(ledger + [p], w) == EntriesOf(ledger, w) + (if p.entry.wallet == w then [p.entry] else [])
  {
    assert (ledger + [p])[..|ledger + [p]| - 1] == ledger;
  }

  lemma {:induction false} NoEntries(ledger: seq<Posting>, w: Id)
    requires forall p :: p in ledger ==> p.entry.wallet != w
    ensures EntriesOf(ledger, w) == []
  {
    if ledger != [] {
      NoEntries(ledger[..|ledger| - 1], w);
    }
  }

  lemma MovedCents(snap: WalletState, direction: Direction, cents: int, currency: string, at: int)
    requires Moved(snap, direction, cents, currency, at).Ok? && Sound(snap)
    ensures var next := Moved(snap, direction, cents, currency, at).value;
            && next.cents == snap.cents + Effect(direction, cents)
            && next == Touched(snap, next.cents, at)
            && cents > 0 && currency == snap.currency
            && Sound(next) && snap.status == Open
  {
  }

  /** One entry and one row move together, and no other wallet's equation changes. */
  lemma PostingReconciles(wallets: Table, ledger: seq<Posting>, w: Id, next: WalletState, p: Posting)
    requires LedgerSound(wallets, ledger) && w in wallets && p.entry.wallet == w
    requires next == Touched(wallets[w], wallets[w].cents + Effect(p.entry.direction, p.entry.cents), next.updatedAt)
    requires wallets[w].status == Open && Sound(next)
    requires RunningBalance(p.entry, next.cents, next.currency)
    ensures LedgerSound(wallets[w := next], ledger + [p])
  {
    forall v | v in wallets
      ensures Reconciles(wallets[w := next][v], EntriesOf(ledger + [p], v))
    {
      EntriesExtend(ledger, p, v);
      assert Reconciles(wallets[v], EntriesOf(ledger, v));
      if v == w {
        BalanceExtends(EntriesOf(ledger, v), p.entry, next.currency);
      } else {
        assert EntriesOf(ledger + [p], v) == EntriesOf(ledger, v);
      }
    }
  }

  predicate Commits(a: Action) {
    a.Step? && a.turn.Commit?
  }

  /** A row moves only to a higher version, so what a snapshot says about it stays true. */
  ghost predicate RowsMoveOn(before: Table, after: Table) {
    forall w :: w in before ==>
      && w in after
      && after[w].owner == before[w].owner && after[w].currency == before[w].currency
      && (after[w] == before[w] || after[w].version > before[w].version)
  }

  lemma SnapshotSurvives(before: Table, after: Table, call: Call)
    requires CallOk(before, call) && RowsMoveOn(before, after)
    requires call.pc.Committing? ==> after[call.req.wallet] == before[call.req.wallet]
    ensures CallOk(after, call)
  {
  }

  lemma CommitMoves(s: State, c: nat)
    requires Inv(s) && c in s.calls && s.calls[c].pc.Committing?
    ensures var call := s.calls[c];
            var p := Posting(call.pc.entry, c);
            && RowsMoveOn(s.wallets, s.wallets[call.req.wallet := call.pc.next])
            && LedgerSound(s.wallets[call.req.wallet := call.pc.next], s.ledger + [p])
  {
    var call := s.calls[c];
    assert CallOk(s.wallets, call);
    assert Reconciles(s.wallets[call.req.wallet], EntriesOf(s.ledger, call.req.wallet));
    MovedCents(call.pc.snap, call.req.direction, Worth(call.req.amount), call.req.currency, call.pc.entry.occurredAt);
    PostingReconciles(s.wallets, s.ledger, call.req.wallet, call.pc.next, Posting(call.pc.entry, c));
  }

  lemma OpeningReconciles(wallets: Table, ledger: seq<Posting>, w: Id, owner: Id, currency: string, at: int)
    requires LedgerSound(wallets, ledger) && w !in wallets
    ensures LedgerSound(wallets[w := Opened(owner, currency, at)], ledger)
  {
    NoEntries(ledger, w);
  }

  lemma ClosingReconciles(wallets: Table, ledger: seq<Posting>, w: Id, at: int)
    requires LedgerSound(wallets, ledger) && w in wallets && ClosedAt(wallets[w], at).Ok?
    ensures LedgerSound(wallets[w := ClosedAt(wallets[w], at).value], ledger)
    ensures RowsMoveOn(wallets, wallets[w := ClosedAt(wallets[w], at).value])
  {
    assert Reconciles(wallets[w], EntriesOf(ledger, w));
  }

  lemma TablesStaySound(s: State, a: Action)
    requires Inv(s) && Enabled(s, a)
    ensures LedgerSound(NextWallets(s, a), NextLedger(s, a))
    ensures RowsMoveOn(s.wallets, NextWallets(s, a))
  {
    match a
    case OpenWallet(w, owner, currency, at) => OpeningReconciles(s.wallets, s.ledger, w, owner, currency, at);
    case CloseWallet(w, at) => ClosingReconciles(s.wallets, s.ledger, w, at);
    case Step(c, Commit) => CommitMoves(s, c);
    case _ =>
  }

  /** The call that moves: what it carries on is what the tables said when it looked. */
  lemma MovingCallOk(cfg: Settings, s: State, call: Call, turn: Turn)
    requires CallOk(s.wallets, call) && CanTake(call.pc, turn) && !turn.Commit?
    ensures CallOk(s.wallets, NextCall(cfg, s, call, turn))
  {
  }

  /** The calls that do not move, and the rows held by their matched updates. */
  lemma CallsStayOk(cfg: Settings, s: State, a: Action, d: nat)
    requires Inv(s) && Enabled(s, a) && d in NextCalls(cfg, s, a)
    requires RowsMoveOn(s.wallets, NextWallets(s, a))
    ensures CallOk(NextWallets(s, a), NextCalls(cfg, s, a)[d])
  {
    if d in s.calls {
      assert CallOk(s.wallets, s.calls[d]);
      if a.Step? && a.c == d {
        if !a.turn.Commit? {
          MovingCallOk(cfg, s, s.calls[d], a.turn);
        }
      } else {
        SnapshotSurvives(s.wallets, NextWallets(s, a), s.calls[d]);
      }
    }
  }

  lemma RowsStayExclusive(cfg: Settings, s: State, a: Action)
    requires RowsExclusive(s.calls) && Enabled(s, a)
    ensures RowsExclusive(NextCalls(cfg, s, a))
  {
    if a.Step? {
      assert NextPc(cfg, s, s.calls[a.c].req, s.calls[a.c].pc, a.turn).Committing? ==> a.turn.UpdateWallet?;
    }
  }

  lemma StepKeepsInv(cfg: Settings, s: State, a: Action)
    requires Inv(s) && Enabled(s, a)
    ensures Inv(Apply(cfg, s, a))
  {
    TablesStaySound(s, a);
    RowsStayExclusive(cfg, s, a);
    forall d | d in NextCalls(cfg, s, a)
      ensures CallOk(NextWallets(s, a), NextCalls(cfg, s, a)[d])
    {
      CallsStayOk(cfg, s, a, d);
    }
  }

  lemma {:induction false} RunsKeepInv(cfg: Settings, run: seq<Action>)
    requires IsRun(cfg, run)
    ensures Inv(End(cfg, run))
    decreases |run|
  {
    if run != [] {
      RunsKeepInv(cfg, run[..|run| - 1]);
      StepKeepsInv(cfg, End(cfg, run[..|run| - 1]), run[|run| - 1]);
    }
  }

  /** Read forwards: the i-th `balance_after` is the sum of the first i entries. */
  lemma {:induction false} RunningBalanceAt(es: seq<Entry>, currency: string, i: nat)
    requires RunningBalances(es, currency) && i < |es|
    ensures RunningBalance(es[i], Balance(es[..i + 1]), currency)
  {
    if i == |es| - 1 {
      assert es[..i + 1] == es;
    } else {
      RunningBalanceAt(es[..|es| - 1], currency, i);
      assert es[..|es| - 1][..i + 1] == es[..i + 1];
    }
  }

  /**
   The reconciliation theorem: in every state any run can reach, whoever the lock
   let in and wherever calls crashed, every wallet balance is credits minus debits
   of its committed entries and lies in [0, MONEY_MAX], the i-th entry's
   `balance_after` is the i-th prefix sum, and the version counts the entries
   (one more if the wallet was closed).
   */
  lemma EveryRunReconciles(cfg: Settings, run: seq<Action>, w: Id)
    requires IsRun(cfg, run) && w in End(cfg, run).wallets
    ensures var (row, es) := (End(cfg, run).wallets[w], EntriesOf(End(cfg, run).ledger, w));
            && row.cents == Balance(es)
            && 0 <= row.cents <= MAX_CENTS
            && row.version == |es| + (if row.status == Closed then 1 else 0)
            && (row.status == Closed ==> row.cents == 0)
            && forall i :: 0 <= i < |es| ==>
                 && es[i].balanceAfter == Balance(es[..i + 1])
                 && 0 <= es[i].balanceAfter <= MAX_CENTS
                 && es[i].cents > 0 && es[i].currency == row.currency
  {
    RunsKeepInv(cfg, run);
    var (row, es) := (End(cfg, run).wallets[w], EntriesOf(End(cfg, run).ledger, w));
    assert Reconciles(row, es);
    forall i | 0 <= i < |es|
      ensures RunningBalance(es[i], Balance(es[..i + 1]), row.currency)
    {
      RunningBalanceAt(es, row.currency, i);
    }
  }

  /** No committed entry belongs to a wallet that does not exist. */
  lemma EveryEntryHasItsWallet(cfg: Settings, run: seq<Action>, p: Posting)
    requires IsRun(cfg, run) && p in End(cfg, run).ledger
    ensures p.entry.wallet in End(cfg, run).wallets
  {
    RunsKeepInv(cfg, run);
  }
}
