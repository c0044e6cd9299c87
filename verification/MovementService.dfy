/**
 The service as the object the application runs: a database, a key store and the calls
 in progress, changed in place. Each method is one await of `_run`, `apply` or one of
 their helpers, written branch by branch, or something that happens around them. The
 ghost trace records what was done; a valid object is where its trace leads, so the
 theorems about runs are theorems about the object.
 */
module MovementService {
  import opened Base
  import opened Moneys
  import opened Wallets
  import opened Movement
  import opened LedgerTheorem
  import opened KeyTheorem
  import opened OwnerTheorem

  class Service {
    const settings: Settings
    var wallets: map<Id, WalletState>
    var ledger: seq<Posting>
    var calls: map<nat, Call>
    var keys: map<string, Record>
    var clock: int
    ghost var topId: int
    ghost var log: seq<Event>
    ghost var trace: seq<Action>

    constructor (settings: Settings)
      ensures this.settings == settings && Valid() && trace == [] && Value() == INITIAL
    {
      this.settings := settings;
      wallets, ledger, calls, keys, clock := map[], [], map[], map[], 0;
      topId, log, trace := -1, [], [];
    }

    ghost function Value(): State
      reads this
    {
      State(wallets, ledger, calls, keys, clock, topId, log)
    }

    ghost predicate Ready(c: nat, turn: Turn)
      reads this
    {
      Enabled(Value(), Step(c, turn))
    }

    /** What was done to this object is a run of the protocol, and this is where it led. */
    ghost predicate Valid()
      reads this
    {
      IsRun(settings, trace) && Value() == End(settings, trace)
    }

    /** Exactly `a` was done since the method began. */
    twostate predicate Did(a: Action)
      reads this
    {
      Valid() && trace == old(trace) + [a]
    }

    twostate predicate Took(c: nat, turn: Turn)
      reads this
    {
      Did(Step(c, turn))
    }

    /** Closes a method whose assignments amount to `a`. */
    ghost method Log(a: Action, was: State)
      requires IsRun(settings, trace) && was == End(settings, trace) && Enabled(was, a)
      requires Value() == Apply(settings, was, a)
      modifies this`trace
      ensures Valid() && trace == old(trace) + [a]
    {
      assert (trace + [a])[..|trace + [a]| - 1] == trace;
      trace := trace + [a];
    }

    method Resume(c: nat, pc: Pc)
      requires c in calls
      modifies this`calls
      ensures calls == old(calls)[c := old(calls[c]).(pc := pc)]
    {
      calls := calls[c := calls[c].(pc := pc)];
    }

    // ----- the interactor's gates

    method ConsumeRateLimit(c: nat, granted: bool)
      requires Valid() && Ready(c, Limit(granted))
      modifies this
      ensures Took(c, Limit(granted))
    {
      ghost var was := Value();
      calls := calls[c := calls[c].(granted := settings.limitEnabled && granted)];
      if settings.limitEnabled && !granted {
        Resume(c, Done(Rejected(RateLimited)));
      } else {
        Resume(c, Assessing);
      }
      Log(Step(c, Limit(granted)), was);
    }

    method AssessRisk(c: nat, risk: Risk)
      requires Valid() && Ready(c, Assess(risk))
      modifies this
      ensures Took(c, Assess(risk))
    {
      ghost var was := Value();
      calls := calls[c := calls[c].(risk := Some(risk))];
      if risk == Refused {
        Resume(c, Done(Rejected(RiskRefused)));
      } else if risk == Unavailable && !settings.failOpen {
        Resume(c, Done(Rejected(RiskUnavailable)));
      } else {
        Resume(c, Claiming);
      }
      Log(Step(c, Assess(risk)), was);
    }

    // ----- the key

    method ReserveKey(c: nat)
      requires Valid() && Ready(c, Claim)
      modifies this
      ensures Took(c, Claim)
    {
      ghost var was := Value();
      var call := calls[c];
      var next := Locking;
      if call.req.key.Some? {
        var key := settings.scope(call.req.owner, call.req.key.value);
        call := call.(atClaim := Lookup(keys, key), claimedAt := Some(clock));
        if settings.ttl > 0 {
          if key !in keys {
            keys := keys[key := Record(Fingerprint(call.req), None, clock + settings.ttl, c)];
          } else if keys[key].fingerprint != Fingerprint(call.req) {
            next := Done(Rejected(KeyReused));
          } else if keys[key].response.None? {
            next := Done(Rejected(InProgress));
          } else {
            next := FindingEntry(keys[key].response.value);
          }
        }
      }
      calls := calls[c := call.(pc := next)];
      Log(Step(c, Claim), was);
    }

    method ReadReplayedEntry(c: nat)
      requires Valid() && Ready(c, FindEntry)
      modifies this
      ensures Took(c, FindEntry)
    {
      ghost var was := Value();
      var (req, receipt) := (calls[c].req, calls[c].pc.receipt);
      var row := FindById(ledger, receipt.entry);
      if row.Some? && row.value.entry.wallet in wallets && wallets[row.value.entry.wallet].owner == req.owner {
        Resume(c, FindingWallet(Some(row.value.entry)));
      } else {
        Resume(c, FindingWallet(None));
      }
      Log(Step(c, FindEntry), was);
    }

    method ReadReplayedWallet(c: nat)
      requires Valid() && Ready(c, FindWallet)
      modifies this
      ensures Took(c, FindWallet)
    {
      ghost var was := Value();
      var (req, found) := (calls[c].req, calls[c].pc.found);
      if found.None? || req.wallet !in wallets || wallets[req.wallet].owner != req.owner {
        Resume(c, Locking);
      } else {
        Resume(c, EndingReplay(found.value));
      }
      Log(Step(c, FindWallet), was);
    }

    method AnswerReplay(c: nat)
      requires Valid() && Ready(c, EndReplay)
      modifies this
      ensures Took(c, EndReplay)
    {
      ghost var was := Value();
      var original := calls[c].pc.original;
      Resume(c, Done(Settled(original, true, original.balanceAfter)));
      Log(Step(c, EndReplay), was);
    }

    // ----- under the lock

    method EnterLock(c: nat, acquired: bool)
      requires Valid() && Ready(c, TakeLock(acquired))
      modifies this
      ensures Took(c, TakeLock(acquired))
    {
      ghost var was := Value();
      if acquired {
        Resume(c, Reading);
      } else {
        Resume(c, RollingBack(WalletBusy));
      }
      Log(Step(c, TakeLock(acquired)), was);
    }

    method ReadForUpdate(c: nat)
      requires Valid() && Ready(c, ReadWallet)
      modifies this
      ensures Took(c, ReadWallet)
    {
      ghost var was := Value();
      var req := calls[c].req;
      if req.wallet !in wallets || wallets[req.wallet].owner != req.owner {
        Resume(c, RollingBack(WalletNotFound));
      } else {
        Resume(c, Deciding(wallets[req.wallet]));
      }
      Log(Step(c, ReadWallet), was);
    }

    method DecideMovement(c: nat, id: Id, at: int)
      requires Valid() && Ready(c, Decide(id, at))
      modifies this
      ensures Took(c, Decide(id, at))
    {
      ghost var was := Value();
      var (req, snap) := (calls[c].req, calls[c].pc.snap);
      var moved :=
        if req.direction == Credit then Deposited(snap, Worth(req.amount), req.currency, at)
        else Withdrawn(snap, Worth(req.amount), req.currency, at);
      if moved.Err? {
        Resume(c, RollingBack(NotPermitted(moved.error)));
      } else {
        topId := Max(topId, id);
        Resume(c, Inserting(snap, moved.value, EntryFor(req, id, moved.value, at)));
      }
      Log(Step(c, Decide(id, at)), was);
    }

    method AddEntry(c: nat)
      requires Valid() && Ready(c, InsertEntry)
      modifies this
      ensures Took(c, InsertEntry)
    {
      ghost var was := Value();
      var pc := calls[c].pc;
      Resume(c, Updating(pc.snap, pc.next, pc.entry));
      Log(Step(c, InsertEntry), was);
    }

    /** UPDATE ... WHERE version = expected; the row count decides. */
    method UpdateVersioned(c: nat)
      requires Valid() && Ready(c, UpdateWallet)
      modifies this
      ensures Took(c, UpdateWallet)
    {
      ghost var was := Value();
      var (req, pc) := (calls[c].req, calls[c].pc);
      var expected := pc.snap.version;
      if req.wallet in wallets && wallets[req.wallet].version == expected {
        Resume(c, Committing(pc.snap, pc.next, pc.entry));
      } else {
        Resume(c, RollingBack(VersionConflict));
      }
      Log(Step(c, UpdateWallet), was);
    }

    /** The staged row and the staged entry become visible together. */
    method CommitTransaction(c: nat)
      requires Valid() && Ready(c, Commit)
      modifies this
      ensures Took(c, Commit)
    {
      ghost var was := Value();
      var (req, pc) := (calls[c].req, calls[c].pc);
      wallets := wallets[req.wallet := pc.next];
      ledger := ledger + [Posting(pc.entry, c)];
      if req.key.None? {
        Resume(c, Done(Settled(pc.entry, false, pc.next.cents)));
      } else {
        log := log + [Posted(settings.scope(req.owner, req.key.value), pc.entry.id)];
        Resume(c, ConfirmReading(pc.entry));
      }
      Log(Step(c, Commit), was);
    }

    // ----- the receipt, or the way back

    method GetForConfirm(c: nat)
      requires Valid() && Ready(c, ConfirmRead)
      modifies this
      ensures Took(c, ConfirmRead)
    {
      ghost var was := Value();
      var (req, entry) := (calls[c].req, calls[c].pc.entry);
      var key := KeyOf(settings, req);
      if settings.ttl > 0 && key.Some? && key.value in keys {
        Resume(c, ConfirmWriting(entry, keys[key.value]));
      } else {
        Resume(c, Done(Settled(entry, false, entry.balanceAfter)));
      }
      Log(Step(c, ConfirmRead), was);
    }

    method SetConfirmed(c: nat)
      requires Valid() && Ready(c, ConfirmWrite)
      modifies this
      ensures Took(c, ConfirmWrite)
    {
      ghost var was := Value();
      var (req, entry, seen) := (calls[c].req, calls[c].pc.entry, calls[c].pc.seen);
      if req.key.Some? {
        var key := settings.scope(req.owner, req.key.value);
        var receipt := Receipt(entry.id, entry.wallet);
        keys := keys[key := seen.(response := Some(receipt), expiresAt := clock + settings.ttl)];
      }
      Resume(c, Done(Settled(entry, false, entry.balanceAfter)));
      Log(Step(c, ConfirmWrite), was);
    }

    /** A store that cannot confirm never fails a caller whose money has moved. */
    method SwallowConfirmFailure(c: nat)
      requires Valid() && Ready(c, ConfirmFail)
      modifies this
      ensures Took(c, ConfirmFail)
    {
      ghost var was := Value();
      var entry := calls[c].pc.entry;
      Resume(c, Done(Settled(entry, false, entry.balanceAfter)));
      Log(Step(c, ConfirmFail), was);
    }

    method RollBack(c: nat)
      requires Valid() && Ready(c, Rollback)
      modifies this
      ensures Took(c, Rollback)
    {
      ghost var was := Value();
      Resume(c, Releasing(calls[c].pc.why));
      Log(Step(c, Rollback), was);
    }

    method ReleaseKey(c: nat)
      requires Valid() && Ready(c, Release)
      modifies this
      ensures Took(c, Release)
    {
      ghost var was := Value();
      var req := calls[c].req;
      if req.key.Some? {
        var key := settings.scope(req.owner, req.key.value);
        if key in keys && keys[key].response.None? {
          keys := keys - {key};
        }
      }
      Resume(c, Done(Rejected(calls[c].pc.why)));
      Log(Step(c, Release), was);
    }

    // ----- everything else that happens

    method BeginCall(c: nat, req: Request)
      requires Valid() && c !in calls
      modifies this
      ensures Did(Begin(c, req))
    {
      ghost var was := Value();
      calls := calls[c := Call(req, Limiting, false, None, None, None)];
      Log(Begin(c, req), was);
    }

    method CrashCall(c: nat)
      requires Valid() && Ready(c, Crash)
      modifies this
      ensures Took(c, Crash)
    {
      ghost var was := Value();
      Resume(c, Crashed);
      Log(Step(c, Crash), was);
    }

    method AddWallet(w: Id, owner: Id, currency: string, at: int)
      requires Valid() && w !in wallets
      modifies this
      ensures Did(OpenWallet(w, owner, currency, at))
    {
      ghost var was := Value();
      wallets := wallets[w := Opened(owner, currency, at)];
      Log(OpenWallet(w, owner, currency, at), was);
    }

    method ShutWallet(w: Id, at: int)
      requires Valid() && Enabled(Value(), CloseWallet(w, at))
      modifies this
      ensures Did(CloseWallet(w, at))
    {
      ghost var was := Value();
      wallets := wallets[w := ClosedAt(wallets[w], at).value];
      Log(CloseWallet(w, at), was);
    }

    /** Time passes and the store forgets what has run out. */
    method ExpireKeys(dt: nat)
      requires Valid()
      modifies this
      ensures Did(Tick(dt))
    {
      ghost var was := Value();
      log := log + [Expired(Due(was, dt))];
      clock := clock + dt;
      keys := map k | k in keys && keys[k].expiresAt > clock :: keys[k];
      Log(Tick(dt), was);
    }

    // ----- what therefore holds of the object, whoever called which method in which order

    /** Its wallets are the sums of its ledger. */
    lemma BooksReconcile(w: Id)
      requires Valid() && w in wallets
      ensures var (row, es) := (wallets[w], EntriesOf(ledger, w));
              && row.cents == Balance(es)
              && 0 <= row.cents <= MAX_CENTS
              && row.version == |es| + (if row.status == Closed then 1 else 0)
              && forall i :: 0 <= i < |es| ==> es[i].balanceAfter == Balance(es[..i + 1])
    {
      EveryRunReconciles(settings, trace, w);
    }

    /** Every entry in its ledger was let through by the limiter and the risk decision of its own call. */
    lemma EntriesAreVetted(p: Posting)
      requires Valid() && p in ledger
      ensures p.call in calls && Vetted(settings, calls[p.call])
      ensures forall q :: q in ledger && q.call == p.call ==> q == p
    {
      EntriesWerePermitted(settings, trace, p);
    }

    /** If its records outlived their calls, a finished movement reports the one entry it made or replayed. */
    lemma AnswersAreReceipts(c: nat)
      requires Valid() && RecordsOutliveCalls(settings, trace) && settings.ttl > 0
      requires c in calls && calls[c].pc.Done? && calls[c].pc.answer.Settled?
      ensures var answer := calls[c].pc.answer;
              && answer.balance == answer.entry.balanceAfter && Matches(answer.entry, Fingerprint(calls[c].req))
              && exists p :: p in ledger && p.entry == answer.entry
    {
      AnswersReportTheOriginal(settings, trace, c);
    }
  }
}
