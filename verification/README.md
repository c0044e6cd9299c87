# Evenkeel, proved

A Dafny model of a wallet service: owners hold wallets, a deposit or a withdrawal moves
money, and every movement leaves one immutable ledger entry. The service is written to
survive concurrency, retries, crashes and slow dependencies, and the proofs are about
exactly that. `dafny verify dfyconfig.toml` checks everything.

## What is modelled

**Money and the wallet.** `Money.dfy` models Python's `Decimal` (sign, coefficient,
exponent, 28-digit rounding, overflow trap) and shows that none of it can be observed:
on `Money` values every operation is integer-cent arithmetic. `Wallet.dfy` is the mutable
aggregate over that money, tied method by method to a state in cents.

**The movement protocol.** `Movement.dfy` is a step system: any number of calls of
`_run` and `apply`, each with a program counter, interleaved at every await. The
environment opens and closes wallets, lets time pass and keys expire, makes `confirm`
fail and crashes calls anywhere. The distributed lock may grant to everyone and
`FOR UPDATE` locks nothing, so the theorems rest on the version predicate of UPDATE, as
the service claims. PostgreSQL is READ COMMITTED: reads see committed rows, a matched
UPDATE keeps its row until its transaction ends, an INSERT waits for its primary key. A
run is a sequence of actions, each enabled where it happens. `LedgerTheorem`, `IdTheorem`,
`KeyTheorem` and `OwnerTheorem` hold what every run keeps, `AnswerTheorem` why each call got
its answer, and `SoloTheorem` exactly what a call does that nobody disturbs, up to a movement
and its retry. `KeyLimits` and `DrawLimits` say how far these reach, with runs put together
from the parts in `Scenes`. Some fields exist only as history: what a call was told on its
way, who posted an entry, who reserved a record, when a call claimed its key, and the log of postings and expiries. `MovementService.dfy` is the same service as an
object changed in place: one method per await and per thing the environment does, with a
ghost trace. A valid object is where its trace leads, whoever called what in which order,
so the run theorems are theorems about the object.

**Lease and window adapters.** `Idempotency.dfy`, `Bulkhead.dfy`, `RateLimiter.dfy` and
`Locks.dfy` each hold two implementations of one port, a dictionary per process and
scripts over Redis keys, as classes tied to step functions, and compare them over all
histories; `IdempotencyLife.dfy` follows one record from its claim to its expiry. Entry loops
that wait are modelled whole: other callers act between two passes. A Redis key given an expiry of `d` at `t` exists up to and including the tick `t + d`; the
dictionaries forget at `t + d`. On that last tick the two may differ, and the comparisons say
so: they leave it out, count it in, or say exactly what it costs.

**The signing-key cache.** `Jwks.dfy`: time to live, refresh floor, grace ceiling, failure
flag, and a fast path that skips the lock, under any number of interleaved calls with
cancellation; and the filter and first-wins loop of a fetch. `JwksAnswers.dfy` says exactly
what each call is told.

**The outbound call.** `Transport.dfy` is the retry loop with its deadline, the attempt and
the capped read of a stream cut into arbitrary pieces; `RetryTheorem.dfy` says from the outside
which attempts it makes and whose answer it gives. `Outbound.dfy` puts the loop in its
bulkhead lease, bounds the calls in flight and reads the risk provider's answer.

**Paging.** `Cursor.dfy` is URL-safe base64 (section 5 of RFC 4648) with Python's lenient
decoder; `Pagination.dfy` follows cursors through a table that grows.

## Hypotheses, and where the code falls short

Where the code promises less than one might read into it, a lemma gives an input that shows
it, and another says exactly when the promise holds, in terms a deployment can check.

* **Key uniqueness.** The store's `confirm` and `release` carry no ownership token. Uniqueness
  is proved for runs in which no record expires while the call that reserved it is still
  running (`RecordsOutliveCalls`). If calls are known to end within some number of ticks of
  their claim, keys protect in all runs if and only if they are kept that long
  (`KeysProtectIffLifetimeCoversCalls`); the failing runs are `ExpiryUnderARunningCall` and,
  with a lifetime of zero, where `reserve` claims nothing, `SameRequestTwice`. The lifetime is
  the number of ticks for which the store keeps a record: the configured one in memory, one
  tick more in Redis.
* **Id order.** UUIDv7 is chosen so that id order is version order, but does not promise it
  across processes. In all runs that draw from a given generator, id order is version order, and
  every listing is in reverse commit order, if and only if the generator never goes down
  (`KeepsOrderIff`, `KeepsListingsIff`): a call that dies after its draw burns it, so any two
  draws can end up next to each other in one wallet. `DecreasingDrawsReverseTheOrder` is an
  instance.
* **The in-memory lock.** Its exit asks whether the mutex is locked, not by whom. The comment
  at `src/evenkeel/infrastructure/adapters/memory/locking.py:81-83` says this keeps a late
  exit from freeing somebody else's lock; it does not (`LateExitLetsTwoIn`). `ExitIsSafeIff`
  says when an exit is safe. Handles are never inside together if and only if leases last as long
  as the longest stay (`MemoryExcludesIff`), and even leases that are running exclude each other
  in all runs only then, or if none ever runs (`MemoryKeepsLeasesExclusiveIff`). In Redis running
  leases exclude each other in every run, late exits included (`RedisExclusion`).
* **The Redis bulkhead.** One expiry on the whole key lets a shorter lease drop a longer one
  (`ShorterLeaseOverrunsRedis`). For leases of given lengths Redis keeps a limit, and agrees
  with memory, if and only if the limit is at most one or no lease outlasts a key given any of
  the lengths, which lasts one tick longer than the length, or not at all if that is not
  positive (`RedisStaysWithinIff`, `AlwaysAgreeIff`).
* **The last tick of a Redis key.** A rate limit's counter is still there on the tick at which
  memory starts a new window. So Redis can start its own window later and let through what
  memory refuses: never in any history if and only if nothing fits the limit or windows are one
  tick or less (`RedisAlwaysGrantsFewerIff`). A refused caller is let in by memory once
  `retry_after_seconds` have passed, by Redis a tick later (`RetryAfterIsExact`). An idempotency
  key is claimed alike in both stores except on the last tick of its record
  (`NextClaimAgreesIff`, `LastTickIsNotFree`).
* **JWKS and its fast path.** A key past its time to live is served without the lock, at any
  age, exactly while a fetch is in flight (`FastPathIgnoresTheCeiling`,
  `FastPathServesOldKeysIff`).
* **JWKS and cancellation.** A cancelled fetch throttles but leaves the failure flag alone.
  With cancellations allowed, "no such key" is definitive exactly once some attempt has
  finished (`NoSuchKeyIsDefinitiveIff`), and a cancelled refetch lets the holder of the lock
  return a key of any age (`CancelledRefetchServesAnyAge`). Both promises hold in all runs if
  and only if there is no refresh floor (`AlwaysDefinitiveIff`, `AlwaysFreshIff`); without
  cancellations they hold for every policy.
* **JWKS and revocation.** The comment at
  `src/evenkeel/infrastructure/adapters/jwt/keys.py:146-155` says that only an explicitly
  empty list revokes. A delivered set withdraws every id exactly when no usable signing key
  in it has a non-empty string id (`WithdrawsAllIff`): also when `use` filters everything out,
  and when the usable keys come without ids, or with numbers for ids (`KeyWithoutIdRevokesAll`).
* **The release script.** It searches the stored text for a quoted word. Off the last ticks of
  records the stores agree on all histories over a set of fingerprints if and only if that word
  is not one of them (`AdaptersAgreeIff`); hexadecimal digests are not.
* **Calls in flight.** They are bounded in all traffic if and only if the longest loop a policy
  allows, the smaller of its budget and its attempts at their timeout with the longest
  backoff between them, ends before its lease does (`BoundsInFlightIff`). A budget inside the
  lease is enough; `ShortLeaseLetsTwoRun` is an instance of the other side.

## Model

| member | source | states |
|---|---|---|
| Decimals.AddIsExact | src/evenkeel/domain/value_objects/money.py:80-86 | decimal addition under the 28-digit context is exact on values below 10^20 cents |
| Decimals.LessIsExact | src/evenkeel/domain/value_objects/money.py:88-90 | decimal comparison is comparison of cents, whatever the exponents |
| Moneys.CheckBounds | src/evenkeel/domain/value_objects/money.py:41-59 | the constructor accepts exactly the finite two-place amounts of at most MONEY_MAX: rounding inside `abs` never lets one through and never refuses one |
| Moneys.MakeFromCents | src/evenkeel/domain/value_objects/money.py:41-59 | an exact sum is accepted when in range and refused as out of range otherwise, never anything else |
| Moneys.PlusIsExact | src/evenkeel/domain/value_objects/money.py:80-82 | a sum of two Money values is worth the sum of their cents, and is refused exactly on other currencies or out of range |
| Moneys.MinusIsExact | src/evenkeel/domain/value_objects/money.py:84-86 | the same for differences |
| Moneys.ComparisonsAreExact | src/evenkeel/domain/value_objects/money.py:72-93 | `<`, `require_positive` and `is_zero` decide on cents |
| Wallets.Wallet.Load | src/evenkeel/domain/entities/wallet.py:24-53 | a row is refused exactly when its balance is negative, and otherwise loaded as it is |
| Wallets.Wallet.Deposit | src/evenkeel/domain/entities/wallet.py:92-97 | exactly which deposits are accepted and what they leave in every field; otherwise no field changed, and why |
| Wallets.Wallet.Withdraw | src/evenkeel/domain/entities/wallet.py:99-113 | the same for a withdrawal: any amount up to the whole balance |
| Wallets.Wallet.CloseWallet | src/evenkeel/domain/entities/wallet.py:115-123 | the same for closing: exactly the open and empty wallets |
| Wallets.CreditedIsExact | src/evenkeel/domain/entities/wallet.py:92-97 | a deposit over Decimal money agrees with integer cents, errors included |
| Wallets.DebitedIsExact | src/evenkeel/domain/entities/wallet.py:99-113 | a withdrawal over Decimal money agrees with integer cents, errors included |
| Wallets.WithdrawnIff | src/evenkeel/domain/entities/wallet.py:99-113 | a withdrawal is accepted exactly when the wallet is open, the amount is positive, at most the balance and in its currency; each refusal has its exact reason |
| Wallets.DepositedIff | src/evenkeel/domain/entities/wallet.py:92-97 | the same for deposits, which may fill the wallet up to MONEY_MAX |
| Wallets.ClosedIff | src/evenkeel/domain/entities/wallet.py:115-123 | a wallet closes exactly when it is open and empty |
| Wallets.CanBeEmptiedAndClosed | src/evenkeel/domain/entities/wallet.py:99-123 | every open wallet with money in it can be emptied by one withdrawal and then closed |
| Wallets.CanBeFilled | src/evenkeel/domain/entities/wallet.py:92-97 | every open wallet can be filled up to MONEY_MAX by one deposit |
| Wallets.OperationsConserveMoney | src/evenkeel/domain/entities/wallet.py:92-124 | over any sequence of operations the balance moves by exactly the accepted ones, the version counts them and 0 <= balance <= MONEY_MAX holds |
| Wallets.ClosedIsFinal | src/evenkeel/domain/entities/wallet.py:115-124 | a closed wallet refuses everything for ever |
| Identity.UuidTextInjective | src/evenkeel/application/services/wallet_movement.py:193-210 | two ids with one text are one id |
| Identity.ScopedKeyInjective | src/evenkeel/application/services/wallet_movement.py:193-210 | no string a client chooses reaches another owner's key |
| MovementService.Service.ConsumeRateLimit | src/evenkeel/application/interactors/wallets/move_money.py:107-125 | is the limiter step of the protocol: a denial ends the call |
| MovementService.Service.AssessRisk | src/evenkeel/application/interactors/wallets/move_money.py:137-157 | is the risk step: refused, unavailable and fail-open part here |
| MovementService.Service.ReserveKey | src/evenkeel/application/services/wallet_movement.py:212-240 | is the claim step: reserve an absent key or explain what has it |
| MovementService.Service.ReadReplayedEntry | src/evenkeel/infrastructure/adapters/sqla/ledger_repository.py:47-60 | is the owner-joined read of the replayed entry |
| MovementService.Service.ReadReplayedWallet | src/evenkeel/application/services/wallet_movement.py:244-249 | is the wallet read of a replay, with the fall-through to applying again |
| MovementService.Service.AnswerReplay | src/evenkeel/application/services/wallet_movement.py:250-253 | is the answer of a replay: the entry and the balance it was written with |
| MovementService.Service.EnterLock | src/evenkeel/application/services/wallet_movement.py:117-134 | is the lock step, on whatever the lock answers |
| MovementService.Service.ReadForUpdate | src/evenkeel/infrastructure/adapters/sqla/wallet_repository.py:41-56 | is the owner-filtered read of the committed row |
| MovementService.Service.DecideMovement | src/evenkeel/application/services/wallet_movement.py:150-175 | is the decision on the local copy and the entry recorded from it |
| MovementService.Service.AddEntry | src/evenkeel/infrastructure/adapters/sqla/ledger_repository.py:33-45 | is the staged insert of the entry |
| MovementService.Service.UpdateVersioned | src/evenkeel/infrastructure/adapters/sqla/wallet_repository.py:81-93 | is the conditional update: it matches only the version that was read |
| MovementService.Service.CommitTransaction | src/evenkeel/application/services/wallet_movement.py:187-191 | is the commit: row and entry appear together |
| MovementService.Service.GetForConfirm | src/evenkeel/infrastructure/adapters/redis/idempotency.py:85-97 | is the read half of `confirm` |
| MovementService.Service.SetConfirmed | src/evenkeel/infrastructure/adapters/redis/idempotency.py:97-101 | is the write half of `confirm` |
| MovementService.Service.SwallowConfirmFailure | src/evenkeel/application/services/wallet_movement.py:278-303 | is a failed `confirm`: the caller still gets its answer |
| MovementService.Service.RollBack | src/evenkeel/application/services/wallet_movement.py:142-148 | is the rollback of every refusal |
| MovementService.Service.ReleaseKey | src/evenkeel/application/services/wallet_movement.py:316-319 | is the release: only what is still a reservation is given back |
| MovementService.Service.BeginCall | src/evenkeel/application/interactors/wallets/move_money.py:95-105 | a new call starts at the limiter, with nothing claimed |
| MovementService.Service.AddWallet | src/evenkeel/domain/entities/wallet.py:55-75 | a wallet appears at once, empty and at version 0 |
| MovementService.Service.ShutWallet | src/evenkeel/domain/entities/wallet.py:115-123 | a closing wallet commits at once, if it may close and no transaction holds its row |
| MovementService.Service.CrashCall | src/evenkeel/application/services/wallet_movement.py:99-191 | a call can die at any await, leaving what it committed and what it claimed |
| MovementService.Service.ExpireKeys | src/evenkeel/infrastructure/adapters/memory/idempotency.py:83-90 | time passes and exactly the records that have run out are gone |
| MovementService.Service.BooksReconcile | src/evenkeel/application/services/wallet_movement.py:136-191 | in every valid object, whatever was called in which order, wallets are the sums of their entries |
| MovementService.Service.EntriesAreVetted | src/evenkeel/application/interactors/wallets/move_money.py:104-168 | in every valid object each entry was permitted in its own call, and no call has two |
| MovementService.Service.AnswersAreReceipts | src/evenkeel/application/services/wallet_movement.py:187-191 | in every valid object whose records outlived their calls, a settled answer is a committed entry with its own balance |
| LedgerTheorem.EveryRunReconciles | src/evenkeel/application/services/wallet_movement.py:136-191 | in every reachable state each balance is credits minus debits and within [0, MONEY_MAX], each `balance_after` is a prefix sum, and the version counts the entries (plus one if closed) |
| LedgerTheorem.StepKeepsInv | src/evenkeel/infrastructure/adapters/sqla/wallet_repository.py:81-93 | every step of every call and of the environment keeps it, by the version predicate alone |
| LedgerTheorem.PostingReconciles | src/evenkeel/application/services/wallet_movement.py:167-187 | a commit on an unmoved row keeps row and entries reconciled |
| LedgerTheorem.RunningBalanceAt | src/evenkeel/domain/entities/ledger_entry.py:41-61 | the i-th entry carries the i-th prefix sum |
| LedgerTheorem.EveryEntryHasItsWallet | src/evenkeel/application/services/wallet_movement.py:167-187 | no committed entry is without its wallet |
| IdTheorem.RunsKeepDistinct | src/evenkeel/infrastructure/adapters/sqla/ledger_repository.py:33-45 | committed ids are distinct in every run |
| IdTheorem.FindByIdFinds | src/evenkeel/infrastructure/adapters/sqla/ledger_repository.py:47-60 | reading a committed entry by its id finds that entry |
| IdTheorem.IdOrderIsVersionOrder | src/evenkeel/application/services/wallet_movement.py:150-187 | if no draw is below an earlier one, one wallet's id order is its commit order, under every interleaving |
| KeyTheorem.RunsKeepKeyInv | src/evenkeel/application/services/wallet_movement.py:99-134 | in every run under the hypothesis, a call past its claim holds its record, records belong to their calls and receipts to their entries |
| KeyTheorem.EntriesUnderOneKeyAreSeparated | src/evenkeel/application/services/wallet_movement.py:99-134 | two committed entries under one scoped key are separated by an expiry of that key |
| KeyTheorem.CompletedRecordsPointAtEntries | src/evenkeel/application/services/wallet_movement.py:255-286 | a completed record points at a committed entry of the same owner, key and payload |
| KeyTheorem.AnswersReportTheOriginal | src/evenkeel/application/services/wallet_movement.py:239-253 | every answer, replayed or not, is that one entry with the balance it was written with |
| KeyTheorem.FallThroughIsUnreachable | src/evenkeel/application/services/wallet_movement.py:245-249 | the branch that applies a replayed movement again is never taken |
| KeyLimits.SameRequestTwice | src/evenkeel/infrastructure/adapters/memory/idempotency.py:39-43 | with a non-positive lifetime, one request sent twice posts twice, under any two ids |
| KeyLimits.KeysProtectIffTtlIsPositive | src/evenkeel/application/services/wallet_movement.py:212-223 | postings under a key are separated in all runs if and only if the lifetime is positive |
| KeyLimits.ExpiryUnderARunningCall | src/evenkeel/application/services/wallet_movement.py:99-134 | whatever the positive lifetime, an expiry under a running call lets one key post twice: a concrete run |
| KeyLimits.KeysProtectIffLifetimeCoversCalls | src/evenkeel/application/services/wallet_movement.py:99-134 | if every call ends within `limit` ticks of its claim, postings under a key are separated in all runs if and only if the lifetime is positive and at least `limit` |
| KeyLimits.LifetimeCoversCalls | src/evenkeel/application/services/wallet_movement.py:212-223 | a lifetime as long as the longest call means no record expires under its call |
| DrawLimits.KeepsOrderIff | src/evenkeel/application/services/wallet_movement.py:150-187 | for every id generator: in all runs that draw from it each wallet's id order is its commit order if and only if the generator never goes down |
| DrawLimits.RisingDrawsNeverFall | src/evenkeel/application/services/wallet_movement.py:167-175 | in a run that draws from a generator that never goes down, no draw is below an earlier one |
| DrawLimits.PostsTwo | src/evenkeel/application/services/wallet_movement.py:167-187 | any two draws of any generator can become the only two entries of a wallet, because the draws before and between them can be lost in crashes |
| DrawLimits.DecreasingDrawsReverseTheOrder | src/evenkeel/application/services/wallet_movement.py:167-175 | an instance: a run that draws the larger id first lists the wallet's entries against their commit order |
| OwnerTheorem.DeployedScopeIsInjective | src/evenkeel/application/services/wallet_movement.py:193-210 | the key the code builds meets the hypothesis of isolation |
| OwnerTheorem.OthersCannotTouch | src/evenkeel/application/services/wallet_movement.py:136-148 | whatever is done for other owners, an owner's wallets and entries stay as they were, and its key records until they expire |
| OwnerTheorem.EntriesWerePermitted | src/evenkeel/application/interactors/wallets/move_money.py:104-168 | every entry's own call had a limiter grant (when enabled) and ALLOWED, or UNAVAILABLE with fail-open; no call commits twice |
| OwnerTheorem.RefusedCallsMovedNothing | src/evenkeel/application/interactors/wallets/move_money.py:104-181 | no step of a refused call changed a committed wallet or the ledger |
| OwnerTheorem.StepCannotTouch | src/evenkeel/application/services/wallet_movement.py:136-148 | no single step for another owner touches them |
| OwnerTheorem.RefusalsRestoreTheKey | src/evenkeel/application/services/wallet_movement.py:316-319 | the refusing step leaves the call's key as its claim found it and every other key alone |
| AnswerTheorem.EarlyRefusalsAreExplained | src/evenkeel/application/interactors/wallets/move_money.py:104-157 | in every run a finished call was rate limited, refused by risk, unavailable, told its key is reused or in progress, each if and only if it met that reason on its way |
| AnswerTheorem.GatesOpenIff | src/evenkeel/application/interactors/wallets/move_money.py:107-157 | a call passes the limiter exactly when it is off or grants, and the assessment exactly when it allows or is unavailable under fail-open |
| AnswerTheorem.ClaimIsToldIff | src/evenkeel/application/services/wallet_movement.py:212-240 | a claim goes on, conflicts, is in progress or starts a replay exactly by the record it finds, and reserves exactly an absent key |
| AnswerTheorem.ReplaysAreExplained | src/evenkeel/application/services/wallet_movement.py:239-253 | in every run in which records outlive calls, a finished call was a replay if and only if it found its payload with a response, and then of the entry that response names; any other settled answer is its own posting |
| SoloTheorem.SoloMoves | src/evenkeel/application/services/wallet_movement.py:136-191 | a permitted movement that nobody disturbs moves exactly its row by exactly its amount and leaves exactly one entry, field by field |
| SoloTheorem.SoloIsRefused | src/evenkeel/application/services/wallet_movement.py:117-175 | one that meets an obstacle is refused for that obstacle (busy lock, no such wallet for this owner, the first objection of the wallet), moves nothing and gives its reservation back |
| SoloTheorem.MovedIff | src/evenkeel/domain/entities/wallet.py:92-113 | which movements a row permits, what they make of it, and the first objection to the others |
| SoloTheorem.SoloConfirms | src/evenkeel/application/services/wallet_movement.py:278-303 | a confirmation writes the receipt into the record that is there and renews its lifetime |
| SoloTheorem.SoloConfirmsNothing | src/evenkeel/application/services/wallet_movement.py:278-303 | a confirmation that fails or finds nothing changes nothing, and the caller is still answered with its entry |
| SoloTheorem.UpdateMatchesIff | src/evenkeel/infrastructure/adapters/sqla/wallet_repository.py:81-93 | in every run the conditional update matches exactly if the row is still the one that was read |
| SoloTheorem.CompletedKeysAreReplayed | src/evenkeel/application/services/wallet_movement.py:239-253 | in every run in which records outlive calls, a call whose key is completed for its payload can go by claim, two reads and the end of a replay to the committed entry the receipt names, changing nothing |
| SoloTheorem.RetriesAreReplayed | src/evenkeel/application/services/wallet_movement.py:99-134 | end to end: a keyed movement settles and its retry is answered with the same entry and balance; the wallet moved once |
| SoloTheorem.StripTrims | src/evenkeel/domain/entities/ledger_entry.py:41-61 | a description loses the white space at its ends and nothing else |
| Idempotency.InMemoryIdempotencyStore.Look | src/evenkeel/infrastructure/adapters/memory/idempotency.py:83-90 | finds the live entry and drops an expired one |
| Idempotency.InMemoryIdempotencyStore.Claim | src/evenkeel/infrastructure/adapters/memory/idempotency.py:36-63 | answers and updates the dictionary as the reserve operation |
| Idempotency.InMemoryIdempotencyStore.Attach | src/evenkeel/infrastructure/adapters/memory/idempotency.py:65-74 | the same for confirm |
| Idempotency.InMemoryIdempotencyStore.GiveBack | src/evenkeel/infrastructure/adapters/memory/idempotency.py:76-81 | the same for release |
| Idempotency.RedisIdempotencyStore.EvalReserve | src/evenkeel/infrastructure/adapters/redis/idempotency.py:20-27 | claims an absent key or reports the text that is there |
| Idempotency.RedisIdempotencyStore.EvalRelease | src/evenkeel/infrastructure/adapters/redis/idempotency.py:31-40 | deletes the key exactly when its text lacks the quoted word |
| Idempotency.RedisIdempotencyStore.Claim | src/evenkeel/infrastructure/adapters/redis/idempotency.py:54-83 | answers from the stored text |
| Idempotency.RedisIdempotencyStore.Attach | src/evenkeel/infrastructure/adapters/redis/idempotency.py:85-101 | rewrites the text with the response, does nothing for an absent key, and raises exactly when the text does not parse |
| Idempotency.RedisIdempotencyStore.GiveBack | src/evenkeel/infrastructure/adapters/redis/idempotency.py:103-105 | releases through the script |
| Idempotency.LoadUndoesDump | src/evenkeel/infrastructure/adapters/redis/idempotency.py:62-83 | reading the stored text gives back the record that was written |
| Idempotency.FindsResponseIff | src/evenkeel/infrastructure/adapters/redis/idempotency.py:31-40 | the search hits exactly the completed records, and a claim whose fingerprint is that word |
| Idempotency.AdaptersAgree | src/evenkeel/infrastructure/adapters/redis/idempotency.py:20-105 | for hexadecimal fingerprints every sequential history off the last ticks of records gets the same outcomes from both stores |
| Idempotency.AdaptersAgreeIff | src/evenkeel/infrastructure/adapters/redis/idempotency.py:20-105 | over a set of plain fingerprints the stores agree on all histories off the last ticks if and only if the searched word is not in it |
| Idempotency.NextClaimAgreesIff | src/evenkeel/infrastructure/adapters/redis/idempotency.py:20-83 | from stores in step, after any history off the last ticks, one more claim is answered alike if and only if it is not on the last tick of a record of its key, or has no lifetime |
| Idempotency.LastTickIsNotFree | src/evenkeel/infrastructure/adapters/redis/idempotency.py:20-27 | a second claim on the last tick of the first is answered differently, whatever the fingerprint and the lifetime |
| Idempotency.WordResponseIsNeverReleased | src/evenkeel/infrastructure/adapters/redis/idempotency.py:31-40 | without that hypothesis they part: a concrete history |
| IdempotencyLife.ClaimIsToldIff | src/evenkeel/infrastructure/adapters/memory/idempotency.py:36-63 | each answer to a claim, exactly by the unexpired record of its key |
| IdempotencyLife.ReservedKeysAreHeld | src/evenkeel/infrastructure/adapters/memory/idempotency.py:36-63 | for its lifetime a reserved key is in progress for its payload and a conflict for any other, whatever is done under other keys |
| IdempotencyLife.ConfirmedKeysAreAnswered | src/evenkeel/infrastructure/adapters/memory/idempotency.py:65-74 | for another lifetime a confirmed key is answered with its response |
| IdempotencyLife.LateConfirmationsAreLost | src/evenkeel/infrastructure/adapters/memory/idempotency.py:65-74 | a confirmation does not bring an expired record back |
| IdempotencyLife.ReleasesFreeReservationsOnly | src/evenkeel/infrastructure/adapters/memory/idempotency.py:76-81 | a release frees a reservation and spares a completed record |
| IdempotencyLife.WithoutLifetimeNothingIsStored | src/evenkeel/infrastructure/adapters/memory/idempotency.py:39-43 | without a lifetime every claim is granted and neither store keeps anything |
| Bulkhead.Occupancy.TryAdd | src/evenkeel/infrastructure/adapters/memory/bulkhead.py:52-60 | reaps, counts and adds; grants exactly below the limit |
| Bulkhead.Occupancy.Remove | src/evenkeel/infrastructure/adapters/memory/bulkhead.py:62-63 | removes that token's lease and no other |
| Bulkhead.InProcessLease.Enter | src/evenkeel/infrastructure/adapters/memory/bulkhead.py:24-32 | tries after each sleep, on whatever others left; ends with the first pass that is granted or finds the deadline reached, and holds a lease exactly in the first case |
| Bulkhead.InProcessLease.Exit | src/evenkeel/infrastructure/adapters/memory/bulkhead.py:34-43 | gives back only what was granted |
| Bulkhead.RedisBulkhead.EvalAcquire | src/evenkeel/infrastructure/adapters/redis/bulkhead.py:27-37 | the acquire script, whole-key expiry included |
| Bulkhead.RedisBulkhead.EvalRelease | src/evenkeel/infrastructure/adapters/redis/bulkhead.py:39-41 | the release script, by token |
| Bulkhead.RedisLease.Enter | src/evenkeel/infrastructure/adapters/redis/bulkhead.py:56-73 | the same entry loop over the acquire script |
| Bulkhead.RedisLease.Exit | src/evenkeel/infrastructure/adapters/redis/bulkhead.py:75-87 | releases only what was granted |
| Bulkhead.RunsHoldTheSame | src/evenkeel/infrastructure/adapters/redis/bulkhead.py:27-41 | after any history in which no granted lease puts the end of the key before that of a running lease, both hold the same unexpired leases |
| Bulkhead.AdaptersAgree | src/evenkeel/infrastructure/adapters/redis/bulkhead.py:27-41 | with one lease length per name both grant and refuse alike, whatever the limits |
| Bulkhead.MemoryNeverOverruns | src/evenkeel/infrastructure/adapters/memory/bulkhead.py:46-63 | callers never hold more unexpired leases than the limit, counted from the answers alone |
| Bulkhead.GrantedIff | src/evenkeel/infrastructure/adapters/memory/bulkhead.py:46-63 | a caller is let in if and only if fewer than the limit hold unexpired leases, counted from the answers |
| Bulkhead.RedisGrantsIff | src/evenkeel/infrastructure/adapters/redis/bulkhead.py:27-41 | the same for Redis while its key outlives every lease |
| Bulkhead.LeaseIsHeldFor | src/evenkeel/infrastructure/adapters/memory/bulkhead.py:52-60 | a granted lease is held for its length |
| Bulkhead.RedisNeverOverruns | src/evenkeel/infrastructure/adapters/redis/bulkhead.py:27-41 | the same for Redis under the same hypothesis |
| Bulkhead.ShorterLeaseOverrunsRedis | src/evenkeel/infrastructure/adapters/redis/bulkhead.py:35-36 | an instance: with lease lengths of 10 and 1 three callers hold a limit of two |
| Bulkhead.ShorterLengthOverruns | src/evenkeel/infrastructure/adapters/redis/bulkhead.py:27-37 | for every limit of two or more, a length that outlasts a key given another lets callers hold more than the limit |
| Bulkhead.RedisStaysWithinIff | src/evenkeel/infrastructure/adapters/redis/bulkhead.py:27-41 | for given lease lengths Redis keeps a limit in all histories if and only if the limit is at most one or no lease outlasts a key given one of the lengths |
| Bulkhead.AlwaysAgreeIff | src/evenkeel/infrastructure/adapters/redis/bulkhead.py:27-41 | under the same condition, and no other, both adapters answer alike in all histories |
| RateLimiter.InMemoryRateLimiter.Consume | src/evenkeel/infrastructure/adapters/memory/locking.py:117-144 | decides and updates the window of its composite key |
| RateLimiter.RedisRateLimiter.EvalConsume | src/evenkeel/infrastructure/adapters/redis/locking.py:30-37 | INCRBY, the first-use PEXPIRE and PTTL as one step |
| RateLimiter.RedisRateLimiter.Consume | src/evenkeel/infrastructure/adapters/redis/locking.py:114-135 | decides on the counter after the script |
| RateLimiter.AtMostTwiceTheLimit | src/evenkeel/infrastructure/adapters/memory/locking.py:117-144 | for non-negative costs the grants of either limiter in any half-open interval of one window length cost at most twice the limit |
| RateLimiter.TwiceTheLimitIsReached | src/evenkeel/infrastructure/adapters/memory/locking.py:117-144 | for every non-negative limit and every window of at least two ticks the bound is reached in memory |
| RateLimiter.RunsStayInStep | src/evenkeel/infrastructure/adapters/redis/locking.py:30-37 | for positive costs, off the last ticks of counters, both windows end together and Redis has counted at least what memory has used |
| RateLimiter.RedisGrantsFewer | src/evenkeel/infrastructure/adapters/redis/locking.py:114-135 | off the last ticks, what Redis grants memory grants after the same calls |
| RateLimiter.RedisAlwaysGrantsFewerIff | src/evenkeel/infrastructure/adapters/redis/locking.py:114-135 | last ticks included, that holds in all histories if and only if nothing fits the limit or windows are one tick or less |
| RateLimiter.EqualCostsEqualAnswers | src/evenkeel/infrastructure/adapters/redis/locking.py:114-135 | off the last ticks, with equal costs the answers are equal |
| RateLimiter.EqualCostsAlwaysAgreeIff | src/evenkeel/infrastructure/adapters/redis/locking.py:114-135 | last ticks included, that holds in all histories if and only if nothing fits the limit or windows have no length |
| RateLimiter.CountersAccount | src/evenkeel/infrastructure/adapters/redis/locking.py:30-37 | on every tick, the counter accounts for what Redis granted since its window started, and at most the limit was granted in the window length before it |
| RateLimiter.RetryAfterIsExact | src/evenkeel/infrastructure/adapters/memory/locking.py:130-136 | a refused caller that comes back alone, at a cost that fits the limit, is let in by memory exactly from `retry_after_seconds` on, and by Redis exactly after it |
| RateLimiter.RemainingIsExact | src/evenkeel/infrastructure/adapters/memory/locking.py:117-144 | right after a decision either limiter lets through exactly the costs up to `remaining` |
| RateLimiter.CompositeInjective | src/evenkeel/infrastructure/adapters/memory/locking.py:117-144 | callers of one policy never share a window, nor do policies whose names hold no colon |
| Locks.InProcessLock.ReclaimExpired | src/evenkeel/infrastructure/adapters/memory/locking.py:43-48 | unlocks the mutex exactly when its lease has run out |
| Locks.InProcessLock.TryTake | src/evenkeel/infrastructure/adapters/memory/locking.py:68-70 | takes a free mutex and stamps its lease |
| Locks.InProcessLock.Enter | src/evenkeel/infrastructure/adapters/memory/locking.py:43-70 | reclaims an expired lease, then takes the mutex on the first pass that finds it free, or gives up at the deadline |
| Locks.InProcessLock.EnterWithoutWaiting | src/evenkeel/infrastructure/adapters/memory/locking.py:43-70 | reclaim and take with nothing in between |
| Locks.InProcessLock.Leave | src/evenkeel/infrastructure/adapters/memory/locking.py:72-85 | unlocks whatever is locked, if this handle had acquired |
| Locks.MemoryExclusion | src/evenkeel/infrastructure/adapters/memory/locking.py:43-85 | while no exit frees a mutex another has taken, at most one handle holds a running lease, outstayed ones included |
| Locks.PromptHoldersExclude | src/evenkeel/infrastructure/adapters/memory/locking.py:43-85 | handles that exit before their leases end keep each other out |
| Locks.ExitIsSafeIff | src/evenkeel/infrastructure/adapters/memory/locking.py:78-85 | an exit keeps leases exclusive exactly when it does not free the mutex of another whose lease is running |
| Locks.LateExitLetsTwoIn | src/evenkeel/infrastructure/adapters/memory/locking.py:81-85 | a late exit lets two in: a concrete history |
| Locks.MemoryExcludesIff | src/evenkeel/infrastructure/adapters/memory/locking.py:43-85 | if handles stay inside for less than `limit` ticks, no two are inside together in any run if and only if leases last at least that long |
| Locks.MemoryKeepsLeasesExclusiveIff | src/evenkeel/infrastructure/adapters/memory/locking.py:43-85 | and no two are inside on running leases in any run if and only if leases last at least that long or never run |
| Locks.RedisServer.SetNx | src/evenkeel/infrastructure/adapters/redis/locking.py:64-71 | sets an absent key to the token, refuses one that is there, rejects an expiry that is not positive, and touches no other key |
| Locks.RedisServer.EvalRelease | src/evenkeel/infrastructure/adapters/redis/locking.py:20-26 | compare-and-delete, and touches no other key |
| Locks.RedisLock.TryTake | src/evenkeel/infrastructure/adapters/redis/locking.py:65-71 | one SET NX: the key is taken exactly when it was free, and no other key changes |
| Locks.RedisLock.Enter | src/evenkeel/infrastructure/adapters/redis/locking.py:62-74 | tries after each sleep, on whatever others left, until the key is taken or the deadline reached; an invalid expiry is an error at once |
| Locks.RedisLock.Leave | src/evenkeel/infrastructure/adapters/redis/locking.py:76-86 | releases only what was granted, by token, and no other key changes |
| Locks.RedisExclusion | src/evenkeel/infrastructure/adapters/redis/locking.py:62-86 | in every run at most one handle holds a running lease on the key |
| Locks.RedisExcludesIff | src/evenkeel/infrastructure/adapters/redis/locking.py:62-86 | the same for Redis, on a hypothesis about those inside now only: if and only if leases last at least `limit - 1` ticks, since the key outlives its lease by one, or are not positive, so that nobody gets in |
| Locks.LateExitSparesTheNext | src/evenkeel/infrastructure/adapters/redis/locking.py:76-86 | a late exit leaves the next holder's token where it is |
| Locks.ExitLetsTheNextIn | src/evenkeel/infrastructure/adapters/redis/locking.py:76-86 | in both, a holder that exits inside its lease lets the next one in at once |
| Locks.RunningLeaseKeepsOthersOut | src/evenkeel/infrastructure/adapters/memory/locking.py:43-70 | in both, nobody gets in, and nothing changes, while another is inside on a running lease |
| Locks.OutstayedLeaseIsReclaimed | src/evenkeel/infrastructure/adapters/memory/locking.py:43-48 | in both, a newcomer gets the lock of a holder that outstayed its lease |
| Jwks.JwksCache.BeforeLock | src/evenkeel/infrastructure/adapters/jwt/keys.py:59-69 | the fast path, lock test included |
| Jwks.JwksCache.ServeWithinGrace | src/evenkeel/infrastructure/adapters/jwt/keys.py:95-104 | serves a key younger than the ceiling |
| Jwks.JwksCache.Enter | src/evenkeel/infrastructure/adapters/jwt/keys.py:71-86 | the decision under the lock, up to an answer or the start of a fetch |
| Jwks.JwksCache.FetchEnded | src/evenkeel/infrastructure/adapters/jwt/keys.py:84-93 | the end of a fetch, delivered or failed |
| Jwks.ReturnedKeyIsPublished | src/evenkeel/infrastructure/adapters/jwt/keys.py:59-93 | a returned key is in the set most recently delivered at the moment of return |
| Jwks.LockedAnswersAreFresh | src/evenkeel/infrastructure/adapters/jwt/keys.py:71-93 | without cancellations, a key returned inside the lock was just fetched or is younger than max(ttl, min_refresh, max_stale) |
| Jwks.AlwaysFreshIff | src/evenkeel/infrastructure/adapters/jwt/keys.py:76-83 | with cancellations that holds in all runs if and only if there is no refresh floor |
| Jwks.CancelledRefetchServesAnyAge | src/evenkeel/infrastructure/adapters/jwt/keys.py:76-93 | for every age past the ttl and the floor, a run with one cancelled refetch returns a key of that age from inside the lock |
| Jwks.GraceHasACeiling | src/evenkeel/infrastructure/adapters/jwt/keys.py:95-104 | after a failure a served key is younger than max(ttl, max_stale), and than max_stale at the end of a failed fetch |
| Jwks.AtMostOneFetch | src/evenkeel/infrastructure/adapters/jwt/keys.py:71-93 | at most one fetch is in flight, and the lock is held while it is |
| Jwks.AttemptsAreSpaced | src/evenkeel/infrastructure/adapters/jwt/keys.py:76-83 | fetches start at least `min_refresh_seconds` apart, whatever ids are asked for |
| Jwks.NoSuchKeyIsDefinitive | src/evenkeel/infrastructure/adapters/jwt/keys.py:71-93 | without cancellations, `None` is returned only when the last finished attempt succeeded and its set lacks the id |
| Jwks.NoSuchKeyIsDefinitiveIff | src/evenkeel/infrastructure/adapters/jwt/keys.py:71-93 | with cancellations, `None` is definitive exactly when some attempt has finished |
| Jwks.AlwaysDefinitiveIff | src/evenkeel/infrastructure/adapters/jwt/keys.py:76-83 | it is definitive in all runs if and only if there is no refresh floor |
| Jwks.UnavailableMeansFailure | src/evenkeel/infrastructure/adapters/jwt/keys.py:71-104 | "unavailable" is raised only when the last finished attempt failed |
| Jwks.FastPathIsOldOnlyDuringAFetch | src/evenkeel/infrastructure/adapters/jwt/keys.py:64-69 | a key past its time to live leaves by the fast path only during a fetch |
| Jwks.FastPathServesOldKeysIff | src/evenkeel/infrastructure/adapters/jwt/keys.py:64-69 | an id whose set is past its time to live is answered by the fast path if and only if some call is fetching |
| Jwks.FastPathIgnoresTheCeiling | src/evenkeel/infrastructure/adapters/jwt/keys.py:64-69 | at any age, during a fetch, the fast path serves: a run for every age |
| Jwks.CancelledFirstFetchSaysNoSuchKey | src/evenkeel/infrastructure/adapters/jwt/keys.py:76-93 | after a cancelled first fetch a caller is told there is no such key: a concrete run |
| JwksAnswers.AskIsToldIff | src/evenkeel/infrastructure/adapters/jwt/keys.py:64-69 | in every run a caller is answered before the lock exactly when its key is known and fresh, or known while some call is fetching |
| JwksAnswers.EnterIsToldIff | src/evenkeel/infrastructure/adapters/jwt/keys.py:71-83 | under the lock, when exactly a fetch starts, a key is served, "no such key" is said and "unavailable" is raised, in terms of what the provider last did |
| JwksAnswers.FetchIsToldIff | src/evenkeel/infrastructure/adapters/jwt/keys.py:84-104 | at the end of a fetch, the same |
| Jwks.Collect | src/evenkeel/infrastructure/adapters/jwt/keys.py:156-167 | every id maps to its first usable signing key; refused exactly when signing entries exist and none can be built |
| Jwks.Fetch | src/evenkeel/infrastructure/adapters/jwt/keys.py:124-167 | exactly when a response delivers a key set, which, and that it answers no id exactly when no usable signing key has a non-empty string id |
| Jwks.FoundIff | src/evenkeel/infrastructure/adapters/jwt/keys.py:156-167 | an id is delivered exactly when some object with `use` absent or "sig" gives a key with that id |
| Jwks.FoundFirst | src/evenkeel/infrastructure/adapters/jwt/keys.py:161-166 | and then it is the key of the first such entry |
| Jwks.OthersMakeNoDifference | src/evenkeel/infrastructure/adapters/jwt/keys.py:156-160 | entries that are not objects or have any other `use` change no answer and no refusal |
| Jwks.AppendedDuplicatesLose | src/evenkeel/infrastructure/adapters/jwt/keys.py:161-166 | appended entries never change a live key id |
| Jwks.WithdrawsAllIff | src/evenkeel/infrastructure/adapters/jwt/keys.py:144-167 | a set withdraws every id if and only if no usable signing key in it has a non-empty string id |
| Jwks.NothingSigningRevokesAll | src/evenkeel/infrastructure/adapters/jwt/keys.py:144-149 | one such set: no signing entry at all, the empty list included |
| Jwks.KeyWithoutIdRevokesAll | src/evenkeel/infrastructure/adapters/jwt/keys.py:161-166 | another: a usable signing key without an id, or with a number for one |
| Transport.ReadCapped | src/evenkeel/infrastructure/adapters/http/transport.py:361-387 | however the body is cut, the result is its first `limit` bytes |
| Transport.SingleAttempt | src/evenkeel/infrastructure/adapters/http/transport.py:250-331 | the outcome, the Retry-After and the time of one attempt under its timeout |
| Transport.AttemptLoop | src/evenkeel/infrastructure/adapters/http/transport.py:214-248 | the loop ends with the result and at the time of its recursive meaning |
| Transport.AnswersAreClassifiedWhole | src/evenkeel/infrastructure/adapters/http/transport.py:278-316 | status decides before size, and a success is decoded from its whole body or is oversized |
| Transport.BackoffIsBounded | src/evenkeel/infrastructure/adapters/http/transport.py:343-352 | the backoff lies between zero and `backoff_max_ms`, Retry-After included |
| Transport.LoopEndsByDeadline | src/evenkeel/infrastructure/adapters/http/transport.py:214-248 | a loop ends by its deadline, whatever the provider does |
| Transport.LoopLastsAtMost | src/evenkeel/infrastructure/adapters/http/transport.py:214-248 | a loop lasts at most the smaller of its budget and its attempts at their timeout with the longest backoff between them |
| Transport.LongestLoopIsReached | src/evenkeel/infrastructure/adapters/http/transport.py:214-248 | and some provider makes it last exactly that long |
| Transport.BudgetExhaustedIff | src/evenkeel/infrastructure/adapters/http/transport.py:219-224 | "budget exhausted" is the answer exactly of a call that started with no budget |
| Transport.LoopIsExplained | src/evenkeel/infrastructure/adapters/http/transport.py:219-248 | the attempts made, their spacing by backoff, why the loop went on after each and stopped after the last, whose result it returns |
| RetryTheorem.RetriedIff | src/evenkeel/infrastructure/adapters/http/transport.py:47-50 | worth retrying are exactly: no whole answer in time, a stalled or broken connection, 429, and 500 and above |
| RetryTheorem.LoopAnswersWithLast | src/evenkeel/infrastructure/adapters/http/transport.py:214-248 | the result and the end of a loop are those of its last attempt, told from the wires alone: all before it failed in a way that may pass and left time for another |
| RetryTheorem.AttemptsMadeIff | src/evenkeel/infrastructure/adapters/http/transport.py:214-248 | a loop makes `n` attempts if and only if attempt `n` is that last one |
| RetryTheorem.TriedAsTold | src/evenkeel/infrastructure/adapters/http/transport.py:343-352 | the pause is Retry-After up to the maximum, or else the jitter up to a ceiling that doubles |
| RetryTheorem.FirmAnswersEndIt | src/evenkeel/infrastructure/adapters/http/transport.py:278-316 | a redirect, another client error, an oversized, malformed or good answer is never retried |
| RetryTheorem.SecondAttemptRescues | src/evenkeel/infrastructure/adapters/http/transport.py:219-248 | after one passing failure a success in time is the answer |
| Outbound.GuardedPost | src/evenkeel/infrastructure/adapters/http/transport.py:193-212 | refused at the deadline of its wait, or one whole loop from the moment it is let in; the lease is given back either way, and nothing else in the table, whatever others did meanwhile |
| Outbound.RunningCallsHoldLeases | src/evenkeel/infrastructure/adapters/http/transport.py:209-212 | if the longest loop fits, a lease outlives the loop it was taken for |
| Outbound.LoopsInFlightAreBounded | src/evenkeel/infrastructure/adapters/http/transport.py:193-248 | if the longest loop fits inside the lease, at most `bulkhead_limit` loops run at any instant |
| Outbound.BudgetInsideLeaseIsEnough | src/evenkeel/infrastructure/adapters/http/transport.py:55-74 | a budget inside the lease makes it fit |
| Outbound.BoundsInFlightIff | src/evenkeel/infrastructure/adapters/http/transport.py:193-248 | for every policy the loops in flight stay within the limit in all traffic if and only if nobody is let in, no loop takes time, or the longest loop, and the gap before it starts, fit inside the lease |
| Outbound.ShortLeaseLetsTwoRun | src/evenkeel/infrastructure/adapters/http/transport.py:193-212 | an instance: a lease of 1 under a loop of 5 lets two run where one may |
| Outbound.LastAttemptDecides | src/evenkeel/infrastructure/adapters/http/risk.py:46-84 | the outcome is ALLOWED or REFUSED exactly when the final attempt's whole body is an object saying so |
| Outbound.AssessReports | src/evenkeel/infrastructure/adapters/http/risk.py:60-84 | which answers are decisions, and which words are passed on |
| Outbound.Prose | src/evenkeel/infrastructure/adapters/http/risk.py:87-89 | provider text is cut to 200 characters and never invented |
| Cursors.DecodeUndoesEncode | src/evenkeel/infrastructure/adapters/sqla/cursor.py:8-28 | every byte string survives encoding and lenient decoding |
| Cursors.EncodeUndoesDecodeIff | src/evenkeel/infrastructure/adapters/sqla/cursor.py:8-28 | a text survives decoding and encoding exactly when it is canonical |
| Cursors.CursorRoundTrip | src/evenkeel/infrastructure/adapters/sqla/cursor.py:8-28 | every id comes back from its cursor, with anything after the padding |
| Cursors.CursorTextRoundTripIff | src/evenkeel/infrastructure/adapters/sqla/cursor.py:8-28 | the texts that are cursors of some id, exactly |
| Cursors.IsCursorIff | src/evenkeel/infrastructure/adapters/sqla/cursor.py:19-28 | which texts are accepted at all: those in which the first pad that completes a quad comes after exactly 22 symbols; everything else is malformed |
| Pagination.QueryIsPrefix | src/evenkeel/infrastructure/adapters/sqla/ledger_repository.py:70-90 | a page shows the newest rows below its bound and leaves only older ones |
| Pagination.QueryFillsItsPage | src/evenkeel/infrastructure/adapters/sqla/wallet_repository.py:109-118 | a page shows as many rows as there are below its bound, up to the limit, and has a next cursor exactly when more remain |
| Pagination.NextCursorIsLower | src/evenkeel/infrastructure/adapters/sqla/wallet_repository.py:109-118 | the next cursor decodes to the last row shown and is strictly lower |
| Pagination.WalkShowsEverything | src/evenkeel/infrastructure/adapters/sqla/ledger_repository.py:62-90 | with arbitrary inserts between pages a walk is strictly descending, contains every row present at the start, invents none and ends |
| Pagination.QuietWalkIsTheTable | src/evenkeel/infrastructure/adapters/sqla/wallet_repository.py:58-76 | with one table the walk is the whole table |
| Pagination.ListingReplaysTheBalance | src/evenkeel/infrastructure/adapters/sqla/ledger_repository.py:62-90 | if no draw is below an earlier one, the listing is the entries in reverse commit order, and read backwards it replays the balance to the current one |
| Pagination.KeepsListingsIff | src/evenkeel/infrastructure/adapters/sqla/ledger_repository.py:62-90 | for every id generator and page limit: in all runs that draw from it every wallet's listing is in reverse commit order if and only if the generator never goes down |

## Left out

- Movement: SHA-256 and the JSON text of the fingerprint are an injective image of the request's fields; wallets are never deleted and the ledger is append-only, as no code deletes rows.
- Movement: an adapter fault that escapes, such as a Redis error in the lock's exit, is a crash, with no claim about the answer its caller sees; the lock's exit is part of the last step of a call.
- Movement: expired keys disappear when time passes, not when they are next read, which no call can tell apart.
- Movement.Strip: strips ASCII whitespace only, because the model has no Unicode tables.
- Movement.Worth: a request's amount is used through its value in cents, because Moneys shows that nothing else of it can be observed.
- MovementService.Service.DecideMovement: uses the wallet's meaning in cents rather than a wallet object over Decimal money, because Wallets ties the two.
- Wallets: currency codes are strings; the three-letter check of `CurrencyCode` is not part of this model, and neither is `created_at`.
- Idempotency.Load: parses only the two shapes the store writes; any other text is a call that raises. Replies hold ids, so JSON escapes do not occur.
- Idempotency: each operation reads the clock once.
- Idempotency.RedisIdempotencyStore.Attach: GET and SET are one step, because the comparison is about sequential histories; in Movement they are two.
- Bulkhead: between two passes of an entry loop the clock moves on, so the sleep between them takes time.
- Locks.InProcessLock.Enter: a waiter looks at the mutex at arbitrary moments; the waiter queue of asyncio, and its order, are not modelled.
- Locks.InProcessLock.EnterWithoutWaiting: assumes nobody is queued on the asyncio lock, for the same reason.
- RateLimiter: windows are whole milliseconds, and a decision's times are too.
- Jwks: PyJWT is an oracle that can or cannot build a key from an entry; signatures, HTTP and the log are not modelled. An exception outside the caught list behaves like a cancellation.
- Transport: the decoder is any function from bytes to an optional object; headers, the URL and metrics are not modelled.
- Transport.AttemptLoop: code between awaits takes no time and sleeps are exact; jitter and provider are an oracle. Infinite Retry-After values behave like very large ones.
- Cursors: Python's decoder is modelled as CPython's non-strict one, without the optional strict mode.
- Pagination: a table is the set of ids the owner-filtered query can see; the other columns follow the id.
- HTTP routers, schemas, the MCP server, error rendering, configuration, wiring, migrations, metrics and logging: translation and plumbing.
- `open_wallet` and the read interactors: thin; opening is one atomic insert of an empty wallet, and a page limit of at least one comes from them.
