/**
 The money-movement protocol as a step system. A call is the interactor's `_run`
 followed by `WalletMovementService.apply`; it can be interleaved with any other
 call at every await, and its program counter carries its local variables. The
 environment opens and closes wallets, lets time pass, makes `confirm` fail and
 crashes calls. The distributed lock grants to anyone and `FOR UPDATE` locks
 nothing, so no theorem here can rest on either.
 */
module Movement {
  import opened Base
  import opened Decimals
  import opened Wallets
  import opened Identity

  /** `scope` names the store key of an owner's client key; `Deployed` says which one the code uses. */
  datatype Settings = Settings(limitEnabled: bool, failOpen: bool, ttl: int, scope: (Id, string) -> string)

  function Deployed(limitEnabled: bool, failOpen: bool, ttl: int): Settings {
    Settings(limitEnabled, failOpen, ttl, (owner: Id, key: string) => ScopedKey(owner, key))
  }

  datatype Request = Request(
    wallet: Id, owner: Id, amount: Decimal, currency: string, direction: Direction,
    description: string, key: Option<string>)

  /** What SHA-256 and the JSON text are taken to be: an injective image of these fields. */
  datatype Payload = Payload(
    wallet: Id, owner: Id, amount: Decimal, currency: string, direction: Direction, description: string)

  datatype Entry = Entry(
    id: Id, wallet: Id, direction: Direction, cents: int, currency: string,
    balanceAfter: int, description: string, occurredAt: int)

  /** A committed ledger row; `call` is history: who committed it. */
  datatype Posting = Posting(entry: Entry, call: nat)

  datatype Receipt = Receipt(entry: Id, wallet: Id)

  /** A stored idempotency record; `holder` is history: who reserved it. */
  datatype Record = Record(fingerprint: Payload, response: Option<Receipt>, expiresAt: int, holder: nat)

  datatype Risk = Allowed | Refused | Unavailable

  datatype Refusal =
    | RateLimited | RiskRefused | RiskUnavailable
    | KeyReused | InProgress
    | WalletBusy | WalletNotFound | VersionConflict
    | NotPermitted(error: WalletError)

  datatype Answer =
    | Settled(entry: Entry, replayed: bool, balance: int)
    | Rejected(why: Refusal)

  /** Where a call is; each constructor names the await it is about to perform. */
  datatype Pc =
    | Limiting
    | Assessing
    | Claiming
    | FindingEntry(receipt: Receipt)
    | FindingWallet(found: Option<Entry>)
    | EndingReplay(original: Entry)
    | Locking
    | Reading
    | Deciding(snap: WalletState)
    | Inserting(snap: WalletState, next: WalletState, entry: Entry)
    | Updating(snap: WalletState, next: WalletState, entry: Entry)
    | Committing(snap: WalletState, next: WalletState, entry: Entry)
    | ConfirmReading(entry: Entry)
    | ConfirmWriting(entry: Entry, seen: Record)
    | RollingBack(why: Refusal)
    | Releasing(why: Refusal)
    | Done(answer: Answer)
    | Crashed

  /** All but `req` and `pc` is history: what the call was told on its way, and when it claimed its key. */
  datatype Call = Call(
    req: Request, pc: Pc, granted: bool, risk: Option<Risk>, atClaim: Option<Record>, claimedAt: Option<int>)

  datatype Event =
    | Posted(key: string, entry: Id)
    | Expired(keys: set<string>)

  datatype State = State(
    wallets: map<Id, WalletState>,
    ledger: seq<Posting>,
    calls: map<nat, Call>,
    keys: map<string, Record>,
    clock: int,
    topId: int,
    log: seq<Event>)

  /** One await of one call, with what its environment answers. */
  datatype Turn =
    | Limit(granted: bool)
    | Assess(risk: Risk)
    | Claim
    | FindEntry
    | FindWallet
    | EndReplay
    | TakeLock(acquired: bool)
    | ReadWallet
    | Decide(id: Id, at: int)
    | InsertEntry
    | UpdateWallet
    | Commit
    | ConfirmRead
    | ConfirmWrite
    | ConfirmFail
    | Rollback
    | Release
    | Crash

  datatype Action =
    | OpenWallet(w: Id, owner: Id, currency: string, at: int)
    | CloseWallet(w: Id, at: int)
    | Tick(dt: nat)
    | Begin(c: nat, req: Request)
    | Step(c: nat, turn: Turn)

  const INITIAL := State(map[], [], map[], map[], 0, -1, [])

  function Fingerprint(req: Request): Payload {
    Payload(req.wallet, req.owner, req.amount, req.currency, req.direction, req.description)
  }

  /** The cents an amount stands for; a Money object exists only for amounts of the first kind. */
  function Worth(amount: Decimal): int {
    if amount.Finite? && amount.exp >= -2 then Cents(amount) else 0
  }

  predicate IsSpace(c: char) {
    c == ' ' || 9 as char <= c <= 13 as char || 28 as char <= c <= 31 as char
  }

  function Strip(s: string): string {
    if s == "" then s
    else if IsSpace(s[0]) then Strip(s[1..])
    else if IsSpace(s[|s| - 1]) then Strip(s[..|s| - 1])
    else s
  }

  /** `LedgerEntry.record`, from the request and the wallet after the movement. */
  function EntryFor(req: Request, id: Id, next: WalletState, at: int): Entry {
    Entry(id, req.wallet, req.direction, Worth(req.amount), req.currency, next.cents, Strip(req.description), at)
  }

  function KeyOf(cfg: Settings, req: Request): Option<string> {
    match req.key
    case None => None
    case Some(k) => Some(cfg.scope(req.owner, k))
  }

  predicate Owned(wallets: map<Id, WalletState>, w: Id, owner: Id) {
    w in wallets && wallets[w].owner == owner
  }

  function FindById(ledger: seq<Posting>, id: Id): Option<Posting> {
    if ledger == [] then None
    else if ledger[|ledger| - 1].entry.id == id then Some(ledger[|ledger| - 1])
    else FindById(ledger[..|ledger| - 1], id)
  }

  /** The row lock a matched UPDATE holds until its transaction ends. */
  ghost predicate RowFree(s: State, w: Id) {
    forall c :: c in s.calls && s.calls[c].pc.Committing? ==> s.calls[c].req.wallet != w
  }

  /** The primary key: not committed already, and no other transaction has inserted it. */
  ghost predicate IdFree(s: State, id: Id) {
    && (forall p :: p in s.ledger ==> p.entry.id != id)
    && (forall c :: c in s.calls && HasInserted(s.calls[c].pc) ==> s.calls[c].pc.entry.id != id)
  }

  predicate HasInserted(pc: Pc) {
    pc.Updating? || pc.Committing?
  }

  predicate CanTake(pc: Pc, turn: Turn) {
    match turn
    case Limit(_) => pc.Limiting?
    case Assess(_) => pc.Assessing?
    case Claim => pc.Claiming?
    case FindEntry => pc.FindingEntry?
    case FindWallet => pc.FindingWallet?
    case EndReplay => pc.EndingReplay?
    case TakeLock(_) => pc.Locking?
    case ReadWallet => pc.Reading?
    case Decide(_, _) => pc.Deciding?
    case InsertEntry => pc.Inserting?
    case UpdateWallet => pc.Updating?
    case Commit => pc.Committing?
    case ConfirmRead => pc.ConfirmReading?
    case ConfirmWrite => pc.ConfirmWriting?
    case ConfirmFail => pc.ConfirmReading? || pc.ConfirmWriting?
    case Rollback => pc.RollingBack?
    case Release => pc.Releasing?
    case Crash => !pc.Done? && !pc.Crashed?
  }

  /** The database makes an insert wait for its key and an update wait for its row. */
  ghost predicate Enabled(s: State, a: Action) {
    match a
    case OpenWallet(w, _, _, _) => w !in s.wallets
    case CloseWallet(w, at) => w in s.wallets && RowFree(s, w) && ClosedAt(s.wallets[w], at).Ok?
    case Tick(_) => true
    case Begin(c, _) => c !in s.calls
    case Step(c, turn) =>
      && c in s.calls
      && CanTake(s.calls[c].pc, turn)
      && (turn.InsertEntry? ==> IdFree(s, s.calls[c].pc.entry.id))
      && (turn.UpdateWallet? ==> RowFree(s, s.calls[c].req.wallet))
  }

  // ----- where a call goes next; each function is one await of the source

  /** The limiter, when configured, is asked first; a denial ends the call. */
  function AfterLimit(cfg: Settings, granted: bool): Pc {
    if cfg.limitEnabled && !granted then Done(Rejected(RateLimited)) else Assessing
  }

  function AfterAssess(cfg: Settings, risk: Risk): Pc {
    if risk == Refused then Done(Rejected(RiskRefused))
    else if risk == Unavailable && !cfg.failOpen then Done(Rejected(RiskUnavailable))
    else Claiming
  }

  /** `_claim`: reserve the scoped key, or explain what already has it. */
  function AfterClaim(cfg: Settings, keys: map<string, Record>, req: Request): Pc {
    match KeyOf(cfg, req)
    case None => Locking
    case Some(k) =>
      if cfg.ttl <= 0 || k !in keys then Locking
      else if keys[k].fingerprint != Fingerprint(req) then Done(Rejected(KeyReused))
      else if keys[k].response.None? then Done(Rejected(InProgress))
      else FindingEntry(keys[k].response.value)
  }

  /** The entry is read through its wallet's owner. */
  function AfterFindEntry(s: State, req: Request, receipt: Receipt): Pc {
    var p := FindById(s.ledger, receipt.entry);
    var mine := p.Some? && Owned(s.wallets, p.value.entry.wallet, req.owner);
    FindingWallet(if mine then Some(p.value.entry) else None)
  }

  /** A record that outlived its rows falls through to applying the movement again. */
  function AfterFindWallet(s: State, req: Request, found: Option<Entry>): Pc {
    if found.None? || !Owned(s.wallets, req.wallet, req.owner) then Locking else EndingReplay(found.value)
  }

  function AfterRead(s: State, req: Request): Pc {
    if Owned(s.wallets, req.wallet, req.owner) then Deciding(s.wallets[req.wallet]) else RollingBack(WalletNotFound)
  }

  function AfterDecide(req: Request, snap: WalletState, id: Id, at: int): Pc {
    match Moved(snap, req.direction, Worth(req.amount), req.currency, at)
    case Err(e) => RollingBack(NotPermitted(e))
    case Ok(next) => Inserting(snap, next, EntryFor(req, id, next, at))
  }

  /** UPDATE ... WHERE id = :id AND version = :expected, on the latest committed row. */
  function AfterUpdate(s: State, req: Request, snap: WalletState, next: WalletState, entry: Entry): Pc {
    if req.wallet in s.wallets && s.wallets[req.wallet].version == snap.version
    then Committing(snap, next, entry)
    else RollingBack(VersionConflict)
  }

  function AfterCommit(req: Request, next: WalletState, entry: Entry): Pc {
    if req.key.None? then Done(Settled(entry, false, next.cents)) else ConfirmReading(entry)
  }

  /** The Redis store confirms with a GET and then a SET; the memory store does both at once. */
  function AfterConfirmRead(cfg: Settings, keys: map<string, Record>, req: Request, entry: Entry): Pc {
    var k := KeyOf(cfg, req);
    if cfg.ttl <= 0 || k.None? || k.value !in keys then Done(Settled(entry, false, entry.balanceAfter))
    else ConfirmWriting(entry, keys[k.value])
  }

  function NextPc(cfg: Settings, s: State, req: Request, pc: Pc, turn: Turn): Pc
    requires CanTake(pc, turn)
  {
    match turn
    case Limit(granted) => AfterLimit(cfg, granted)
    case Assess(risk) => AfterAssess(cfg, risk)
    case Claim => AfterClaim(cfg, s.keys, req)
    case FindEntry => AfterFindEntry(s, req, pc.receipt)
    case FindWallet => AfterFindWallet(s, req, pc.found)
    case EndReplay => Done(Settled(pc.original, true, pc.original.balanceAfter))
    case TakeLock(acquired) => if acquired then Reading else RollingBack(WalletBusy)
    case ReadWallet => AfterRead(s, req)
    case Decide(id, at) => AfterDecide(req, pc.snap, id, at)
    case InsertEntry => Updating(pc.snap, pc.next, pc.entry)
    case UpdateWallet => AfterUpdate(s, req, pc.snap, pc.next, pc.entry)
    case Commit => AfterCommit(req, pc.next, pc.entry)
    case ConfirmRead => AfterConfirmRead(cfg, s.keys, req, pc.entry)
    case ConfirmWrite => Done(Settled(pc.entry, false, pc.entry.balanceAfter))
    case ConfirmFail => Done(Settled(pc.entry, false, pc.entry.balanceAfter))
    case Rollback => Releasing(pc.why)
    case Release => Done(Rejected(pc.why))
    case Crash => Crashed
  }

  function NextCall(cfg: Settings, s: State, call: Call, turn: Turn): Call
    requires CanTake(call.pc, turn)
  {
    call.(
      pc := NextPc(cfg, s, call.req, call.pc, turn),
      granted := if turn.Limit? then cfg.limitEnabled && turn.granted else call.granted,
      risk := if turn.Assess? then Some(turn.risk) else call.risk,
      atClaim := if turn.Claim? && call.req.key.Some? then Lookup(s.keys, KeyOf(cfg, call.req).value) else call.atClaim,
      claimedAt := if turn.Claim? && call.req.key.Some? then Some(s.clock) else call.claimedAt)
  }

  // ----- what an action does to each part of the shared state

  ghost function NextCalls(cfg: Settings, s: State, a: Action): map<nat, Call>
    requires Enabled(s, a)
  {
    match a
    case Begin(c, req) => s.calls[c := Call(req, Limiting, false, None, None, None)]
    case Step(c, turn) => s.calls[c := NextCall(cfg, s, s.calls[c], turn)]
    case _ => s.calls
  }

  ghost function NextWallets(s: State, a: Action): map<Id, WalletState>
    requires Enabled(s, a)
  {
    match a
    case OpenWallet(w, owner, currency, at) => s.wallets[w := Opened(owner, currency, at)]
    case CloseWallet(w, at) => s.wallets[w := ClosedAt(s.wallets[w], at).value]
    case Step(c, Commit) => s.wallets[s.calls[c].req.wallet := s.calls[c].pc.next]
    case _ => s.wallets
  }

  ghost function NextLedger(s: State, a: Action): seq<Posting>
    requires Enabled(s, a)
  {
    match a
    case Step(c, Commit) => s.ledger + [Posting(s.calls[c].pc.entry, c)]
    case _ => s.ledger
  }

  function Due(s: State, dt: nat): set<string> {
    set k | k in s.keys && s.keys[k].expiresAt <= s.clock + dt
  }

  /** An absent key is reserved; anything already there stays. */
  function Reserved(cfg: Settings, s: State, c: nat, req: Request): map<string, Record> {
    var k := KeyOf(cfg, req);
    if k.None? || cfg.ttl <= 0 || k.value in s.keys then s.keys
    else s.keys[k.value := Record(Fingerprint(req), None, s.clock + cfg.ttl, c)]
  }

  /** The record that was read is written back with its response. */
  function Confirmed(cfg: Settings, s: State, req: Request, entry: Entry, seen: Record): map<string, Record> {
    var k := KeyOf(cfg, req);
    if k.None? then s.keys
    else s.keys[k.value :=
           seen.(response := Some(Receipt(entry.id, entry.wallet)), expiresAt := s.clock + cfg.ttl)]
  }

  /** Only what is still a reservation is given back. */
  function Released(cfg: Settings, s: State, req: Request): map<string, Record> {
    var k := KeyOf(cfg, req);
    if k.Some? && k.value in s.keys && s.keys[k.value].response.None? then s.keys - {k.value} else s.keys
  }

  ghost function NextKeys(cfg: Settings, s: State, a: Action): map<string, Record>
    requires Enabled(s, a)
  {
    match a
    case Tick(dt) => s.keys - Due(s, dt)
    case Step(c, Claim) => Reserved(cfg, s, c, s.calls[c].req)
    case Step(c, ConfirmWrite) => Confirmed(cfg, s, s.calls[c].req, s.calls[c].pc.entry, s.calls[c].pc.seen)
    case Step(c, Release) => Released(cfg, s, s.calls[c].req)
    case _ => s.keys
  }

  /** An id is drawn once the domain has accepted the movement; a refusal draws none. */
  predicate Draws(call: Call, turn: Turn) {
    turn.Decide? && call.pc.Deciding? && AfterDecide(call.req, call.pc.snap, turn.id, turn.at).Inserting?
  }

  ghost function NextTopId(s: State, a: Action): int
    requires Enabled(s, a)
  {
    if a.Step? && Draws(s.calls[a.c], a.turn) then Max(s.topId, a.turn.id) else s.topId
  }

  ghost function NextLog(cfg: Settings, s: State, a: Action): seq<Event>
    requires Enabled(s, a)
  {
    match a
    case Tick(dt) => s.log + [Expired(Due(s, dt))]
    case Step(c, Commit) => if s.calls[c].req.key.Some? then
        s.log + [Posted(KeyOf(cfg, s.calls[c].req).value, s.calls[c].pc.entry.id)]
      else s.log
    case _ => s.log
  }

  ghost function Apply(cfg: Settings, s: State, a: Action): State
    requires Enabled(s, a)
  {
    State(
      NextWallets(s, a),
      NextLedger(s, a),
      NextCalls(cfg, s, a),
      NextKeys(cfg, s, a),
      if a.Tick? then s.clock + a.dt else s.clock,
      NextTopId(s, a),
      NextLog(cfg, s, a))
  }

  /** A run is a sequence of actions each of which was possible when it happened. */
  ghost predicate IsRun(cfg: Settings, run: seq<Action>)
    decreases |run|, 0
  {
    run == [] ||
    (IsRun(cfg, run[..|run| - 1]) && Enabled(End(cfg, run[..|run| - 1]), run[|run| - 1]))
  }

  /** The state a run leads to from the empty database. */
  ghost function End(cfg: Settings, run: seq<Action>): State
    requires IsRun(cfg, run)
    decreases |run|, 1
  {
    if run == [] then INITIAL
    else Apply(cfg, End(cfg, run[..|run| - 1]), run[|run| - 1])
  }
}
