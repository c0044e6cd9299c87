/**
 The wallet aggregate. `WalletState` is the row the database keeps, in integer
 cents; the functions on it say what each operation means. The class is the
 object the application mutates, over Decimal money, and each of its methods is
 tied to the function of the same name.
 */
module Wallets {
  import opened Base
  import opened Moneys

  type Id = n: nat | n < 0x1_0000_0000_0000_0000_0000_0000_0000_0000

  datatype Direction = Credit | Debit

  datatype Status = Open | Closed

  datatype WalletError =
    | WalletClosed
    | InsufficientFunds
    | NotEmpty
    | BalanceNegative
    | BadMoney(error: MoneyError)

  datatype WalletState = WalletState(
    owner: Id, cents: int, currency: string, status: Status, version: int, updatedAt: int)

  datatype Op =
    | Move(direction: Direction, cents: int, currency: string, now: int)
    | Close(now: int)

  function Opened(owner: Id, currency: string, now: int): WalletState {
    WalletState(owner, 0, currency, Open, 0, now)
  }

  function Touched(w: WalletState, cents: int, now: int): WalletState {
    w.(cents := cents, version := w.version + 1, updatedAt := now)
  }

  function Deposited(w: WalletState, cents: int, currency: string, now: int): Result<WalletState, WalletError> {
    if w.status != Open then Err(WalletClosed)
    else if cents <= 0 then Err(BadMoney(NotPositive))
    else if w.currency != currency then Err(BadMoney(CurrencyMismatch))
    else if !InRange(w.cents + cents) then Err(BadMoney(OutOfRange))
    else Ok(Touched(w, w.cents + cents, now))
  }

  function Withdrawn(w: WalletState, cents: int, currency: string, now: int): Result<WalletState, WalletError> {
    if w.status != Open then Err(WalletClosed)
    else if cents <= 0 then Err(BadMoney(NotPositive))
    else if w.currency != currency then Err(BadMoney(CurrencyMismatch))
    else if w.cents < cents then Err(InsufficientFunds)
    else Ok(Touched(w, w.cents - cents, now))
  }

  function ClosedAt(w: WalletState, now: int): Result<WalletState, WalletError> {
    if w.status != Open then Err(WalletClosed)
    else if w.cents != 0 then Err(NotEmpty)
    else Ok(Touched(w, 0, now).(status := Closed))
  }

  function Moved(w: WalletState, direction: Direction, cents: int, currency: string, now: int)
    : Result<WalletState, WalletError>
  {
    match direction
    case Credit => Deposited(w, cents, currency, now)
    case Debit => Withdrawn(w, cents, currency, now)
  }

  function Effect(direction: Direction, cents: int): int {
    match direction
    case Credit => cents
    case Debit => -cents
  }

  /** The database stores NUMERIC(20, 2) with CHECK (balance_amount >= 0). */
  predicate Sound(w: WalletState) {
    && 0 <= w.cents <= MAX_CENTS
    && (w.status == Closed ==> w.cents == 0)
  }

  /** Exactly which withdrawals are accepted, what they leave, and why the others are refused. */
  lemma WithdrawnIff(w: WalletState, cents: int, currency: string, now: int)
    ensures var r := Withdrawn(w, cents, currency, now);
            && (r == Err(WalletClosed) <==> w.status == Closed)
            && (r == Err(BadMoney(NotPositive)) <==> w.status == Open && cents <= 0)
            && (r == Err(BadMoney(CurrencyMismatch)) <==> w.status == Open && cents > 0 && currency != w.currency)
            && (r == Err(InsufficientFunds) <==>
                  w.status == Open && cents > 0 && currency == w.currency && cents > w.cents)
            && (r.Ok? <==> w.status == Open && 0 < cents <= w.cents && currency == w.currency)
            && (r.Ok? ==> r.value == w.(cents := w.cents - cents, version := w.version + 1, updatedAt := now))
  {
  }

  /** The same for deposits: a wallet takes any positive amount in its currency that still fits. */
  lemma DepositedIff(w: WalletState, cents: int, currency: string, now: int)
    requires Sound(w)
    ensures var r := Deposited(w, cents, currency, now);
            && (r == Err(WalletClosed) <==> w.status == Closed)
            && (r == Err(BadMoney(NotPositive)) <==> w.status == Open && cents <= 0)
            && (r == Err(BadMoney(CurrencyMismatch)) <==> w.status == Open && cents > 0 && currency != w.currency)
            && (r == Err(BadMoney(OutOfRange)) <==>
                  w.status == Open && cents > 0 && currency == w.currency && w.cents + cents > MAX_CENTS)
            && (r.Ok? <==> w.status == Open && 0 < cents <= MAX_CENTS - w.cents && currency == w.currency)
            && (r.Ok? ==> r.value == w.(cents := w.cents + cents, version := w.version + 1, updatedAt := now))
  {
  }

  lemma ClosedIff(w: WalletState, now: int)
    ensures var r := ClosedAt(w, now);
            && (r == Err(WalletClosed) <==> w.status == Closed)
            && (r == Err(NotEmpty) <==> w.status == Open && w.cents != 0)
            && (r.Ok? <==> w.status == Open && w.cents == 0)
            && (r.Ok? ==> r.value == w.(status := Closed, version := w.version + 1, updatedAt := now))
  {
  }

  /** `withdraw` between its status check and its assignments. */
  function Debited(balance: Money, amount: Money): Result<RawMoney, WalletError> {
    if RequirePositive(amount).Err? then Err(BadMoney(NotPositive))
    else
      match LessThan(balance, amount)
      case Err(e) => Err(BadMoney(e))
      case Ok(true) => Err(InsufficientFunds)
      case Ok(false) =>
        match Minus(balance, amount)
        case Err(e) => Err(BadMoney(e))
        case Ok(difference) => Ok(difference)
  }

  /** `deposit` between its status check and its assignments. */
  function Credited(balance: Money, amount: Money): Result<RawMoney, WalletError> {
    if RequirePositive(amount).Err? then Err(BadMoney(NotPositive))
    else
      match Plus(balance, amount)
      case Err(e) => Err(BadMoney(e))
      case Ok(sum) => Ok(sum)
  }

  /** `money` is what an operation left: worth `outcome`'s cents, or its error. */
  ghost predicate Agrees(money: Result<RawMoney, WalletError>, outcome: Result<WalletState, WalletError>) {
    match outcome
    case Err(e) => money == Err(e)
    case Ok(next) =>
      money.Ok? && Check(money.value.amount) == None
      && InCents(money.value) == next.cents && money.value.currency == next.currency
  }

  lemma MoneyIsInRange(m: Money)
    ensures InRange(InCents(m))
  {
    CheckBounds(m.amount);
  }

  lemma DebitedIsExact(w: WalletState, balance: Money, amount: Money, now: int)
    requires w.status == Open && w.cents == InCents(balance) && w.currency == balance.currency && 0 <= w.cents
    ensures Agrees(Debited(balance, amount), Withdrawn(w, InCents(amount), amount.currency, now))
  {
    ComparisonsAreExact(amount, amount);
    if RequirePositive(amount).Ok? && balance.currency == amount.currency {
      ComparisonsAreExact(balance, amount);
      if InCents(balance) >= InCents(amount) {
        MoneyIsInRange(balance);
        MinusIsExact(balance, amount);
      }
    }
  }

  lemma CreditedIsExact(w: WalletState, balance: Money, amount: Money, now: int)
    requires w.status == Open && w.cents == InCents(balance) && w.currency == balance.currency && 0 <= w.cents
    ensures Agrees(Credited(balance, amount), Deposited(w, InCents(amount), amount.currency, now))
  {
    ComparisonsAreExact(amount, amount);
    PlusIsExact(balance, amount);
  }

  lemma ZeroIsZeroCents(balance: Money)
    ensures IsZero(balance) <==> InCents(balance) == 0
  {
    ComparisonsAreExact(balance, balance);
  }

  class Wallet {
    const id: Id
    const owner: Id
    var balance: Money
    var status: Status
    var version: int
    var updatedAt: int

    ghost function State(): WalletState
      reads this
    {
      WalletState(owner, InCents(balance), balance.currency, status, version, updatedAt)
    }

    ghost predicate Valid()
      reads this
    {
      0 <= InCents(balance)
    }

    /** `__init__` after its check: a negative balance was refused by `Load`. */
    constructor (id: Id, owner: Id, balance: Money, status: Status, version: int, updatedAt: int)
      ensures this.id == id
      ensures this.balance == balance
      ensures State() == WalletState(owner, InCents(balance), balance.currency, status, version, updatedAt)
    {
      this.id, this.owner, this.balance := id, owner, balance;
      this.status, this.version, this.updatedAt := status, version, updatedAt;
    }

    /** Every row is rebuilt through the checking constructor. */
    static method Load(id: Id, owner: Id, balance: Money, status: Status, version: int, updatedAt: int)
      returns (r: Result<Wallet, WalletError>)
      ensures InCents(balance) < 0 <==> r == Err(BalanceNegative)
      ensures InCents(balance) >= 0 ==>
                r.Ok? && fresh(r.value) && r.value.id == id
                && r.value.State() == WalletState(owner, InCents(balance), balance.currency, status, version, updatedAt)
    {
      if InCents(balance) < 0 {
        return Err(BalanceNegative);
      }
      var w := new Wallet(id, owner, balance, status, version, updatedAt);
      return Ok(w);
    }

    /** `State()` became what `outcome` says, or nothing at all changed. */
    twostate predicate Follows(outcome: Result<WalletState, WalletError>)
      reads this
    {
      && (outcome.Ok? ==> State() == outcome.value)
      && (outcome.Err? ==> unchanged(this))
    }

    /** A new balance, a new version, a new stamp: an accepted operation. */
    method Become(next: Money, now: int)
      modifies this`balance, this`version, this`updatedAt
      ensures balance == next
      ensures next.currency == old(balance.currency) ==> State() == Touched(old(State()), InCents(next), now)
    {
      balance, version, updatedAt := next, version + 1, now;
    }

    method Shut(now: int)
      modifies this`status, this`version, this`updatedAt
      ensures State() == Touched(old(State()), old(State()).cents, now).(status := Closed)
    {
      status, version, updatedAt := Closed, version + 1, now;
    }

    method Deposit(amount: Money, now: int) returns (r: Result<Money, WalletError>)
      requires Valid()
      modifies this
      ensures Valid() && Follows(Deposited(old(State()), InCents(amount), amount.currency, now))
      ensures r.Ok? <==>
                && old(status) == Open && amount.currency == old(balance).currency
                && 0 < InCents(amount) <= MAX_CENTS - InCents(old(balance))
      ensures r.Ok? ==>
                && r.value == balance && InCents(balance) == InCents(old(balance)) + InCents(amount)
                && balance.currency == old(balance).currency && status == Open
                && version == old(version) + 1 && updatedAt == now
      ensures r.Err? ==> unchanged(this)
      ensures r.Err? ==>
                r == Err(if old(status) == Closed then WalletClosed
                         else if InCents(amount) <= 0 then BadMoney(NotPositive)
                         else if amount.currency != old(balance).currency then BadMoney(CurrencyMismatch)
                         else BadMoney(OutOfRange))
    {
      MoneyIsInRange(balance);
      if status != Open {
        return Err(WalletClosed);
      }
      CreditedIsExact(State(), balance, amount, now);
      var sum := Credited(balance, amount);
      if sum.Err? {
        return Err(sum.error);
      }
      Become(sum.value, now);
      return Ok(balance);
    }

    method Withdraw(amount: Money, now: int) returns (r: Result<Money, WalletError>)
      requires Valid()
      modifies this
      ensures Valid() && Follows(Withdrawn(old(State()), InCents(amount), amount.currency, now))
      ensures r.Ok? <==>
                && old(status) == Open && amount.currency == old(balance).currency
                && 0 < InCents(amount) <= InCents(old(balance))
      ensures r.Ok? ==>
                && r.value == balance && InCents(balance) == InCents(old(balance)) - InCents(amount)
                && balance.currency == old(balance).currency && status == Open
                && version == old(version) + 1 && updatedAt == now
      ensures r.Err? ==> unchanged(this)
      ensures r.Err? ==>
                r == Err(if old(status) == Closed then WalletClosed
                         else if InCents(amount) <= 0 then BadMoney(NotPositive)
                         else if amount.currency != old(balance).currency then BadMoney(CurrencyMismatch)
                         else InsufficientFunds)
    {
      if status != Open {
        return Err(WalletClosed);
      }
      DebitedIsExact(State(), balance, amount, now);
      var difference := Debited(balance, amount);
      if difference.Err? {
        return Err(difference.error);
      }
      Become(difference.value, now);
      return Ok(balance);
    }

    method CloseWallet(now: int) returns (r: Result<(), WalletError>)
      requires Valid()
      modifies this
      ensures Valid() && Follows(ClosedAt(old(State()), now))
      ensures r.Ok? <==> old(status) == Open && InCents(old(balance)) == 0
      ensures r.Ok? ==>
                status == Closed && InCents(balance) == 0 && version == old(version) + 1 && updatedAt == now
      ensures r.Err? ==> unchanged(this) && r.error == if old(status) == Closed then WalletClosed else NotEmpty
    {
      if status != Open {
        return Err(WalletClosed);
      }
      ZeroIsZeroCents(balance);
      if !IsZero(balance) {
        return Err(NotEmpty);
      }
      Shut(now);
      return Ok(());
    }
  }

  function Outcome(w: WalletState, op: Op): Result<WalletState, WalletError> {
    match op
    case Move(direction, cents, currency, now) => Moved(w, direction, cents, currency, now)
    case Close(now) => ClosedAt(w, now)
  }

  /** A refused operation raises and leaves the object as it was. */
  function After(w: WalletState, op: Op): WalletState {
    match Outcome(w, op)
    case Ok(next) => next
    case Err(_) => w
  }

  function Run(w: WalletState, ops: seq<Op>): WalletState
    decreases |ops|
  {
    if ops == [] then w else Run(After(w, ops[0]), ops[1..])
  }

  function Accepted(w: WalletState, ops: seq<Op>): seq<Op>
    decreases |ops|
  {
    if ops == [] then []
    else
      var rest := Accepted(After(w, ops[0]), ops[1..]);
      if Outcome(w, ops[0]).Ok? then [ops[0]] + rest else rest
  }

  function Net(ops: seq<Op>): int {
    if ops == [] then 0
    else (if ops[0].Move? then Effect(ops[0].direction, ops[0].cents) else 0) + Net(ops[1..])
  }

  /**
   Over any sequence of operations, money is conserved: the balance moved by
   exactly the accepted movements, the version counts the accepted operations,
   and the stored-balance constraints never break.
   */
  lemma {:induction false} OperationsConserveMoney(w: WalletState, ops: seq<Op>)
    requires Sound(w)
    ensures Sound(Run(w, ops))
    ensures Run(w, ops).cents == w.cents + Net(Accepted(w, ops))
    ensures Run(w, ops).version == w.version + |Accepted(w, ops)|
    ensures Run(w, ops).owner == w.owner && Run(w, ops).currency == w.currency
    decreases |ops|
  {
    if ops != [] {
      OperationsConserveMoney(After(w, ops[0]), ops[1..]);
      assert ([ops[0]] + Accepted(After(w, ops[0]), ops[1..]))[1..] == Accepted(After(w, ops[0]), ops[1..]);
    }
  }

  /** Every open wallet with money in it can be emptied by one withdrawal and then closed. */
  lemma CanBeEmptiedAndClosed(w: WalletState, then': int, now: int)
    requires w.status == Open && w.cents > 0
    ensures var ops := [Move(Debit, w.cents, w.currency, then'), Close(now)];
            && Accepted(w, ops) == ops
            && Run(w, ops) == w.(cents := 0, status := Closed, version := w.version + 2, updatedAt := now)
  {
    var ops := [Move(Debit, w.cents, w.currency, then'), Close(now)];
    var empty := w.(cents := 0, version := w.version + 1, updatedAt := then');
    assert After(w, ops[0]) == empty && ops[1..] == [ops[1]] && ops[1..][1..] == [];
    var shut := empty.(status := Closed, version := w.version + 2, updatedAt := now);
    assert After(empty, ops[1]) == shut && Run(shut, []) == shut && Accepted(shut, []) == [];
    assert Run(empty, [ops[1]]) == shut && Accepted(empty, [ops[1]]) == [ops[1]];
  }

  /** And an open wallet takes whatever still fits, so no room is lost: one deposit fills it to the maximum. */
  lemma CanBeFilled(w: WalletState, now: int)
    requires w.status == Open && 0 <= w.cents < MAX_CENTS
    ensures var ops := [Move(Credit, MAX_CENTS - w.cents, w.currency, now)];
            Accepted(w, ops) == ops && Run(w, ops).cents == MAX_CENTS
  {
    var ops := [Move(Credit, MAX_CENTS - w.cents, w.currency, now)];
    assert ops[1..] == [] && Accepted(After(w, ops[0]), []) == [];
  }

  /** Closing is final: a closed wallet refuses everything that follows. */
  lemma {:induction false} ClosedIsFinal(w: WalletState, ops: seq<Op>)
    requires w.status == Closed
    ensures Run(w, ops) == w && Accepted(w, ops) == []
    decreases |ops|
  {
    if ops != [] {
      ClosedIsFinal(w, ops[1..]);
    }
  }
}
