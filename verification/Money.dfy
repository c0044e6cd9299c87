/**
 Decimal arithmetic as Python performs it (sign, coefficient, exponent, and a
 28-digit context), and the Money value object built on it. The point of the
 module is that none of the rounding can be observed: on Money values every
 operation is exact arithmetic on integer cents.
 */
module Decimals {
  import opened Base

  const PRECISION: nat := 28
  const EMAX: nat := 999999
  const TEN_TO_20: int := 100_000_000_000_000_000_000
  const TEN_TO_28: int := 10_000_000_000_000_000_000_000_000_000 // the first coefficient with 29 digits

  datatype Decimal =
    | Finite(neg: bool, digits: nat, exp: int)
    | Infinite(neg: bool)
    | NotANumber

  /** What an operation under the default context produces; overflow is trapped. */
  datatype Outcome = Value(d: Decimal) | Overflow

  function Pow10(n: nat): (p: int)
    ensures p >= 1
  {
    if n == 0 then 1 else 10 * Pow10(n - 1)
  }

  function NumDigits(n: nat): (k: nat)
    ensures k >= 1
    ensures n < Pow10(k)
    ensures n > 0 ==> Pow10(k - 1) <= n
  {
    if n < 10 then assert Pow10(1) == 10; 1 else 1 + NumDigits(n / 10)
  }

  function Signed(neg: bool, digits: nat): int {
    var size: int := digits;
    if neg then -size else size
  }

  /** Division by `unit`, rounding half to even. */
  function HalfEven(digits: nat, unit: int): nat
    requires unit >= 1
  {
    var q, r := digits / unit, digits % unit;
    if 2 * r > unit || (2 * r == unit && q % 2 == 1) then q + 1 else q
  }

  /** The context's rounding step: at most PRECISION digits, at most EMAX. */
  function Fix(d: Decimal): Outcome
    requires d.Finite?
  {
    if d.digits == 0 then Value(d.(exp := Min(d.exp, EMAX)))
    else if d.exp + NumDigits(d.digits) - 1 > EMAX then Overflow
    else if d.digits < TEN_TO_28 then Value(d)
    else
      var drop := NumDigits(d.digits) - PRECISION;
      if drop < 0 then Value(d) else
      var q := HalfEven(d.digits, Pow10(drop));
      if q < TEN_TO_28 then Value(Finite(d.neg, q, d.exp + drop))
      else if d.exp + NumDigits(d.digits) > EMAX then Overflow
      else Value(Finite(d.neg, q / 10, d.exp + drop + 1))
  }

  function Abs(d: Decimal): Outcome
    requires d.Finite?
  {
    Fix(d.(neg := false))
  }

  /** `digits * p` by repeated addition, so that users of cents never meet a product. */
  function Scaled(digits: nat, p: int): nat
    requires p >= 1
  {
    if digits == 0 then 0 else p + Scaled(digits - 1, p)
  }

  lemma {:induction false} ScaledIsProduct(digits: nat, p: int)
    requires p >= 1
    ensures Scaled(digits, p) == digits * p
  {
    if digits > 0 {
      ScaledIsProduct(digits - 1, p);
      assert digits * p == (digits - 1) * p + p;
    }
  }

  /** Same value at a smaller exponent. */
  function PadTo(d: Decimal, exp: int): Decimal
    requires d.Finite? && exp <= d.exp
  {
    Finite(d.neg, Scaled(d.digits, Pow10(d.exp - exp)), exp)
  }

  function AlignedSum(a: Decimal, b: Decimal, e: int): Decimal
    requires a.Finite? && b.Finite? && e <= a.exp && e <= b.exp
  {
    var x, y := PadTo(a, e), PadTo(b, e);
    var sum := Signed(x.neg, x.digits) + Signed(y.neg, y.digits);
    Finite(sum < 0 || (sum == 0 && a.neg && b.neg), if sum < 0 then -sum else sum, e)
  }

  /** The sum before the context rounds it; a zero operand only sets the exponent. */
  function ExactSum(a: Decimal, b: Decimal): (sum: Decimal)
    requires a.Finite? && b.Finite?
    ensures sum.Finite?
  {
    var e := Min(a.exp, b.exp);
    if a.digits == 0 && b.digits == 0 then Finite(a.neg && b.neg, 0, e)
    else if a.digits == 0 then PadTo(b, Max(e, b.exp - PRECISION - 1))
    else if b.digits == 0 then PadTo(a, Max(e, a.exp - PRECISION - 1))
    else AlignedSum(a, b, e)
  }

  function Add(a: Decimal, b: Decimal): Outcome
    requires a.Finite? && b.Finite?
  {
    Fix(ExactSum(a, b))
  }

  function Negate(d: Decimal): Decimal
    requires d.Finite?
  {
    d.(neg := !d.neg)
  }

  function Sub(a: Decimal, b: Decimal): Outcome
    requires a.Finite? && b.Finite?
  {
    Add(a, Negate(b))
  }

  /** Comparison is exact in every context. */
  predicate Less(a: Decimal, b: Decimal)
    requires a.Finite? && b.Finite?
  {
    var e := Min(a.exp, b.exp);
    var x, y := PadTo(a, e), PadTo(b, e);
    Signed(x.neg, x.digits) < Signed(y.neg, y.digits)
  }

  /** The value in hundredths, for a decimal with at most two places. */
  function Cents(d: Decimal): int
    requires d.Finite? && d.exp >= -2
  {
    Signed(d.neg, Scaled(d.digits, Pow10(d.exp + 2)))
  }

  lemma {:induction false} Pow10Adds(m: nat, n: nat)
    ensures Pow10(m + n) == Pow10(m) * Pow10(n)
  {
    if m > 0 {
      Pow10Adds(m - 1, n);
      assert Pow10(m + n) == 10 * Pow10(m - 1 + n);
      assert 10 * (Pow10(m - 1) * Pow10(n)) == (10 * Pow10(m - 1)) * Pow10(n);
    }
  }

  lemma {:induction false} Pow10Grows(m: nat, n: nat)
    requires m <= n
    ensures Pow10(m) <= Pow10(n)
  {
    if m < n {
      Pow10Grows(m, n - 1);
    }
  }

  lemma Pow10At20And28()
    ensures Pow10(20) == TEN_TO_20
    ensures Pow10(PRECISION) == TEN_TO_28 == 10 * Pow10(PRECISION - 1)
  {
    assert Pow10(4) == 10_000;
    Pow10Adds(4, 4);
    Pow10Adds(8, 8);
    Pow10Adds(16, 4);
    Pow10Adds(20, 8);
    Pow10Adds(1, 27);
  }

  lemma PadKeepsCents(d: Decimal, e: int)
    requires d.Finite? && -2 <= e <= d.exp
    ensures Cents(PadTo(d, e)) == Cents(d)
  {
    Pow10Adds(d.exp - e, e + 2);
    var a, b := Pow10(d.exp - e), Pow10(e + 2);
    ScaledIsProduct(d.digits, a);
    ScaledIsProduct(Scaled(d.digits, a), b);
    ScaledIsProduct(d.digits, Pow10(d.exp + 2));
    assert (d.digits * a) * b == d.digits * (a * b);
  }

  lemma MulAtLeast(a: int, b: int)
    requires a >= 1 && b >= 1
    ensures a * b >= a && a * b >= b
  {
  }

  lemma MulLess(x: int, y: int, p: int)
    requires p >= 1
    ensures x < y <==> x * p < y * p
  {
    if x >= y {
      assert (x - y) * p >= 0;
    }
  }

  /** Coefficients are never larger than the value in cents. */
  lemma DigitsBelowCents(d: Decimal)
    requires d.Finite? && d.exp >= -2
    ensures d.digits <= Scaled(d.digits, Pow10(d.exp + 2))
    ensures d.digits > 0 ==> Pow10(d.exp + 2) <= Scaled(d.digits, Pow10(d.exp + 2))
  {
    if d.digits > 0 {
      ScaledIsProduct(d.digits, Pow10(d.exp + 2));
      MulAtLeast(d.digits, Pow10(d.exp + 2));
    }
  }

  /** Small values survive the context unchanged. */
  lemma FixKeepsSmall(d: Decimal)
    requires d.Finite? && d.exp >= -2
    requires -TEN_TO_28 < Cents(d) < TEN_TO_28
    ensures Fix(d).Value? && Fix(d).d.Finite? && Fix(d).d.exp >= -2 && Cents(Fix(d).d) == Cents(d)
  {
    DigitsBelowCents(d);
    Pow10At20And28();
    if d.digits > 0 {
      if d.exp + 2 >= PRECISION {
        Pow10Grows(PRECISION, d.exp + 2);
        assert false;
      }
      if NumDigits(d.digits) - 1 >= PRECISION {
        Pow10Grows(PRECISION, NumDigits(d.digits) - 1);
        assert false;
      }
    }
  }

  /** Large values stay large, however the context rounds them. */
  lemma FixKeepsLarge(d: Decimal)
    requires d.Finite? && !d.neg && d.exp >= -2
    requires Cents(d) >= TEN_TO_20
    ensures match Fix(d)
            case Overflow => true
            case Value(r) => r.Finite? && r.exp >= -2 && Cents(r) >= TEN_TO_20
  {
    if d.digits >= TEN_TO_28 && Fix(d).Value? {
      RoundingKeepsLarge(d.digits, NumDigits(d.digits));
      DigitsBelowCents(Fix(d).d);
    }
  }

  lemma RoundingKeepsLarge(digits: nat, k: nat)
    requires digits >= TEN_TO_28 && k >= 1 && Pow10(k - 1) <= digits < Pow10(k)
    ensures k > PRECISION
    ensures HalfEven(digits, Pow10(k - PRECISION)) >= 10 * TEN_TO_20
  {
    Pow10At20And28();
    if k <= PRECISION {
      Pow10Grows(k, PRECISION);
    }
    var unit := Pow10(k - PRECISION);
    Pow10Adds(PRECISION - 1, k - PRECISION);
    QuotientAtLeast(digits, Pow10(PRECISION - 1), unit);
  }

  lemma QuotientAtLeast(n: nat, q: nat, unit: int)
    requires unit > 0 && n >= q * unit
    ensures n / unit >= q
  {
    MulLess(n / unit + 1, q + 1, unit);
    assert n < (n / unit + 1) * unit;
  }

  lemma AlignedCents(a: Decimal, e: int)
    requires a.Finite? && -2 <= e <= a.exp
    ensures Cents(a) == Signed(PadTo(a, e).neg, PadTo(a, e).digits) * Pow10(e + 2)
  {
    PadKeepsCents(a, e);
    SignedScales(a.neg, PadTo(a, e).digits, Pow10(e + 2));
  }

  lemma SignedScales(neg: bool, digits: nat, p: int)
    requires p >= 1
    ensures Signed(neg, Scaled(digits, p)) == Signed(neg, digits) * p
  {
    ScaledIsProduct(digits, p);
    if neg {
      var size: int := digits;
      assert (-size) * p == -(size * p);
    }
  }

  lemma AlignedSumIsExact(a: Decimal, b: Decimal, e: int)
    requires a.Finite? && b.Finite? && -2 <= e <= a.exp && e <= b.exp
    ensures Cents(AlignedSum(a, b, e)) == Cents(a) + Cents(b)
  {
    AlignedCents(a, e);
    AlignedCents(b, e);
    var x, y := PadTo(a, e), PadTo(b, e);
    var sum := AlignedSum(a, b, e);
    Distributes(Signed(x.neg, x.digits), Signed(y.neg, y.digits), Pow10(e + 2));
    SignedScales(sum.neg, sum.digits, Pow10(e + 2));
  }

  lemma Distributes(x: int, y: int, p: int)
    ensures (x + y) * p == x * p + y * p
  {
  }

  lemma ExactSumIsExact(a: Decimal, b: Decimal)
    requires a.Finite? && b.Finite? && a.exp >= -2 && b.exp >= -2
    ensures ExactSum(a, b).exp >= -2 && Cents(ExactSum(a, b)) == Cents(a) + Cents(b)
  {
    var e := Min(a.exp, b.exp);
    if a.digits != 0 && b.digits != 0 {
      AlignedSumIsExact(a, b, e);
    } else if b.digits != 0 {
      PadKeepsCents(b, Max(e, b.exp - PRECISION - 1));
    } else if a.digits != 0 {
      PadKeepsCents(a, Max(e, a.exp - PRECISION - 1));
    }
  }

  /** Addition of values below 10^20 cents is exact. */
  lemma AddIsExact(a: Decimal, b: Decimal)
    requires a.Finite? && b.Finite? && a.exp >= -2 && b.exp >= -2
    requires -TEN_TO_20 < Cents(a) < TEN_TO_20 && -TEN_TO_20 < Cents(b) < TEN_TO_20
    ensures Add(a, b).Value? && Add(a, b).d.Finite? && Add(a, b).d.exp >= -2
    ensures Cents(Add(a, b).d) == Cents(a) + Cents(b)
  {
    ExactSumIsExact(a, b);
    FixKeepsSmall(ExactSum(a, b));
  }

  lemma LessIsExact(a: Decimal, b: Decimal)
    requires a.Finite? && b.Finite? && a.exp >= -2 && b.exp >= -2
    ensures Less(a, b) <==> Cents(a) < Cents(b)
  {
    var e := Min(a.exp, b.exp);
    AlignedCents(a, e);
    AlignedCents(b, e);
    var x, y := PadTo(a, e), PadTo(b, e);
    MulLess(Signed(x.neg, x.digits), Signed(y.neg, y.digits), Pow10(e + 2));
  }
}

module Moneys {
  import opened Base
  import opened Decimals

  const MONEY_SCALE: int := 2
  const MAX_CENTS: int := 99_999_999_999_999_999_999
  // Decimal(10) ** 18 - Decimal(1).scaleb(-2)
  const MONEY_MAX: Decimal := Finite(false, 99_999_999_999_999_999_999, -2)
  const ZERO_AMOUNT: Decimal := Finite(false, 0, 0)

  datatype MoneyError =
    | NotFinite
    | ScaleExceeded
    | OutOfRange
    | CurrencyMismatch
    | NotPositive
    | DecimalOverflow // decimal.Overflow: escapes as itself, not as a DomainError

  datatype RawMoney = Money(amount: Decimal, currency: string)

  /** `Money._validate`: the constructor refuses what this refuses. */
  function Check(amount: Decimal): Option<MoneyError> {
    if !amount.Finite? then Some(NotFinite)
    else if -amount.exp > MONEY_SCALE then Some(ScaleExceeded)
    else
      match Abs(amount)
      case Overflow => Some(DecimalOverflow)
      case Value(size) => if size.Finite? && Less(MONEY_MAX, size) then Some(OutOfRange) else None
  }

  function Make(amount: Decimal, currency: string): Result<RawMoney, MoneyError> {
    match Check(amount)
    case Some(e) => Err(e)
    case None => Ok(Money(amount, currency))
  }

  /** A Money object exists only if its constructor accepted the amount. */
  type Money = m: RawMoney | Check(m.amount) == None witness Money(ZERO_AMOUNT, "EUR")

  function Plus(a: Money, b: Money): Result<RawMoney, MoneyError> {
    CheckBounds(a.amount);
    CheckBounds(b.amount);
    if a.currency != b.currency then Err(CurrencyMismatch)
    else
      match Add(a.amount, b.amount)
      case Overflow => Err(DecimalOverflow)
      case Value(sum) => Make(sum, a.currency)
  }

  function Minus(a: Money, b: Money): Result<RawMoney, MoneyError> {
    CheckBounds(a.amount);
    CheckBounds(b.amount);
    if a.currency != b.currency then Err(CurrencyMismatch)
    else
      match Sub(a.amount, b.amount)
      case Overflow => Err(DecimalOverflow)
      case Value(difference) => Make(difference, a.currency)
  }

  function LessThan(a: Money, b: Money): Result<bool, MoneyError> {
    CheckBounds(a.amount);
    CheckBounds(b.amount);
    if a.currency != b.currency then Err(CurrencyMismatch) else Ok(Less(a.amount, b.amount))
  }

  function RequirePositive(a: Money): Result<Money, MoneyError> {
    CheckBounds(a.amount);
    if !Less(ZERO_AMOUNT, a.amount) then Err(NotPositive) else Ok(a)
  }

  predicate IsZero(a: Money) {
    CheckBounds(a.amount);
    !Less(ZERO_AMOUNT, a.amount) && !Less(a.amount, ZERO_AMOUNT)
  }

  /** The integer number of cents a Money object stands for. */
  function InCents(a: Money): int {
    CheckBounds(a.amount);
    Cents(a.amount)
  }

  /**
   The constructor accepts exactly the two-place amounts of at most 20 digits of
   cents: the 28-digit rounding inside `abs` never lets a larger one through and
   never refuses a smaller one.
   */
  lemma CheckBounds(amount: Decimal)
    ensures Check(amount) == None
            <==> amount.Finite? && amount.exp >= -2 && -MAX_CENTS <= Cents(amount) <= MAX_CENTS
  {
    if amount.Finite? && amount.exp >= -2 {
      Pow10At20And28();
      var size := amount.(neg := false);
      assert Pow10(0) == 1;
      ScaledIsProduct(MONEY_MAX.digits, 1);
      assert Cents(MONEY_MAX) == MAX_CENTS;
      if Cents(size) < TEN_TO_20 {
        FixKeepsSmall(size);
        LessIsExact(MONEY_MAX, Abs(amount).d);
      } else {
        FixKeepsLarge(size);
        if Abs(amount).Value? {
          LessIsExact(MONEY_MAX, Abs(amount).d);
        }
      }
    }
  }

  predicate InRange(cents: int) {
    -MAX_CENTS <= cents <= MAX_CENTS
  }

  /** What constructing Money from an exact sum or difference of two amounts answers. */
  lemma MakeFromCents(amount: Decimal, currency: string)
    requires amount.Finite? && amount.exp >= -2 && -TEN_TO_28 < Cents(amount) < TEN_TO_28
    ensures InRange(Cents(amount)) ==> Make(amount, currency) == Ok(Money(amount, currency))
    ensures !InRange(Cents(amount)) ==> Make(amount, currency) == Err(OutOfRange)
  {
    CheckBounds(amount);
    FixKeepsSmall(amount.(neg := false));
  }

  /** `r` is the Money worth exactly `cents`, or the range refusal if there is none. */
  ghost predicate IsCents(r: Result<RawMoney, MoneyError>, cents: int, currency: string) {
    if InRange(cents)
    then r.Ok? && Check(r.value.amount) == None && InCents(r.value) == cents && r.value.currency == currency
    else r == Err(OutOfRange)
  }

  /** Sums are exact, and refused exactly when they leave the NUMERIC(20, 2) range. */
  lemma PlusIsExact(a: Money, b: Money)
    ensures if a.currency == b.currency
            then IsCents(Plus(a, b), InCents(a) + InCents(b), a.currency)
            else Plus(a, b) == Err(CurrencyMismatch)
  {
    CheckBounds(a.amount);
    CheckBounds(b.amount);
    AddIsExact(a.amount, b.amount);
    MakeFromCents(Add(a.amount, b.amount).d, a.currency);
    CheckBounds(Add(a.amount, b.amount).d);
  }

  /** Differences are exact in the same sense. */
  lemma MinusIsExact(a: Money, b: Money)
    ensures if a.currency == b.currency
            then IsCents(Minus(a, b), InCents(a) - InCents(b), a.currency)
            else Minus(a, b) == Err(CurrencyMismatch)
  {
    CheckBounds(a.amount);
    CheckBounds(b.amount);
    AddIsExact(a.amount, Negate(b.amount));
    MakeFromCents(Sub(a.amount, b.amount).d, a.currency);
    CheckBounds(Sub(a.amount, b.amount).d);
  }

  /** Comparison, the sign test and the zero test are those of the cents. */
  lemma ComparisonsAreExact(a: Money, b: Money)
    ensures a.currency == b.currency ==> LessThan(a, b) == Ok(InCents(a) < InCents(b))
    ensures RequirePositive(a).Ok? <==> InCents(a) > 0
    ensures IsZero(a) <==> InCents(a) == 0
  {
    CheckBounds(a.amount);
    CheckBounds(b.amount);
    LessIsExact(a.amount, b.amount);
    LessIsExact(ZERO_AMOUNT, a.amount);
    LessIsExact(a.amount, ZERO_AMOUNT);
  }
}
