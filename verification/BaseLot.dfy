/** The base lot: an exact decimal product rounded down to a whole step, computed on digits and
    exponents only. */
module BaseLot {
  import opened Wrappers

  /** A finite decimal: sign, coefficient and exponent, as Python holds it; zeros have signs too. */
  datatype Dec = Dec(neg: bool, coef: nat, exp: int)

  /** An argument: a decimal, one of the non-finite decimals, or nothing that reads as an exact decimal. */
  datatype Input = Exact(value: Dec) | NotFinite | NotExact

  datatype Field = Turnover | Activity | Coefficient | Step

  datatype Error = MustBeExact(field: Field) | InvalidValue(field: Field) | StepNotWhole

  // ----- Powers of ten and digits

  function Pow10(n: nat): (p: int)
    ensures p >= 1
  {
    if n == 0 then 1 else 10 * Pow10(n - 1)
  }

  function TenTo(e: int): (p: real)
    ensures p > 0.0
  {
    if e >= 0 then Pow10(e) as real else 1.0 / (Pow10(-e) as real)
  }

  lemma TenToNext(e: int)
    ensures TenTo(e + 1) == 10.0 * TenTo(e)
  {
    if e < 0 {
      assert Pow10(-e) == 10 * Pow10(-e - 1);
      TenthsOfOne(Pow10(-e - 1) as real);
    }
  }

  lemma TenthsOfOne(p: real)
    requires p > 0.0
    ensures 10.0 * (1.0 / (10.0 * p)) == 1.0 / p
  {
  }

  /** Multiplication by name: its laws are used one at a time. */
  function Mul(a: real, b: real): real {
    a * b
  }

  lemma MulLaws(a: real, b: real, c: real)
    ensures Mul(a, Mul(b, c)) == Mul(Mul(a, b), c) && Mul(a, b) == Mul(b, a)
  {
  }

  lemma MulUndone(p: real, x: real)
    requires p > 0.0
    ensures Mul(Mul(p, x), 1.0 / p) == x
  {
    assert (p * x) / p == x;
  }

  lemma MulCast(a: int, b: int)
    ensures (a * b) as real == Mul(a as real, b as real)
  {
  }

  lemma MulSigns(x: real, y: real)
    ensures Mul(-x, y) == -Mul(x, y) && Mul(x, -y) == -Mul(x, y) && Mul(-x, -y) == Mul(x, y)
  {
  }

  lemma {:induction false} TenToShift(e: int, n: nat)
    ensures TenTo(e + n) == Mul(Pow10(n) as real, TenTo(e))
  {
    if n == 0 {
      assert Pow10(0) == 1;
    } else {
      TenToShift(e, n - 1);
      TenToNext(e + n - 1);
      assert Pow10(n) as real == Mul(10.0, Pow10(n - 1) as real);
      assert TenTo(e + n) == Mul(10.0, TenTo(e + n - 1));
      hide *;
      MulLaws(10.0, Pow10(n - 1) as real, TenTo(e));
    }
  }

  lemma TenToSum(a: int, b: int)
    ensures TenTo(a + b) == Mul(TenTo(a), TenTo(b))
  {
    if b >= 0 {
      assert TenTo(b) == Pow10(b) as real;
      hide *;
      TenToShift(a, b);
      MulLaws(TenTo(a), TenTo(b), 1.0);
    } else {
      assert TenTo(b) == 1.0 / (Pow10(-b) as real);
      hide *;
      TenToShift(a + b, -b);
      assert a + b + -b == a;
      MulUndone(Pow10(-b) as real, TenTo(a + b));
    }
  }

  /** Decimal digits; zero has one. */
  function Digits(n: nat): (d: nat)
    ensures d >= 1
  {
    if n < 10 then 1 else 1 + Digits(n / 10)
  }

  lemma {:induction false} DigitsBound(n: nat)
    ensures n < Pow10(Digits(n))
  {
    if n >= 10 {
      DigitsBound(n / 10);
    }
  }

  lemma {:induction false} DigitsAtMost(n: nat, d: nat)
    requires n < Pow10(d) && d >= 1
    ensures Digits(n) <= d
  {
    if n >= 10 {
      assert Pow10(1) == 10;
      DigitsAtMost(n / 10, d - 1);
    }
  }

  lemma {:induction false} Pow10Sum(a: nat, b: nat)
    ensures Pow10(a + b) == Pow10(a) * Pow10(b)
  {
    if a > 0 {
      Pow10Sum(a - 1, b);
      AssociatesInt(10, Pow10(a - 1), Pow10(b));
    }
  }

  lemma AssociatesInt(a: int, b: int, c: int)
    ensures a * (b * c) == (a * b) * c
  {
  }

  lemma DigitsOfProduct(a: nat, b: nat)
    ensures a * b >= 0 && Digits(a * b) <= Digits(a) + Digits(b)
  {
    DigitsBound(a);
    DigitsBound(b);
    Pow10Sum(Digits(a), Digits(b));
    ProductBound(a, b, Pow10(Digits(a)), Pow10(Digits(b)));
    DigitsAtMost(a * b, Digits(a) + Digits(b));
  }

  lemma ProductBound(a: nat, b: nat, p: int, q: int)
    requires a < p && b < q
    ensures 0 <= a * b < p * q
  {
    assert a * b <= a * q && a * q < p * q;
  }

  // ----- Decimal arithmetic

  function Magnitude(d: Dec): real {
    Mul(d.coef as real, TenTo(d.exp))
  }

  function ValueOf(d: Dec): real {
    if d.neg then -Magnitude(d) else Magnitude(d)
  }

  /** Rounding of a coefficient by `drop` digits, half to even. */
  function RoundHalfEven(coef: nat, drop: nat): nat {
    var unit := Pow10(drop);
    var q := Floor(coef, unit);
    var r := coef % unit;
    if 2 * r > unit || (2 * r == unit && q % 2 == 1) then q + 1 else q
  }

  /** A context with `prec` digits: longer coefficients are rounded. */
  function Fix(d: Dec, prec: nat): Dec
    requires prec >= 1
  {
    if Digits(d.coef) <= prec then d
    else
      var drop := Digits(d.coef) - prec;
      var rounded := RoundHalfEven(d.coef, drop);
      if Digits(rounded) > prec then Dec(d.neg, rounded / 10, d.exp + drop + 1) else Dec(d.neg, rounded, d.exp + drop)
  }

  function Times(a: Dec, b: Dec, prec: nat): Dec
    requires prec >= 1
  {
    Fix(Dec(a.neg != b.neg, a.coef * b.coef, a.exp + b.exp), prec)
  }

  /** With room for both operands' digits a product is exact. */
  lemma TimesIsExact(a: Dec, b: Dec, prec: nat)
    requires prec >= Digits(a.coef) + Digits(b.coef)
    ensures Times(a, b, prec) == Dec(a.neg != b.neg, a.coef * b.coef, a.exp + b.exp)
    ensures ValueOf(Times(a, b, prec)) == Mul(ValueOf(a), ValueOf(b))
    ensures Digits(Times(a, b, prec).coef) <= Digits(a.coef) + Digits(b.coef)
  {
    DigitsOfProduct(a.coef, b.coef);
    var product := Times(a, b, prec);
    assert product == Dec(a.neg != b.neg, a.coef * b.coef, a.exp + b.exp);
    assert Magnitude(product) == Mul((a.coef * b.coef) as real, TenTo(a.exp + b.exp));
    assert Magnitude(a) == Mul(a.coef as real, TenTo(a.exp)) && Magnitude(b) == Mul(b.coef as real, TenTo(b.exp));
    TenToSum(a.exp, b.exp);
    MulCast(a.coef, b.coef);
    hide Digits, Pow10, TenTo, Fix, Times, Magnitude, Mul;
    Regroup(a.coef as real, b.coef as real, TenTo(a.exp), TenTo(b.exp));
    MulSigns(Magnitude(a), Magnitude(b));
  }

  lemma Regroup(a: real, b: real, p: real, q: real)
    ensures Mul(Mul(a, b), Mul(p, q)) == Mul(Mul(a, p), Mul(b, q))
  {
    hide Mul;
    MulLaws(Mul(a, b), p, q);
    MulLaws(a, b, p);
    MulLaws(b, p, 1.0);
    MulLaws(a, p, b);
    MulLaws(Mul(a, p), b, q);
  }

  predicate Whole(d: Dec) {
    d.exp >= 0 || d.coef % Pow10(-d.exp) == 0
  }

  // ----- The base lot

  /** `_decimal`. */
  function Read(input: Input, field: Field): Result<Dec, Error> {
    if input.NotExact? then Err(MustBeExact(field))
    else if input.NotFinite? then Err(InvalidValue(field))
    else
      var d := input.value;
      var positive := !d.neg && d.coef > 0;
      var negative := d.neg && d.coef > 0;
      if if field.Activity? then negative else !positive then Err(InvalidValue(field)) else Ok(d)
  }

  function Larger(a: nat, b: nat): nat {
    if a > b then a else b
  }

  /** How many whole steps fit into a value, on digits and exponents. */
  function Quotient(value: Dec, step: Dec): nat
    requires step.coef > 0
  {
    if value.exp >= step.exp then
      Floor(value.coef * Pow10(value.exp - step.exp), step.coef)
    else
      Positive(step.coef, Pow10(step.exp - value.exp));
      Floor(value.coef, step.coef * Pow10(step.exp - value.exp))
  }

  lemma Positive(a: int, b: int)
    requires a > 0 && b > 0
    ensures a * b > 0
  {
  }

  /** `//` on non-negative numbers. */
  function Floor(a: int, b: int): nat
    requires b > 0
  {
    if a < 0 then 0 else a / b
  }

  /** `calculate_base_lot`. */
  function CalculateBaseLot(v25: Input, a15: Input, k: Input, step: Input): Result<Dec, Error> {
    var turnover, activity, coefficient, unit :=
      Read(v25, Turnover), Read(a15, Activity), Read(k, Coefficient), Read(step, Step);
    if turnover.Err? then Err(turnover.error)
    else if activity.Err? then Err(activity.error)
    else if coefficient.Err? then Err(coefficient.error)
    else if unit.Err? then Err(unit.error)
    else if !Whole(unit.value) then Err(StepNotWhole)
    else
      var prec :=
        Larger(28, Digits(coefficient.value.coef) + Digits(turnover.value.coef) + Digits(activity.value.coef) + 8);
      var raw := Times(Times(coefficient.value, turnover.value, prec), activity.value, prec);
      var quotient := Quotient(raw, unit.value);
      Ok(Times(Dec(false, quotient, 0), unit.value, Larger(28, Digits(quotient) + Digits(unit.value.coef) + 8)))
  }

  // ----- What it returns

  lemma MulGrows(a: real, b: real, t: real)
    requires t > 0.0
    ensures a <= b ==> Mul(a, t) <= Mul(b, t)
    ensures a < b ==> Mul(a, t) < Mul(b, t)
  {
  }

  lemma FloorBounds(a: nat, b: int)
    requires b > 0
    ensures Floor(a, b) * b <= a < (Floor(a, b) + 1) * b
  {
  }

  lemma MulNested(a: int, b: int, t: real)
    ensures Mul(a as real, Mul(b as real, t)) == Mul((a * b) as real, t)
  {
    MulCast(a, b);
    MulLaws(a as real, b as real, t);
  }

  /** The integer arithmetic on digits and exponents floors the exact ratio. */
  lemma QuotientFits(value: Dec, step: Dec)
    requires step.coef > 0
    ensures var q := Quotient(value, step);
      Mul(q as real, Magnitude(step)) <= Magnitude(value) < Mul((q + 1) as real, Magnitude(step))
  {
    var q := Quotient(value, step);
    if value.exp >= step.exp {
      var p := Pow10(value.exp - step.exp);
      var numerator, t := value.coef * p, TenTo(step.exp);
      TenToShift(step.exp, value.exp - step.exp);
      Positive(value.coef + 1, p);
      assert numerator >= 0;
      FloorBounds(numerator, step.coef);
      assert Magnitude(value) == Mul(value.coef as real, Mul(p as real, t))
        && Magnitude(step) == Mul(step.coef as real, t);
      assert q == Floor(numerator, step.coef);
      hide Mul, TenTo, Pow10, Floor, Magnitude;
      MulNested(value.coef, p, t);
      MulNested(q, step.coef, t);
      MulNested(q + 1, step.coef, t);
      MulGrows((q * step.coef) as real, numerator as real, t);
      MulGrows(numerator as real, ((q + 1) * step.coef) as real, t);
    } else {
      var p := Pow10(step.exp - value.exp);
      var denominator, t := step.coef * p, TenTo(value.exp);
      TenToShift(value.exp, step.exp - value.exp);
      Positive(step.coef, p);
      FloorBounds(value.coef, denominator);
      assert Magnitude(value) == Mul(value.coef as real, t)
        && Magnitude(step) == Mul(step.coef as real, Mul(p as real, t));
      assert q == Floor(value.coef, denominator);
      hide Mul, TenTo, Pow10, Floor, Magnitude;
      MulNested(step.coef, p, t);
      MulNested(q, denominator, t);
      MulNested(q + 1, denominator, t);
      MulGrows((q * denominator) as real, value.coef as real, t);
      MulGrows(value.coef as real, ((q + 1) * denominator) as real, t);
    }
  }

  /** The exact product of the three factors. */
  function Product(v25: Input, a15: Input, k: Input): real
    requires v25.Exact? && a15.Exact? && k.Exact?
  {
    Mul(Mul(ValueOf(k.value), ValueOf(v25.value)), ValueOf(a15.value))
  }

  lemma ZeroHasNoSign(d: Dec)
    ensures d.coef == 0 || !d.neg ==> ValueOf(d) == Magnitude(d)
    ensures d.coef > 0 ==> Magnitude(d) > 0.0
    ensures d.coef == 0 ==> Magnitude(d) == 0.0
  {
    if d.coef > 0 {
      MulGrows(0.0, d.coef as real, TenTo(d.exp));
    }
  }

  lemma SignOfRaw(k: Dec, v25: Dec, a15: Dec, first: Dec, raw: Dec)
    requires !k.neg && !v25.neg && (a15.coef == 0 || !a15.neg)
    requires first.coef == k.coef * v25.coef && first.neg == (k.neg != v25.neg)
    requires raw.coef == first.coef * a15.coef && raw.neg == (first.neg != a15.neg)
    ensures raw.coef == 0 || !raw.neg
  {
    if a15.coef == 0 {
      assert first.coef * 0 == 0;
    }
  }

  /** When it returns, it returns the largest whole multiple of the step not above the exact product. */
  lemma BaseLotIsFloor(v25: Input, a15: Input, k: Input, step: Input) returns (q: nat)
    requires CalculateBaseLot(v25, a15, k, step).Ok?
    ensures v25.Exact? && a15.Exact? && k.Exact? && step.Exact? && ValueOf(step.value) > 0.0
    ensures ValueOf(CalculateBaseLot(v25, a15, k, step).value) == Mul(q as real, ValueOf(step.value))
    ensures Mul(q as real, ValueOf(step.value)) <= Product(v25, a15, k) < Mul((q + 1) as real, ValueOf(step.value))
  {
    var unit := step.value;
    var prec := Larger(28, Digits(k.value.coef) + Digits(v25.value.coef) + Digits(a15.value.coef) + 8);
    var first := Times(k.value, v25.value, prec);
    var raw := Times(first, a15.value, prec);
    q := Quotient(raw, unit);
    var room := Larger(28, Digits(q) + Digits(unit.coef) + 8);
    var result := Times(Dec(false, q, 0), unit, room);
    assert CalculateBaseLot(v25, a15, k, step) == Ok(result);
    TimesIsExact(k.value, v25.value, prec);
    TimesIsExact(first, a15.value, prec);
    TimesIsExact(Dec(false, q, 0), unit, room);
    QuotientFits(raw, unit);
    SignOfRaw(k.value, v25.value, a15.value, first, raw);
    assert !unit.neg && unit.coef > 0;
    WholeValue(q);
    assert Product(v25, a15, k) == Mul(Mul(ValueOf(k.value), ValueOf(v25.value)), ValueOf(a15.value));
    hide *;
    ZeroHasNoSign(raw);
    ZeroHasNoSign(unit);
  }

  lemma WholeValue(q: nat)
    ensures ValueOf(Dec(false, q, 0)) == q as real
  {
    assert TenTo(0) == 1.0;
    MulLaws(q as real, 1.0, 1.0);
  }

  /** Which arguments are accepted: exact positive turnover, coefficient and step, exact activity that
      is not negative, and a step that is a whole number. */
  lemma BaseLotAccepts(v25: Input, a15: Input, k: Input, step: Input)
    ensures CalculateBaseLot(v25, a15, k, step).Ok? <==>
      && v25.Exact? && ValueOf(v25.value) > 0.0 && a15.Exact? && ValueOf(a15.value) >= 0.0
      && k.Exact? && ValueOf(k.value) > 0.0 && step.Exact? && ValueOf(step.value) > 0.0
      && exists n: int :: IsValue(step.value, n)
  {
    if v25.Exact? {
      ZeroHasNoSign(v25.value);
    }
    if a15.Exact? {
      ZeroHasNoSign(a15.value);
    }
    if k.Exact? {
      ZeroHasNoSign(k.value);
    }
    if step.Exact? {
      ZeroHasNoSign(step.value);
      if !step.value.neg {
        WholeMeansInteger(step.value);
      }
    }
    hide Magnitude, Times, Digits, Quotient, Whole, IsValue;
  }

  ghost predicate IsValue(d: Dec, n: int) {
    ValueOf(d) == n as real
  }

  lemma WholeMeansInteger(d: Dec)
    requires !d.neg
    ensures Whole(d) <==> exists n: int :: IsValue(d, n)
  {
    if d.exp >= 0 {
      MulCast(d.coef, Pow10(d.exp));
      assert IsValue(d, d.coef * Pow10(d.exp));
    } else {
      var p := Pow10(-d.exp);
      var x := ValueOf(d);
      assert x == Mul(d.coef as real, 1.0 / (p as real));
      TimesBack(d.coef as real, p as real, x);
      if Whole(d) {
        var n := d.coef / p;
        assert d.coef == p * n;
        MulCast(p, n);
        SameQuotient(p as real, x, n as real);
        assert IsValue(d, n);
      }
      if n: int :| IsValue(d, n) {
        MulCast(p, n);
        assert d.coef as real == (p * n) as real;
        Divides(d.coef, p, n);
      }
    }
  }

  lemma TimesBack(c: real, p: real, x: real)
    requires p > 0.0 && x == Mul(c, 1.0 / p)
    ensures Mul(p, x) == c
  {
    assert x == c / p;
  }

  lemma SameQuotient(p: real, x: real, y: real)
    requires p > 0.0 && Mul(p, x) == Mul(p, y)
    ensures x == y
  {
    MulUndone(p, x);
    MulUndone(p, y);
  }

  lemma Divides(c: int, p: int, n: int)
    requires p > 0 && c == p * n
    ensures c % p == 0
  {
    var q, r := c / p, c % p;
    SmallMultiple(p, n - q, r);
  }

  lemma SmallMultiple(p: int, m: int, r: int)
    requires 0 <= r < p && r == p * m
    ensures r == 0
  {
    Multiples(p, m);
  }

  lemma Multiples(p: int, m: int)
    requires p > 0
    ensures m >= 1 ==> p * m >= p
    ensures m <= -1 ==> p * m <= -p
  {
  }

  /** The form does not matter: arguments of equal value, however many digits and whichever exponents
      spell them, give lots of equal value. */
  lemma FormsDoNotMatter(v25: Input, a15: Input, k: Input, step: Input, v25': Input, a15': Input, k': Input,
                         step': Input)
    requires CalculateBaseLot(v25, a15, k, step).Ok? && CalculateBaseLot(v25', a15', k', step').Ok?
    requires v25.Exact? && v25'.Exact? && ValueOf(v25.value) == ValueOf(v25'.value)
    requires a15.Exact? && a15'.Exact? && ValueOf(a15.value) == ValueOf(a15'.value)
    requires k.Exact? && k'.Exact? && ValueOf(k.value) == ValueOf(k'.value)
    requires step.Exact? && step'.Exact? && ValueOf(step.value) == ValueOf(step'.value)
    ensures ValueOf(CalculateBaseLot(v25, a15, k, step).value) == ValueOf(CalculateBaseLot(v25', a15', k', step').value)
  {
    hide CalculateBaseLot, ValueOf, Mul;
    var q := BaseLotIsFloor(v25, a15, k, step);
    var r := BaseLotIsFloor(v25', a15', k', step');
    if q < r {
      MulGrows((q + 1) as real, r as real, ValueOf(step.value));
    } else if r < q {
      MulGrows((r + 1) as real, q as real, ValueOf(step.value));
    }
  }
}
