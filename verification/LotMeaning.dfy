/** The base lot in terms of the numbers that the decimals stand for. */
module LotMeaning {
  import opened BaseLot
  import opened Wrappers

  /** The number a decimal stands for: its coefficient at exponent 0, ten times as much with each higher exponent,
      and the negative of it under a minus sign. */
  lemma ValueMeans(coef: nat, exp: int)
    ensures ValueOf(Dec(false, coef, 0)) == coef as real
    ensures ValueOf(Dec(false, coef, exp + 1)) == 10.0 * ValueOf(Dec(false, coef, exp))
    ensures ValueOf(Dec(true, coef, exp)) == -ValueOf(Dec(false, coef, exp))
  {
    WholeValue(coef);
    TenToNext(exp);
    MulLaws(coef as real, 10.0, TenTo(exp));
    MulLaws(10.0, coef as real, TenTo(exp));
    assert TenTo(exp + 1) == Mul(10.0, TenTo(exp));
    assert Mul(10.0, ValueOf(Dec(false, coef, exp))) == 10.0 * ValueOf(Dec(false, coef, exp));
    hide Mul, TenTo;
  }

  /** The q-th multiple of the step is the largest one up to the product of the three numbers. */
  ghost predicate IsLargestMultiple(q: nat, step: real, x: real, y: real, z: real) {
    (q as real) * step <= x * y * z < ((q + 1) as real) * step
  }

  lemma LotMeans(v25: Input, a15: Input, k: Input, step: Input) returns (q: nat)
    requires CalculateBaseLot(v25, a15, k, step).Ok?
    ensures v25.Exact? && a15.Exact? && k.Exact? && step.Exact?
    ensures ValueOf(CalculateBaseLot(v25, a15, k, step).value) == (q as real) * ValueOf(step.value)
    ensures IsLargestMultiple(q, ValueOf(step.value), ValueOf(k.value), ValueOf(v25.value), ValueOf(a15.value))
  {
    q := BaseLotIsFloor(v25, a15, k, step);
    hide CalculateBaseLot, ValueOf, Mul, IsLargestMultiple;
    MulIs(q as real, ValueOf(step.value));
    MultipleIs(q, ValueOf(step.value), ValueOf(k.value), ValueOf(v25.value), ValueOf(a15.value));
  }

  lemma MulIs(x: real, y: real)
    ensures Mul(x, y) == x * y
  {
  }

  lemma MultipleIs(q: nat, step: real, x: real, y: real, z: real)
    ensures (IsLargestMultiple(q, step, x, y, z)
        <==> Mul(q as real, step) <= Mul(Mul(x, y), z) < Mul((q + 1) as real, step))
  {
  }

  /** A usable turnover, coefficient or step is an exact positive number; a usable activity is not negative. */
  ghost predicate Usable(input: Input, field: Field) {
    input.Exact? && if field.Activity? then ValueOf(input.value) >= 0.0 else ValueOf(input.value) > 0.0
  }

  ghost function ObjectionTo(input: Input, field: Field): Error {
    if input.NotExact? then MustBeExact(field) else InvalidValue(field)
  }

  lemma ReadMeans(input: Input, field: Field)
    ensures Read(input, field) == if Usable(input, field) then Ok(input.value) else Err(ObjectionTo(input, field))
  {
    if input.Exact? {
      ZeroHasNoSign(input.value);
      hide Magnitude;
    }
  }

  /** What is reported: the first unusable argument, in the order turnover, activity, coefficient, step; a step that
      is not a whole number comes last. */
  ghost function FirstObjection(v25: Input, a15: Input, k: Input, step: Input): Error {
    if !Usable(v25, Turnover) then ObjectionTo(v25, Turnover)
    else if !Usable(a15, Activity) then ObjectionTo(a15, Activity)
    else if !Usable(k, Coefficient) then ObjectionTo(k, Coefficient)
    else if !Usable(step, Step) then ObjectionTo(step, Step)
    else StepNotWhole
  }

  lemma ErrorMeans(v25: Input, a15: Input, k: Input, step: Input)
    ensures CalculateBaseLot(v25, a15, k, step).Err? ==>
      CalculateBaseLot(v25, a15, k, step).error == FirstObjection(v25, a15, k, step)
  {
    ReadMeans(v25, Turnover);
    ReadMeans(a15, Activity);
    ReadMeans(k, Coefficient);
    ReadMeans(step, Step);
    hide Usable, ObjectionTo, Read, Times, Quotient, Whole, Digits;
  }

  /** Rounding goes to the nearest multiple of the power of ten, and to the even one of two that are equally near. */
  lemma HalfEvenMeans(coef: nat, drop: nat)
    ensures var q, unit := RoundHalfEven(coef, drop), Pow10(drop);
      && -unit <= 2 * (coef - q * unit) <= unit
      && (2 * (coef - q * unit) == unit || 2 * (coef - q * unit) == -unit ==> q % 2 == 0)
  {
    hide Pow10;
    Nearest(coef, Pow10(drop), RoundHalfEven(coef, drop));
  }

  lemma Nearest(coef: nat, unit: int, q: nat)
    requires unit >= 1
    requires var r := coef % unit;
      q == if 2 * r > unit || (2 * r == unit && coef / unit % 2 == 1) then coef / unit + 1 else coef / unit
    ensures -unit <= 2 * (coef - q * unit) <= unit
    ensures 2 * (coef - q * unit) == unit || 2 * (coef - q * unit) == -unit ==> q % 2 == 0
  {
    var down, r := coef / unit, coef % unit;
    assert coef - down * unit == r;
    if q == down + 1 {
      assert q * unit == down * unit + unit;
    }
  }

  /** A number of more digits than the precision is cut to it: the kept digits, moved back to the old exponent, are
      the coefficient rounded at the first dropped digit, and sign and exponent range are kept. */
  lemma FixMeans(d: Dec, prec: nat)
    requires prec >= 1
    ensures Digits(d.coef) <= prec ==> Fix(d, prec) == d
    ensures Fix(d, prec).neg == d.neg && Fix(d, prec).exp >= d.exp && Digits(Fix(d, prec).coef) <= prec
    ensures (Digits(d.coef) > prec ==> var drop := Digits(d.coef) - prec;
        Fix(d, prec).coef * Pow10(Fix(d, prec).exp - d.exp) == RoundHalfEven(d.coef, drop) * Pow10(drop))
  {
    if Digits(d.coef) > prec {
      var drop := Digits(d.coef) - prec;
      var rounded := RoundHalfEven(d.coef, drop);
      RoundedFits(d.coef, prec, drop);
      if Digits(rounded) > prec {
        CarryMoves(rounded, prec, drop);
      }
      hide RoundHalfEven, Digits, Pow10;
    }
  }

  lemma RoundedFits(coef: nat, prec: nat, drop: nat)
    requires Digits(coef) == prec + drop
    ensures RoundHalfEven(coef, drop) <= Pow10(prec)
  {
    DigitsBound(coef);
    Pow10Sum(prec, drop);
    hide Digits, Pow10;
    SmallQuotient(coef, Pow10(prec), Pow10(drop));
  }

  lemma SmallQuotient(coef: nat, p: int, unit: int)
    requires unit >= 1 && p >= 1 && coef < p * unit
    ensures coef / unit < p
  {
    var q := coef / unit;
    assert q * unit <= coef;
    LessFactor(q, p, unit);
  }

  lemma LessFactor(q: int, p: int, unit: int)
    requires unit >= 1 && q * unit < p * unit
    ensures q < p
  {
    assert (p - q) * unit > 0;
  }

  lemma CarryMoves(rounded: nat, prec: nat, drop: nat)
    requires prec >= 1 && rounded <= Pow10(prec) && Digits(rounded) > prec
    ensures Digits(rounded / 10) <= prec && rounded / 10 * Pow10(drop + 1) == rounded * Pow10(drop)
  {
    if rounded < Pow10(prec) {
      DigitsAtMost(rounded, prec);
    }
    assert Pow10(prec) == 10 * Pow10(prec - 1);
    assert rounded / 10 == Pow10(prec - 1);
    DigitsAtMost(rounded / 10, prec);
    assert Pow10(drop + 1) == 10 * Pow10(drop);
    hide Pow10, Digits;
    AssociatesInt(rounded / 10, 10, Pow10(drop));
  }
}
