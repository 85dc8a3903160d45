/** The value of one unit a month for n months at a monthly rate: the quantity both
    the payment formula and the dealer-fee solver are built on
    (backend/engine/finance/amortization.py). */
module Annuities {
  import opened RealMath

  // Each step back discounts what is owed next month together with this month's unit.
  function Annuity(rate: real, n: nat): real
    requires rate > -1.0
  {
    if n == 0 then 0.0 else (1.0 + Annuity(rate, n - 1)) / (1.0 + rate)
  }

  lemma {:induction false} AnnuityPositive(rate: real, n: nat)
    requires rate > -1.0
    ensures Annuity(rate, n) >= 0.0
    ensures n > 0 ==> Annuity(rate, n) > 0.0
  {
    if n != 0 {
      AnnuityPositive(rate, n - 1);
      DivMono(0.0, 1.0 + Annuity(rate, n - 1), 1.0 + rate);
      DivUnique(0.0, 1.0 + rate, 0.0);
    }
  }

  // One month of growth: an annuity of n months becomes one unit and an annuity of n - 1.
  lemma AnnuityGrows(rate: real, n: nat)
    requires rate > -1.0 && n > 0
    ensures Annuity(rate, n) * (1.0 + rate) == 1.0 + Annuity(rate, n - 1)
  {
  }

  lemma {:induction false} AnnuityAtZero(n: nat)
    ensures Annuity(0.0, n) == n as real
  {
    if n != 0 {
      AnnuityAtZero(n - 1);
      DivUnique(n as real, 1.0, n as real);
    }
  }

  // a is (1 - 1/f) / rate, said without dividing.
  predicate IsClosedForm(a: real, rate: real, f: real) {
    a * rate * f == f - 1.0
  }

  // The closed form: annuity * rate == 1 - (1 + rate)^-n.
  lemma {:induction false} AnnuityClosedForm(rate: real, n: nat)
    requires rate > -1.0
    ensures IsClosedForm(Annuity(rate, n), rate, Pow(1.0 + rate, n))
  {
    if n != 0 {
      AnnuityClosedForm(rate, n - 1);
      AnnuityGrows(rate, n);
      ClosedFormStep(Annuity(rate, n), Annuity(rate, n - 1), rate, Pow(1.0 + rate, n - 1));
    }
  }

  lemma ClosedFormStep(a: real, b: real, rate: real, f: real)
    requires a * (1.0 + rate) == 1.0 + b
    requires IsClosedForm(b, rate, f)
    ensures IsClosedForm(a, rate, (1.0 + rate) * f)
  {
  }

  // The recursion is the sum of the unit payments, each discounted from its own month.
  function UnitDiscounts(rate: real, n: nat): (r: seq<real>)
    requires rate > -1.0
    ensures |r| == n
  {
    seq(n, j requires 0 <= j < n => PowPositive(1.0 + rate, j + 1); 1.0 / Pow(1.0 + rate, j + 1))
  }

  lemma {:induction false} AnnuityIsDiscountedSum(rate: real, n: nat)
    requires rate > -1.0
    ensures Annuity(rate, n) == Sum(UnitDiscounts(rate, n))
  {
    if n != 0 {
      AnnuityIsDiscountedSum(rate, n - 1);
      SumToAgree(UnitDiscounts(rate, n), UnitDiscounts(rate, n - 1), n - 1);
      LastUnit(rate, n);
    }
  }

  // Adding the farthest month adds its own discounted unit.
  lemma {:induction false} LastUnit(rate: real, n: nat)
    requires rate > -1.0 && n > 0
    ensures Pow(1.0 + rate, n) > 0.0
    ensures Annuity(rate, n) == Annuity(rate, n - 1) + 1.0 / Pow(1.0 + rate, n)
  {
    var x := 1.0 + rate;
    PowPositive(x, n);
    if n == 1 {
      DivUnique(1.0, x, 1.0 / Pow(x, 1));
      assert Pow(x, 1) == x * Pow(x, 0);
    } else {
      LastUnit(rate, n - 1);
      var a, p := Annuity(rate, n - 2), Pow(x, n - 1);
      assert Annuity(rate, n) == (1.0 + (a + 1.0 / p)) / x;
      assert Annuity(rate, n - 1) == (1.0 + a) / x && Pow(x, n) == x * p;
      UnitStep(a, x, p);
    }
  }

  lemma UnitStep(a: real, x: real, p: real)
    requires x > 0.0 && p > 0.0
    ensures (1.0 + (a + 1.0 / p)) / x == (1.0 + a) / x + 1.0 / (x * p)
  {
  }

  // A higher rate makes the same payments worth strictly less.
  lemma {:induction false} AnnuityDecreases(lower: real, higher: real, n: nat)
    requires -1.0 < lower < higher && n > 0
    ensures Annuity(lower, n) > Annuity(higher, n)
  {
    if n > 1 {
      AnnuityDecreases(lower, higher, n - 1);
    }
    AnnuityPositive(higher, n - 1);
    Shrinks(1.0 + Annuity(lower, n - 1), 1.0 + Annuity(higher, n - 1), 1.0 + lower, 1.0 + higher);
  }

  lemma Shrinks(a: real, b: real, x: real, y: real)
    requires a >= b > 0.0 && 0.0 < x < y
    ensures a / x > b / y
  {
  }

  // Interest on a units stays within one unit.
  predicate InterestFits(rate: real, a: real) {
    rate * a <= 1.0
  }

  lemma BelowOneUnit(a: real, rate: real, f: real)
    requires f > 0.0 && IsClosedForm(a, rate, f)
    ensures InterestFits(rate, a)
  {
  }

  // Interest on what an annuity is worth never exceeds the unit it pays.
  lemma InterestBelowUnit(rate: real, n: nat)
    requires rate > -1.0
    ensures InterestFits(rate, Annuity(rate, n))
  {
    PowPositive(1.0 + rate, n);
    AnnuityClosedForm(rate, n);
    BelowOneUnit(Annuity(rate, n), rate, Pow(1.0 + rate, n));
  }

  // A growth factor over one or more months is 1 only at rate zero.
  lemma FactorIsNotOne(rate: real, n: nat)
    requires rate > -1.0 && rate != 0.0 && n > 0
    ensures Pow(1.0 + rate, n) != 1.0
  {
    if rate > 0.0 {
      PowAboveOne(1.0 + rate, n);
    } else {
      PowBelowOne(1.0 + rate, n);
    }
  }
}
