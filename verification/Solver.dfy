/** Bracketed bisection shared by IRR and dealer-fee unmasking
    (backend/engine/finance/_solver.py). Works for increasing and decreasing
    functions alike, because it compares signs with the low end's. */
module Solver {
  import opened RealMath

  const DEFAULT_TOL := 0.000000001
  const DEFAULT_BRACKET_TOL := 0.000000000001
  const DEFAULT_MAX_ITER: nat := 200

  // Both strictly positive or both strictly negative.
  predicate SameSide(a: real, b: real) {
    (a > 0.0 && b > 0.0) || (a < 0.0 && b < 0.0)
  }

  lemma ProductSign(a: real, b: real)
    ensures a * b > 0.0 <==> SameSide(a, b)
  {
  }

  // A width after n halvings.
  function Halved(width: real, n: nat): real {
    if n == 0 then width else Halved(width, n - 1) / 2.0
  }

  lemma {:induction false} HalvedIsPowerOfTwo(width: real, n: nat)
    ensures Halved(width, n) * Pow(2.0, n) == width
  {
    if n != 0 {
      HalvedIsPowerOfTwo(width, n - 1);
      assert Halved(width, n) * Pow(2.0, n) == Halved(width, n) * 2.0 * Pow(2.0, n - 1);
    }
  }

  lemma {:induction false} TwosOutgrowTens(k: nat)
    ensures Pow(10.0, 3 * k) > 0.0 && Pow(2.0, 10 * k) >= Pow(10.0, 3 * k)
    ensures k > 0 ==> Pow(2.0, 10 * k) > Pow(10.0, 3 * k)
  {
    if k != 0 {
      TwosOutgrowTens(k - 1);
      PowSplits(2.0, 10, 10 * (k - 1));
      PowSplits(10.0, 3, 3 * (k - 1));
      FirstPowers();
      assert 10 + 10 * (k - 1) == 10 * k && 3 + 3 * (k - 1) == 3 * k;
      ScaledProduct(Pow(2.0, 10 * (k - 1)), Pow(10.0, 3 * (k - 1)));
    }
  }

  lemma FirstPowers()
    ensures Pow(2.0, 10) == 1024.0 && Pow(10.0, 3) == 1000.0
  {
    assert Pow(2.0, 3) == 8.0;
    assert Pow(2.0, 5) == 2.0 * 2.0 * Pow(2.0, 3);
    assert Pow(2.0, 7) == 2.0 * 2.0 * Pow(2.0, 5);
    assert Pow(2.0, 9) == 2.0 * 2.0 * Pow(2.0, 7);
  }

  lemma ScaledProduct(a: real, b: real)
    requires a >= b > 0.0
    ensures 1024.0 * a > 1000.0 * b
  {
  }

  // Two hundred halvings take any width below 10^48 under the bracket tolerance.
  lemma TwoHundredHalvings(width: real)
    requires width < Pow(10.0, 48)
    ensures Halved(width, 200) < 0.000000000001
  {
    HalvedIsPowerOfTwo(width, 200);
    TwosOutgrowTens(20);
    PowSplits(10.0, 48, 12);
    TrillionIsPower();
    PowPositive(10.0, 48);
    SmallFactor(Halved(width, 200), Pow(2.0, 200), width, Pow(10.0, 48));
  }

  lemma TrillionIsPower()
    ensures Pow(10.0, 12) == 1000000000000.0
  {
    FirstPowers();
    PowSplits(10.0, 3, 3);
    PowSplits(10.0, 6, 6);
  }

  lemma SmallFactor(x: real, p: real, width: real, w: real)
    requires x * p == width < w && p > w * 1000000000000.0 && w > 0.0
    ensures x < 0.000000000001
  {
    if x >= 0.000000000001 {
      MulMono(0.000000000001, x, p);
    }
  }

  // The low end is still on the side of the target it started on, and the high end, once moved, is not.
  ghost predicate KeepsSides(fn: real -> Option<real>, target: real, start: real, end: real, low: real, high: real) {
    && fn(start).Some? && fn(low).Some?
    && (low == start || SameSide(fn(low).value - target, fn(start).value - target))
    && (high == end || (fn(high).Some? && !SameSide(fn(high).value - target, fn(start).value - target)))
  }

  // The search went no further than it had to: an end it moved was not within `tol`, and the bracket it last
  // halved was at least `bracketTol` wide.
  ghost predicate StopsFirst(fn: real -> Option<real>, target: real, tol: real, bracketTol: real,
                             start: real, end: real, low: real, high: real) {
    && (low == start || (fn(low).Some? && Abs(fn(low).value - target) >= tol))
    && (high == end || (fn(high).Some? && Abs(fn(high).value - target) >= tol))
    && (high - low == end - start || 2.0 * (high - low) >= bracketTol)
  }

  ghost predicate Searching(fn: real -> Option<real>, target: real, tol: real, bracketTol: real,
                            start: real, end: real, low: real, high: real) {
    && start <= low <= high <= end
    && KeepsSides(fn, target, start, end, low, high)
    && StopsFirst(fn, target, tol, bracketTol, start, end, low, high)
  }

  // A midpoint that misses the tolerance becomes the end on its side.
  lemma HalvingKeepsSearching(fn: real -> Option<real>, target: real, tol: real, bracketTol: real,
                              start: real, end: real, low: real, high: real)
    requires Searching(fn, target, tol, bracketTol, start, end, low, high) && high - low >= bracketTol
    requires var mid := (low + high) / 2.0; fn(mid).Some? && Abs(fn(mid).value - target) >= tol
    ensures var mid := (low + high) / 2.0;
      if SameSide(fn(mid).value - target, fn(low).value - target) then
        Searching(fn, target, tol, bracketTol, start, end, mid, high)
      else
        Searching(fn, target, tol, bracketTol, start, end, low, mid)
  {
  }

  // The midpoints the search visits from a bracket lead, within n halvings and before any of the tolerances
  // is met, to one where the function raises.
  predicate Raises(fn: real -> Option<real>, low: real, high: real, target: real, tol: real, bracketTol: real, n: nat)
    requires fn(low).Some?
    decreases n
  {
    var mid := (low + high) / 2.0;
    && n != 0 && high - low >= bracketTol
    && (|| fn(mid).None?
        || (Abs(fn(mid).value - target) >= tol
            && if SameSide(fn(mid).value - target, fn(low).value - target) then
                 Raises(fn, mid, high, target, tol, bracketTol, n - 1)
               else
                 Raises(fn, low, mid, target, tol, bracketTol, n - 1)))
  }

  // A function that raises at a point answers None there, and the search stops with it. Otherwise the result
  // is the middle of a bracket that still separates the sides; its residual is below `tol`, or the bracket
  // is narrower than `bracketTol` or as narrow as `maxIter` halvings make it, and it stops as soon as one is.
  method Bisect(fn: real -> Option<real>, a: real, b: real, target: real, tol: real, bracketTol: real, maxIter: nat)
    returns (x: Option<real>, ghost low: real, ghost high: real)
    ensures x.None? <==>
      fn(Min(a, b)).None? || Raises(fn, Min(a, b), Max(a, b), target, tol, bracketTol, maxIter)
    ensures x.None? ==> exists z :: Min(a, b) <= z <= Max(a, b) && fn(z).None?
    ensures x.Some? ==> Min(a, b) <= x.value <= Max(a, b)
    ensures x.Some? ==>
      && x.value == (low + high) / 2.0
      && Searching(fn, target, tol, bracketTol, Min(a, b), Max(a, b), low, high)
      && (|| (fn(x.value).Some? && Abs(fn(x.value).value - target) < tol)
          || high - low < bracketTol
          || high - low == Halved(Max(a, b) - Min(a, b), maxIter))
  {
    var lo, hi := a, b;
    if lo > hi {
      lo, hi := hi, lo;
    }
    ghost var start, end := lo, hi;
    if fn(lo).None? {
      return None, lo, hi;
    }
    var fLow := fn(lo).value - target;
    for i := 0 to maxIter
      invariant Searching(fn, target, tol, bracketTol, start, end, lo, hi) && fLow == fn(lo).value - target
      invariant hi - lo == Halved(end - start, i)
      invariant Raises(fn, start, end, target, tol, bracketTol, maxIter)
            <==> Raises(fn, lo, hi, target, tol, bracketTol, maxIter - i)
    {
      var mid := (lo + hi) / 2.0;
      if hi - lo < bracketTol {
        return Some(mid), lo, hi;
      }
      if fn(mid).None? {
        return None, lo, hi;
      }
      var fMid := fn(mid).value - target;
      if Abs(fMid) < tol {
        return Some(mid), lo, hi;
      }
      ProductSign(fMid, fLow);
      HalvingKeepsSearching(fn, target, tol, bracketTol, start, end, lo, hi);
      if fMid * fLow > 0.0 {
        lo, fLow := mid, fMid;
      } else {
        hi := mid;
      }
    }
    return Some((lo + hi) / 2.0), lo, hi;
  }
}
