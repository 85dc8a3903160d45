/** Exact-real arithmetic shared by the engine modules: the source's floats are
    modelled as `real`, its `**` with an integer exponent as `Pow`, and a Python
    list sum as `SumTo`, the sum of the first n entries. */
module RealMath {

  datatype Option<+T> = None | Some(value: T)

  datatype Result<+T, +E> = Success(value: T) | Failure(error: E)

  function Min(a: real, b: real): real {
    if a <= b then a else b
  }

  function Max(a: real, b: real): real {
    if a >= b then a else b
  }

  function Abs(a: real): real {
    if a < 0.0 then -a else a
  }

  function Uniform(x: real, n: nat): (r: seq<real>)
    ensures |r| == n
  {
    seq(n, _ => x)
  }

  // ---- prefix sums ----

  function SumTo(xs: seq<real>, n: nat): real
    requires n <= |xs|
  {
    if n == 0 then 0.0 else SumTo(xs, n - 1) + xs[n - 1]
  }

  function Sum(xs: seq<real>): real {
    SumTo(xs, |xs|)
  }

  lemma {:induction false} SumToAgree(xs: seq<real>, ys: seq<real>, n: nat)
    requires n <= |xs| && n <= |ys|
    requires forall i :: 0 <= i < n ==> xs[i] == ys[i]
    ensures SumTo(xs, n) == SumTo(ys, n)
  {
    if n != 0 {
      SumToAgree(xs, ys, n - 1);
    }
  }

  lemma {:induction false} SumToConcat(xs: seq<real>, ys: seq<real>, n: nat)
    requires n <= |ys|
    ensures SumTo(xs + ys, |xs| + n) == Sum(xs) + SumTo(ys, n)
  {
    if n == 0 {
      SumToAgree(xs + ys, xs, |xs|);
    } else {
      SumToConcat(xs, ys, n - 1);
    }
  }

  lemma {:induction false} SumToNonNegative(xs: seq<real>, n: nat)
    requires n <= |xs|
    requires forall i :: 0 <= i < n ==> xs[i] >= 0.0
    ensures SumTo(xs, n) >= 0.0
  {
    if n != 0 {
      SumToNonNegative(xs, n - 1);
    }
  }

  // ---- products and quotients the solver does not find alone ----

  lemma MulMono(a: real, b: real, c: real)
    requires a <= b && c >= 0.0
    ensures a * c <= b * c
  {
  }

  lemma MulMonoStrict(a: real, b: real, c: real)
    requires a < b && c > 0.0
    ensures a * c < b * c
  {
  }

  lemma MulNonNegative(a: real, b: real)
    requires a >= 0.0 && b >= 0.0
    ensures a * b >= 0.0
  {
  }

  lemma DivMul(a: real, b: real)
    requires b != 0.0
    ensures a / b * b == a
  {
  }

  // a / b is the only solution of q * b == a
  lemma DivUnique(a: real, b: real, q: real)
    requires b != 0.0 && q * b == a
    ensures a / b == q
  {
  }

  lemma DivMono(a: real, b: real, c: real)
    requires a <= b && c > 0.0
    ensures a / c <= b / c
    ensures a < b ==> a / c < b / c
  {
  }

  lemma DivReflects(a: real, b: real, c: real)
    requires c > 0.0 && a / c <= b / c
    ensures a <= b
  {
  }

  lemma DivSum(a: real, b: real, c: real)
    requires c != 0.0
    ensures (a + b) / c == a / c + b / c
  {
  }

  // v is a times b, named so that a product can be passed on without being taken apart.
  predicate IsProduct(v: real, a: real, b: real) {
    v == a * b
  }

  lemma NoZeroProduct(a: real, b: real)
    requires a != 0.0 && b != 0.0
    ensures a * b != 0.0
  {
  }

  lemma PriceAdds(price: real, before: real, now: real)
    ensures price * (before + now) == price * before + price * now
  {
  }

  // ---- integer powers ----

  function Pow(x: real, n: nat): real {
    if n == 0 then 1.0 else x * Pow(x, n - 1)
  }

  lemma {:induction false} PowPositive(x: real, n: nat)
    requires x > 0.0
    ensures Pow(x, n) > 0.0
  {
    if n != 0 {
      PowPositive(x, n - 1);
    }
  }

  lemma {:induction false} PowIsNotZero(x: real, n: nat)
    requires x != 0.0
    ensures Pow(x, n) != 0.0
  {
    if n != 0 {
      PowIsNotZero(x, n - 1);
      NoZeroProduct(x, Pow(x, n - 1));
    }
  }

  lemma {:induction false} PowAboveOne(x: real, n: nat)
    requires x > 1.0 && n > 0
    ensures Pow(x, n) > 1.0
  {
    if n == 1 {
      assert Pow(x, 1) == x * Pow(x, 0);
    } else {
      PowAboveOne(x, n - 1);
      MulMonoStrict(1.0, Pow(x, n - 1), x);
    }
  }

  lemma {:induction false} PowBelowOne(x: real, n: nat)
    requires 0.0 < x < 1.0 && n > 0
    ensures 0.0 < Pow(x, n) <= x
  {
    if n == 1 {
      assert Pow(x, 1) == x * Pow(x, 0);
    } else {
      PowBelowOne(x, n - 1);
      MulMonoStrict(Pow(x, n - 1), 1.0, x);
    }
  }

  lemma {:induction false} PowAtLeastOne(x: real, n: nat)
    requires x >= 1.0
    ensures Pow(x, n) >= 1.0
  {
    if n != 0 {
      PowAtLeastOne(x, n - 1);
      MulMono(1.0, Pow(x, n - 1), x);
    }
  }

  lemma {:induction false} PowAtMostOne(x: real, n: nat)
    requires 0.0 < x <= 1.0
    ensures Pow(x, n) <= 1.0
  {
    if n != 0 {
      PowAtMostOne(x, n - 1);
      MulMono(Pow(x, n - 1), 1.0, x);
    }
  }

  lemma {:induction false} PowRises(x: real, y: real, n: nat)
    requires 0.0 < x < y && n > 0
    ensures Pow(x, n) < Pow(y, n)
  {
    if n == 1 {
      assert Pow(x, 1) == x * Pow(x, 0) && Pow(y, 1) == y * Pow(y, 0);
    } else {
      PowRises(x, y, n - 1);
      PowPositive(x, n - 1);
      MulMonoStrict(x, y, Pow(x, n - 1));
      MulMonoStrict(Pow(x, n - 1), Pow(y, n - 1), y);
    }
  }

  lemma {:induction false} PowSplits(x: real, m: nat, n: nat)
    ensures IsProduct(Pow(x, m + n), Pow(x, m), Pow(x, n))
  {
    if m != 0 {
      PowSplits(x, m - 1, n);
      Reassociate(x, Pow(x, m - 1), Pow(x, n), Pow(x, m - 1 + n));
    }
  }

  lemma Reassociate(a: real, b: real, c: real, bc: real)
    requires IsProduct(bc, b, c)
    ensures IsProduct(a * bc, a * b, c)
  {
  }
}
