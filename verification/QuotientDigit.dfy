/** The arithmetic behind one step of `divmod`'s long division: how far the estimated
    quotient digit can be off, and what an add-back without carries computes. */
module QuotientDigit {
  import opened Digits

  function Cap(e: nat): (d: Digit)
    ensures d <= e
  {
    if e < BASE then e else BASE - 1
  }

  /** The quotient digit estimated from the leading three digits of the running
      remainder u and the leading two digits of an n-digit divisor v. */
  function Estimate(u: nat, v: nat, n: nat): (e: Digit)
    requires n >= 2 && Drop(v, n - 2) > 0
  {
    Cap(Quo(Drop(u, n - 2), Drop(v, n - 2)))
  }

  /** An n-digit divisor whose first digit is not zero. */
  predicate FullDivisor(v: nat, n: nat) {
    n >= 2 && Drop(v, n - 2) >= BASE
  }

  /** The running remainder is below the divisor times the base, so the true digit is a
      digit; the estimate is that digit or one more, and it is one more exactly when
      subtracting it underflows, by less than the weight of the divisor's second digit. */
  lemma EstimateOffByOne(u: nat, v: nat, n: nat)
    requires FullDivisor(v, n) && u < v * BASE
    ensures v > 0 && 0 <= Quo(u, v) < BASE
    ensures Quo(u, v) <= Estimate(u, v, n) <= Quo(u, v) + 1
    ensures Estimate(u, v, n) == Quo(u, v) + 1 <==> Estimate(u, v, n) * v > u
    ensures Estimate(u, v, n) * v - u < Scale(1, n - 1)
    ensures u == Quo(u, v) * v + Rem(u, v) && Rem(u, v) < v
    ensures Estimate(u, v, n) * v == Quo(u, v) * v + (if Estimate(u, v, n) == Quo(u, v) then 0 else v)
  {
    var k := n - 2;
    var e, q := Estimate(u, v, n), Quo(u, v);
    DivisorBound(v, k);
    QuoRest(u, v);
    MulCancel(q, BASE, v);
    CapFits(Drop(u, k), Drop(v, k));
    EstimateHigh(u, v, k, e);
    EstimateLow(u, v, k, e, q);
    WithinOne(e, q, u, v);
  }

  /** Subtracting the estimate from the leading digits alone does not underflow. */
  lemma CapFits(t: nat, w: nat)
    requires w > 0
    ensures Cap(Quo(t, w)) * w <= t
    ensures Cap(Quo(t, w)) == BASE - 1 || t < (Cap(Quo(t, w)) + 1) * w
  {
    var q, e: int := Quo(t, w), Cap(Quo(t, w));
    QuoRest(t, w);
    MulCancel(e, q, w);
    Distribute(w, q, 1, q + 1);
  }

  lemma WithinOne(e: int, q: int, u: int, v: int)
    requires q <= e && q * v <= u < q * v + v && e * v - u < v
    ensures e <= q + 1 && (e == q + 1 <==> e * v > u)
    ensures e * v == q * v + (if e == q then 0 else v)
  {
    Distribute(v, q, 2, q + 2);
    Distribute(v, q, 1, q + 1);
    MulCancel(e, q + 2, v);
  }

  lemma DivisorBound(v: nat, k: nat)
    requires Drop(v, k) >= BASE
    ensures v >= BASE * Scale(1, k) > 0 && Scale(1, k + 1) == BASE * Scale(1, k)
  {
    DropKeep(v, k);
    ScaleMono(BASE, Drop(v, k), k);
    ScaleStep(1, k);
  }

  lemma EstimateHigh(u: nat, v: nat, k: nat, e: Digit)
    requires e * Drop(v, k) <= Drop(u, k)
    ensures e * v - u < BASE * Scale(1, k)
  {
    var t, w := Drop(u, k), Drop(v, k);
    DropKeep(u, k);
    DropKeep(v, k);
    Distribute(e, Scale(w, k), Keep(v, k), v);
    ScaleMul(e, w, k);
    ScaleMono(e * w, t, k);
    MulMono(e, BASE, Keep(v, k));
  }

  lemma EstimateLow(u: nat, v: nat, k: nat, e: Digit, q: nat)
    requires v > 0 && q * v <= u && q < BASE
    requires e == BASE - 1 || Drop(u, k) < (e + 1) * Drop(v, k)
    ensures q <= e
  {
    if e < BASE - 1 {
      var t, w := Drop(u, k), Drop(v, k);
      DropKeep(u, k);
      DropKeep(v, k);
      Distribute(e + 1, Scale(w, k), Keep(v, k), v);
      MulMono(0, e + 1, Keep(v, k));
      ScaleMul(e + 1, w, k);
      ScaleMono(t, (e + 1) * w, k);
      MulCancel(q, e + 1, v);
    }
  }

  /** Digit-wise addition of the n low digits of x and y in which every carry is dropped. */
  function CarrylessSum(x: nat, y: nat, n: nat): nat {
    if n == 0 then 0
    else BASE * CarrylessSum(x / BASE, y / BASE, n - 1) + (x % BASE + y % BASE) % BASE
  }

  /** What the carries out of all digits but the top one are worth. */
  function Dropped(x: nat, y: nat, n: nat): nat {
    if n <= 1 then 0
    else BASE * ((if x % BASE + y % BASE >= BASE then 1 else 0) + Dropped(x / BASE, y / BASE, n - 1))
  }

  /** What is lost by dropping carries, over and above the carry out of the top digit. */
  lemma {:induction false} CarrylessLoses(x: nat, y: nat, n: nat)
    requires n >= 1 && Drop(x, n) == 0 && Drop(y, n) == 0
    requires Drop(x, n - 1) + Drop(y, n - 1) >= BASE
    ensures CarrylessSum(x, y, n) + Dropped(x, y, n) == x + y - Scale(1, n)
  {
    if n == 1 {
      assert CarrylessSum(x / BASE, y / BASE, 0) == 0;
    } else {
      CarrylessLoses(x / BASE, y / BASE, n - 1);
    }
  }

  /** The same sum taken one digit at a time from the low end upwards. */
  lemma {:induction false} CarrylessTop(x: Digit, xl: nat, y: Digit, yl: nat, k: nat, xs: nat, ys: nat)
    requires xl < Scale(1, k) && yl < Scale(1, k)
    requires xs == Scale(x, k) + xl && ys == Scale(y, k) + yl
    ensures CarrylessSum(xs, ys, k + 1) == Scale((x + y) % BASE, k) + CarrylessSum(xl, yl, k)
  {
    if k == 0 {
      assert CarrylessSum(xs / BASE, ys / BASE, 0) == 0;
    } else {
      ScaleDiv(x, xl, k, xs);
      ScaleDiv(y, yl, k, ys);
      CarrylessTop(x, xl / BASE, y, yl / BASE, k - 1, xs / BASE, ys / BASE);
      assert CarrylessSum(xs, ys, k + 1)
             == BASE * CarrylessSum(xs / BASE, ys / BASE, k) + (xl % BASE + yl % BASE) % BASE;
    }
  }

  lemma ScaleDiv(x: int, l: nat, k: nat, s: int)
    requires k > 0 && l < Scale(1, k) && s == Scale(x, k) + l
    ensures s / BASE == Scale(x, k - 1) + l / BASE && s % BASE == l % BASE
    ensures l / BASE < Scale(1, k - 1)
  {}
}
