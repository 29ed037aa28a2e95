/** `divmod`'s digit loops: they work in place on a dividend array and a divisor array
    (`u` and `v`, addressed from a moving base index where the code moves a pointer). */
module LongDivision {
  import opened Digits
  import opened QuotientDigit

  type Word64 = x: int | 0 <= x < WORD64

  /** The value an unsigned 64-bit variable holds after being assigned x. */
  function Wrap64(x: int): (r: Word64) {
    x % WORD64
  }

  lemma WrapId(x: int)
    requires 0 <= x < WORD64
    ensures Wrap64(x) == x
  {}

  /** The borrow that the code computes from the high half of a wrapped difference. */
  function Borrow(w: Word64): int {
    (BASE - w / BASE) % BASE
  }

  /** Of a difference that goes below zero by less than 2^64, the low half of the wrapped
      word and that borrow give back the exact value. */
  lemma WrapBorrow(x: int)
    requires -WORD64 + BASE <= x < BASE
    ensures x == Wrap64(x) % BASE - Borrow(Wrap64(x)) * BASE
    ensures 0 <= Borrow(Wrap64(x)) < BASE
    ensures x < 0 <==> Wrap64(x) / BASE != 0
  {
    if x < 0 {
      assert Wrap64(x) == x + WORD64;
      assert 1 <= Wrap64(x) / BASE < BASE;
    } else {
      assert Wrap64(x) == x;
    }
  }

  // ---------- the quotient digit ----------

  lemma EstimateStart(nn: int, uj0: Digit, uj1: Digit, uj2: Digit, v1: Digit, v2: Digit, h: int, r: int)
    requires uj0 < v1 && nn == uj0 * BASE + uj1 && nn == h * v1 + r && 0 <= r < v1
    ensures 0 <= h < BASE && nn * BASE + uj2 < (h + 1) * (v1 * BASE + v2)
  {
    MulCancel(h, BASE, v1);
    MulCancel(-1, h, v1);
    Distribute(v1, h, 1, h + 1);
    Assoc(h + 1, v1, BASE);
    Distribute(h + 1, v1 * BASE, v2, v1 * BASE + v2);
    MulMono(0, h + 1, v2);
  }

  /** How far the estimate qhat overshoots, in the code's terms and in terms of the
      leading digits. */
  lemma EstimateGap(nn: int, uj2: int, v1: int, v2: int, t: int, w: int, qhat: int, rhat: int)
    requires t == nn * BASE + uj2 && w == v1 * BASE + v2 && rhat == nn - qhat * v1
    ensures t - qhat * w == rhat * BASE + uj2 - v2 * qhat
  {
    Assoc(qhat, v1, BASE);
    Distribute(qhat, v1 * BASE, v2, w);
  }

  lemma WrapProduct(x: Digit, y: int)
    requires 0 <= y <= BASE
    ensures 0 <= x * y <= (BASE - 1) * y
    ensures Wrap64(x * y) == x * y
    ensures y == 0 ==> x * y == 0
  {
    MulMono(0, x, y);
    MulMono(x, BASE - 1, y);
  }

  lemma QuotientIs(t: nat, w: nat, e: int)
    requires w > 0 && 0 <= e < BASE && e * w <= t && (e == BASE - 1 || t < (e + 1) * w)
    ensures e == Cap(Quo(t, w))
  {
    if t < (e + 1) * w {
      Distribute(w, e, 1, e + 1);
      QuoUnique(t, w, e, t - e * w);
    } else {
      QuoRest(t, w);
      Distribute(w, Quo(t, w), 1, Quo(t, w) + 1);
      MulCancel(e, Quo(t, w) + 1, w);
    }
  }

  /** The estimate that the correction loop leaves behind, entered at its body or at its test. */
  function Corrected(atBody: bool, qhat: int, rhat: int, uj2: Digit, v1: Digit, v2: Digit): int
    requires v1 > 0 && rhat < BASE
    decreases BASE - rhat
  {
    if !atBody && Wrap64(v2 * qhat) <= rhat * BASE + uj2 then qhat
    else if rhat + v1 >= BASE then qhat - 1
    else Corrected(false, qhat - 1, rhat + v1, uj2, v1, v2)
  }

  /** Estimate of a quotient digit from three dividend and two divisor digits, with the
      jump into the middle of the correction loop written as a flag. */
  method EstimateDigit(uj0: Digit, uj1: Digit, uj2: Digit, v1: Digit, v2: Digit) returns (qhat: int)
    requires 0 < v1 && uj0 <= v1
    ensures qhat == Cap(Quo((uj0 * BASE + uj1) * BASE + uj2, v1 * BASE + v2))
  {
    var rhat: int;
    var qhatTooBig := false;
    if uj0 == v1 {
      qhat := BASE;
      rhat := uj1;
      qhatTooBig := true;
    } else {
      var nn := uj0 * BASE + uj1;
      qhat := nn / v1;
      rhat := nn % v1;
      QuoIsDiv(nn, v1);
      EstimateStart(nn, uj0, uj1, uj2, v1, v2, qhat, rhat);
    }
    CorrectedIsEstimate(uj0 * BASE + uj1, uj2, v1, v2, (uj0 * BASE + uj1) * BASE + uj2, v1 * BASE + v2,
                        qhatTooBig, qhat, rhat);
    ghost var goal := Corrected(qhatTooBig, qhat, rhat, uj2, v1, v2);
    while qhatTooBig || Wrap64(v2 * qhat) > rhat * BASE + uj2
      invariant rhat < BASE && goal == Corrected(qhatTooBig, qhat, rhat, uj2, v1, v2)
      decreases BASE - rhat
    {
      qhatTooBig := false;
      qhat := qhat - 1;
      rhat := rhat + v1;
      if rhat >= BASE { break; }
    }
  }

  lemma {:induction false} CorrectedIsEstimate(nn: nat, uj2: Digit, v1: Digit, v2: Digit, t: nat, w: nat,
                                               atBody: bool, qhat: int, rhat: int)
    requires 0 < v1 && 0 <= rhat < BASE && 0 <= qhat && rhat == nn - qhat * v1
    requires t == nn * BASE + uj2 && w == v1 * BASE + v2
    requires atBody ==> qhat == BASE
    requires !atBody ==> qhat < BASE && (qhat == BASE - 1 || t < (qhat + 1) * w)
    ensures Corrected(atBody, qhat, rhat, uj2, v1, v2) == Cap(Quo(t, w))
    decreases BASE - rhat
  {
    WrapProduct(v2, qhat);
    EstimateGap(nn, uj2, v1, v2, t, w, qhat, rhat);
    if !atBody && v2 * qhat <= rhat * BASE + uj2 {
      QuotientIs(t, w, qhat);
    } else {
      assert atBody || t < qhat * w;
      StepDown(nn, uj2, v1, v2, t, w, qhat - 1, rhat + v1);
      if rhat + v1 < BASE {
        CorrectedIsEstimate(nn, uj2, v1, v2, t, w, false, qhat - 1, rhat + v1);
      }
    }
  }

  /** After a decrement that leaves rhat at BASE or above no further one is needed. */
  lemma StepDown(nn: nat, uj2: Digit, v1: Digit, v2: Digit, t: nat, w: nat, e: int, rhat: int)
    requires 0 < v1 && 0 <= e && rhat == nn - (e + 1) * v1 + v1
    requires t == nn * BASE + uj2 && w == v1 * BASE + v2
    requires e == BASE - 1 || (e < BASE && t < (e + 1) * w)
    ensures rhat == nn - e * v1
    ensures rhat >= BASE ==> e == Cap(Quo(t, w))
  {
    Distribute(v1, e, 1, e + 1);
    if rhat >= BASE {
      WrapProduct(v2, e);
      EstimateGap(nn, uj2, v1, v2, t, w, e, rhat);
      QuotientIs(t, w, e);
    }
  }

  // ---------- multiply and subtract ----------

  lemma SubDigitRange(x: Digit, d: Digit, qhat: Digit, t: int)
    requires 0 <= t < BASE
    ensures -WORD64 + BASE <= x - d * qhat - t < BASE
  {
    WrapProduct(d, qhat);
  }

  /** One machine step of the subtraction: the digit stored and the borrow handed on. */
  function SubDigit(x: Digit, d: Digit, qhat: Digit, t: int): (r: (Digit, int))
    requires 0 <= t < BASE
    ensures x - d * qhat - t == r.0 - r.1 * BASE && 0 <= r.1 < BASE
  {
    var diff := x - d * qhat - t;
    SubDigitRange(x, d, qhat, t);
    WrapBorrow(diff);
    var w := Wrap64(diff);
    (w % BASE, Borrow(w))
  }

  /** What the digits handled so far have to satisfy: low is s minus qhat times d, with
      borrow t still owed. */
  ghost predicate Subtracted(low: seq<Digit>, t: int, s: seq<Digit>, d: seq<Digit>, qhat: int) {
    |low| == |s| == |d| && Val(low) - Scale(t, |low|) == Val(s) - qhat * Val(d)
  }

  lemma SubtractedStep(low: seq<Digit>, t: int, s: seq<Digit>, d: seq<Digit>, qhat: int, lo: Digit, t': int)
    requires s != [] && d != [] && Subtracted(low, t, s[1..], d[1..], qhat)
    requires s[0] - d[0] * qhat - t == lo - t' * BASE
    ensures Subtracted([lo] + low, t', s, d, qhat)
  {
    var k := |low|;
    ValCons(lo, low);
    ValHead(s);
    ValHead(d);
    ScaleMul(qhat, d[0], k);
    Distribute(qhat, Scale(d[0], k), Val(d[1..]), Val(d));
    ScaleDigit(s[0], qhat * d[0], t, lo, t', k);
  }

  lemma {:induction false} ScaleDigit(x: int, y: int, t: int, lo: int, t': int, k: nat)
    requires x - y - t == lo - t' * BASE
    ensures Scale(x, k) - Scale(y, k) - Scale(t, k) == Scale(lo, k) - Scale(t', k + 1)
  {
    if k > 0 { ScaleDigit(x, y, t, lo, t', k - 1); }
  }

  lemma SubtractedTop(low: seq<Digit>, t: int, s: seq<Digit>, d: seq<Digit>, qhat: int, lo: Digit)
    requires s != [] && Subtracted(low, t, s[1..], d, qhat)
    requires lo == s[0] - t + (if s[0] < t then BASE else 0)
    ensures s[0] < t <==> Val(s) < qhat * Val(d)
    ensures Val([lo] + low) == Val(s) - qhat * Val(d) + (if s[0] < t then Scale(1, |s|) else 0)
  {
    var k := |low|;
    ValCons(lo, low);
    ValHead(s);
    ValBound(low);
    ScaleMono(s[0], t, k);
    ScaleMono(t, s[0], k);
    if s[0] < t { ScaleDigit(s[0], t, 0, lo, 1, k); } else { ScaleDigit(s[0], t, 0, lo, 0, k); }
  }

  /** The loop over the n divisor digits; what it still owes goes to the digit at w. */
  method MulSubDigits(u: array<Digit>, w: nat, v: array<Digit>, kv: nat, n: nat, qhat: Digit) returns (t: int)
    requires w + n < u.Length && kv + n < v.Length && u != v
    modifies u
    ensures forall x :: 0 <= x < u.Length && !(w < x <= w + n) ==> u[x] == old(u[x])
    ensures 0 <= t < BASE
    ensures Subtracted(u[w + 1..w + n + 1], t, old(u[w + 1..w + n + 1]), v[kv + 1..kv + n + 1], qhat)
  {
    ghost var s := u[w + 1..w + n + 1];
    ghost var d := v[kv + 1..kv + n + 1];
    var i := n;
    t := 0;
    while i > 0
      invariant 0 <= i <= n && 0 <= t < BASE
      invariant forall x :: 0 <= x < u.Length && !(w + i < x <= w + n) ==> u[x] == old(u[x])
      invariant Subtracted(u[w + i + 1..w + n + 1], t, s[i..], d[i..], qhat)
    {
      ghost var low, t0 := u[w + i + 1..w + n + 1], t;
      var step := SubDigit(u[w + i], v[kv + i], qhat, t);
      u[w + i] := step.0;
      t := step.1;
      assert s[i - 1..][1..] == s[i..] && d[i - 1..][1..] == d[i..];
      assert u[w + i..w + n + 1] == [u[w + i]] + low;
      SubtractedStep(low, t0, s[i - 1..], d[i - 1..], qhat, u[w + i], t);
      i := i - 1;
    }
    assert s[0..] == s && d[0..] == d;
  }

  /** Subtracts qhat times the divisor from the window of n + 1 dividend digits at w. */
  method MulSub(u: array<Digit>, w: nat, v: array<Digit>, kv: nat, n: nat, qhat: Digit) returns (borrow: bool)
    requires w + n < u.Length && kv + n < v.Length && u != v
    modifies u
    ensures forall x :: 0 <= x < u.Length && !(w <= x <= w + n) ==> u[x] == old(u[x])
    ensures borrow <==> Val(old(u[w..w + n + 1])) < qhat * Val(v[kv + 1..kv + n + 1])
    ensures Val(u[w..w + n + 1]) == Val(old(u[w..w + n + 1])) - qhat * Val(v[kv + 1..kv + n + 1])
                                    + (if borrow then Scale(1, n + 1) else 0)
  {
    ghost var s := u[w..w + n + 1];
    var t := MulSubDigits(u, w, v, kv, n, qhat);
    ghost var low, t0 := u[w + 1..w + n + 1], t;
    WrapBorrow(u[w] - t);
    t := Wrap64(u[w] - t);
    u[w] := t % BASE;
    borrow := t / BASE != 0;
    assert s[1..] == old(u[w + 1..w + n + 1]);
    assert u[w..w + n + 1] == [u[w]] + low;
    SubtractedTop(low, t0, s, v[kv + 1..kv + n + 1], qhat, u[w]);
  }

  // ---------- add back ----------

  /** low is the sum of s and d: with `wide` the exact sum, apart from a carry t still to be
      added; without it the sum with every carry dropped. */
  ghost predicate Added(low: seq<Digit>, t: int, s: seq<Digit>, d: seq<Digit>, wide: bool) {
    |low| == |s| == |d| &&
    if wide then 0 <= t <= 1 && Val(low) + Scale(t, |low|) == Val(s) + Val(d)
    else t == 0 && Val(low) == CarrylessSum(Val(s), Val(d), |low|)
  }

  lemma AddedStep(low: seq<Digit>, t: int, s: seq<Digit>, d: seq<Digit>, wide: bool, lo: Digit, t': int)
    requires s != [] && d != [] && Added(low, t, s[1..], d[1..], wide)
    requires if wide then 0 <= t' <= 1 && s[0] + d[0] + t == lo + t' * BASE
             else t' == 0 && lo == (s[0] + d[0]) % BASE
    ensures Added([lo] + low, t', s, d, wide)
  {
    var k := |low|;
    ValCons(lo, low);
    ValHead(s);
    ValHead(d);
    if wide {
      ScaleCarry(s[0], d[0], t, lo, t', k);
    } else {
      ValBound(s[1..]);
      ValBound(d[1..]);
      CarrylessTop(s[0], Val(s[1..]), d[0], Val(d[1..]), k, Val(s), Val(d));
    }
  }

  lemma AddedTop(low: seq<Digit>, t: int, s: seq<Digit>, d: seq<Digit>, lo: Digit, c: int)
    requires s != [] && Added(low, t, s[1..], d, true)
    requires s[0] + t == lo + c * BASE && 0 <= c <= 1
    ensures Val([lo] + low) + Scale(c, |s|) == Val(s) + Val(d)
  {
    ValCons(lo, low);
    ValHead(s);
    ScaleCarry(s[0], 0, t, lo, c, |low|);
    ScaleMono(0, 0, |low|);
  }

  /** The loop over the n divisor digits. The code adds the two 32-bit digits before widening
      the sum to the 64 bits of t: that is the form with `wide` false. */
  method AddBackDigits(u: array<Digit>, w: nat, v: array<Digit>, kv: nat, n: nat, wide: bool) returns (t: int)
    requires w + n < u.Length && kv + n < v.Length && u != v
    modifies u
    ensures forall x :: 0 <= x < u.Length && !(w < x <= w + n) ==> u[x] == old(u[x])
    ensures Added(u[w + 1..w + n + 1], t, old(u[w + 1..w + n + 1]), v[kv + 1..kv + n + 1], wide)
  {
    ghost var s := u[w + 1..w + n + 1];
    ghost var d := v[kv + 1..kv + n + 1];
    var i := n;
    t := 0;
    while i > 0
      invariant 0 <= i <= n
      invariant forall x :: 0 <= x < u.Length && !(w + i < x <= w + n) ==> u[x] == old(u[x])
      invariant Added(u[w + i + 1..w + n + 1], t, s[i..], d[i..], wide)
    {
      ghost var low, t0 := u[w + i + 1..w + n + 1], t;
      t := t + (if wide then u[w + i] + v[kv + i] else (u[w + i] + v[kv + i]) % BASE);
      u[w + i] := t % BASE;
      t := t / BASE;
      assert s[i - 1..][1..] == s[i..] && d[i - 1..][1..] == d[i..];
      assert u[w + i..w + n + 1] == [u[w + i]] + low;
      AddedStep(low, t0, s[i - 1..], d[i - 1..], wide, u[w + i], t);
      i := i - 1;
    }
    assert s[0..] == s && d[0..] == d;
  }

  /** r is x, or x without a carry of weight n digits. */
  ghost predicate Without(r: int, n: nat, x: int) {
    r == x || r + Scale(1, n) == x
  }

  /** Adds the divisor back to the window at w. */
  method AddBack(u: array<Digit>, w: nat, v: array<Digit>, kv: nat, n: nat, wide: bool)
    requires w + n < u.Length && kv + n < v.Length && u != v
    modifies u
    ensures forall x :: 0 <= x < u.Length && !(w <= x <= w + n) ==> u[x] == old(u[x])
    ensures !wide ==> u[w] == old(u[w])
    ensures !wide ==> Val(u[w + 1..w + n + 1])
                      == CarrylessSum(Val(old(u[w + 1..w + n + 1])), Val(v[kv + 1..kv + n + 1]), n)
    ensures wide ==> Without(Val(u[w..w + n + 1]), n + 1, Val(old(u[w..w + n + 1])) + Val(v[kv + 1..kv + n + 1]))
  {
    ghost var s := u[w..w + n + 1];
    var t := AddBackDigits(u, w, v, kv, n, wide);
    ghost var low, top := u[w + 1..w + n + 1], u[w] + t;
    u[w] := (u[w] + t) % BASE;
    assert s[1..] == old(u[w + 1..w + n + 1]);
    assert u[w + 1..w + n + 1] == low;
    assert u[w..w + n + 1] == [u[w]] + low;
    if wide {
      AddedTop(low, t, s, v[kv + 1..kv + n + 1], u[w], top / BASE);
      ScaleMono(0, 0, n + 1);
    }
  }

  lemma {:induction false} ScaleCarry(x: int, y: int, t: int, lo: int, t': int, k: nat)
    requires x + y + t == lo + t' * BASE
    ensures Scale(x, k) + Scale(y, k) + Scale(t, k) == Scale(lo, k) + Scale(t', k + 1)
  {
    if k > 0 { ScaleCarry(x, y, t, lo, t', k - 1); }
  }

  // ---------- one quotient digit ----------

  /** The low digits left in the window when the divisor has been subtracted once too often. */
  function Underflowed(u: nat, v: nat, n: nat): int
    requires v > 0
  {
    Rem(u, v) - v + Scale(1, n)
  }

  lemma LeadingDigits(s: seq<Digit>, n: nat)
    requires n >= 2 && |s| == n + 1
    ensures Drop(Val(s), n - 2) == (s[0] * BASE + s[1]) * BASE + s[2]
  {
    ValPrefix(s, 3);
    assert ValTo(s[..3], 3) == BASE * ValTo(s[..3], 2) + s[2];
    assert ValTo(s[..3], 2) == BASE * ValTo(s[..3], 1) + s[1];
    assert ValTo(s[..3], 1) == BASE * ValTo(s[..3], 0) + s[0];
  }

  lemma LeadingDigits2(s: seq<Digit>, n: nat)
    requires n >= 2 && |s| == n
    ensures Drop(Val(s), n - 2) == s[0] * BASE + s[1]
  {
    ValPrefix(s, 2);
    assert ValTo(s[..2], 2) == BASE * ValTo(s[..2], 1) + s[1];
    assert ValTo(s[..2], 1) == BASE * ValTo(s[..2], 0) + s[0];
  }

  /** The window after the subtraction: with or without a borrow. */
  lemma WindowAfter(u: nat, v: nat, n: nat, s: seq<Digit>)
    requires FullDivisor(v, n) && u < v * BASE && v < Scale(1, n) && |s| == n + 1
    requires Val(s) == u - Estimate(u, v, n) * v + (if u < Estimate(u, v, n) * v then Scale(1, n + 1) else 0)
    ensures u >= Estimate(u, v, n) * v ==> s[0] == 0 && Val(s[1..]) == Rem(u, v)
    ensures u < Estimate(u, v, n) * v ==> s[0] == BASE - 1 && Val(s[1..]) == Underflowed(u, v, n)
  {
    EstimateOffByOne(u, v, n);
    ValHead(s);
    ValBound(s[1..]);
    ScaleMono(0, 0, n);
    ScaleMono(s[0], BASE - 1, n);
    ScaleMono(BASE - 1, s[0], n);
    ScaleMono(1, s[0], n);
    ScaleStep(1, n);
    ScaleMono(0, 1, n - 1);
    ScaleMinusOne(n);
  }

  lemma {:induction false} ScaleMinusOne(k: nat)
    ensures Scale(BASE - 1, k) == Scale(1, k + 1) - Scale(1, k)
  {
    if k > 0 { ScaleMinusOne(k - 1); }
  }

  /** After an add-back with all its carries the window holds the exact rest. */
  lemma WideRest(u: nat, v: nat, n: nat, x: int, s: seq<Digit>)
    requires FullDivisor(v, n) && u < v * BASE && v < Scale(1, n) && |s| == n + 1
    requires u < Estimate(u, v, n) * v && x == u - Estimate(u, v, n) * v + Scale(1, n + 1)
    requires Without(Val(s), n + 1, x + v)
    ensures s[0] == 0 && Val(s[1..]) == Rem(u, v)
  {
    EstimateOffByOne(u, v, n);
    ValBound(s);
    ValHead(s);
    ScaleMono(0, s[0], n);
  }

  /** After an add-back that drops carries, it holds that rest without what they are worth. */
  lemma NarrowRest(u: nat, v: nat, n: nat)
    requires FullDivisor(v, n) && u < v * BASE && v < Scale(1, n)
    requires u < Estimate(u, v, n) * v
    ensures 0 <= Underflowed(u, v, n) < Scale(1, n)
    ensures CarrylessSum(Underflowed(u, v, n), v, n) + Dropped(Underflowed(u, v, n), v, n) == Rem(u, v)
  {
    EstimateOffByOne(u, v, n);
    var x := Underflowed(u, v, n);
    ScaleMono(0, 1, n - 1);
    ScaleMinusOne(n - 1);
    NarrowTop(x, v, n);
  }

  lemma NarrowTop(x: int, v: nat, n: nat)
    requires FullDivisor(v, n) && v < Scale(1, n) && Scale(BASE - 1, n - 1) <= x < Scale(1, n)
    ensures x >= 0 && CarrylessSum(x, v, n) + Dropped(x, v, n) == x + v - Scale(1, n)
  {
    ScaleMono(0, BASE - 1, n - 1);
    ScaleMinusOne(n - 1);
    DropUnique(x, n - 1, BASE - 1, x - Scale(BASE - 1, n - 1));
    ScaleMono(0, 0, n);
    DropUnique(x, n, 0, x);
    DropUnique(v, n, 0, v);
    TopNotZero(v, n);
    CarrylessLoses(x, v, n);
  }

  lemma TopNotZero(v: nat, n: nat)
    requires FullDivisor(v, n)
    ensures Drop(v, n - 1) >= 1
  {
    DropStep(v, n - 2);
  }

  lemma {:induction false} DropStep(x: nat, k: nat)
    ensures Drop(x, k + 1) == Drop(x, k) / BASE
  {
    if k > 0 { DropStep(x / BASE, k - 1); }
  }

  /** One round of the division loop: the n + 1 digits at w are the running remainder and the
      next dividend digit; the code returns the quotient digit and leaves the rest. */
  method DivideStep(u: array<Digit>, w: nat, v: array<Digit>, kv: nat, n: nat, wide: bool) returns (qd: Digit)
    requires n >= 2 && w + n < u.Length && kv + n < v.Length && u != v && v[kv + 1] > 0
    requires Val(u[w..w + n]) < Val(v[kv + 1..kv + n + 1])
    modifies u
    ensures forall x :: 0 <= x < u.Length && !(w <= x <= w + n) ==> u[x] == old(u[x])
    ensures FullDivisor(Val(v[kv + 1..kv + n + 1]), n) && Val(v[kv + 1..kv + n + 1]) > 0
    ensures var uw, d := Val(old(u[w..w + n + 1])), Val(v[kv + 1..kv + n + 1]);
            && uw < d * BASE
            && qd == Quo(uw, d)
            && if wide || Estimate(uw, d, n) == qd
               then u[w] == 0 && Val(u[w + 1..w + n + 1]) == Rem(uw, d)
               else && u[w] == BASE - 1
                    && 0 <= Underflowed(uw, d, n)
                    && Val(u[w + 1..w + n + 1]) + Dropped(Underflowed(uw, d, n), d, n) == Rem(uw, d)
  {
    ghost var s, d := u[w..w + n + 1], v[kv + 1..kv + n + 1];
    ghost var uw, dv := Val(s), Val(d);
    assert s[..n] == u[w..w + n];
    StepReady(s, d, n);
    var qhat := EstimateDigit(u[w], u[w + 1], u[w + 2], v[kv + 1], v[kv + 2]);
    assert qhat == Estimate(uw, dv, n);
    EstimateOffByOne(uw, dv, n);
    var borrow := MulSub(u, w, v, kv, n, qhat);
    ghost var s1 := u[w..w + n + 1];
    assert s1[1..] == u[w + 1..w + n + 1];
    WindowAfter(uw, dv, n, s1);
    if borrow {
      qhat := qhat - 1;
      NarrowRest(uw, dv, n);
      AddBack(u, w, v, kv, n, wide);
      assert u[w..w + n + 1][1..] == u[w + 1..w + n + 1];
      if wide { WideRest(uw, dv, n, Val(s1), u[w..w + n + 1]); }
    }
    assert qhat == Quo(uw, dv);
    qd := qhat;
  }

  lemma StepReady(s: seq<Digit>, d: seq<Digit>, n: nat)
    requires n >= 2 && |s| == n + 1 && |d| == n && d[0] > 0
    requires Val(s[..n]) < Val(d)
    ensures FullDivisor(Val(d), n) && Val(d) < Scale(1, n) && Val(s) < Val(d) * BASE
    ensures s[0] <= d[0]
    ensures Estimate(Val(s), Val(d), n) == Cap(Quo((s[0] * BASE + s[1]) * BASE + s[2], d[0] * BASE + d[1]))
  {
    LeadingDigits(s, n);
    LeadingDigits2(d, n);
    ValBound(d);
    ValHead(s[..n]);
    ValHead(d);
    ValBound(d[1..]);
    ScaleMono(d[0], s[0], n - 1);
    ValSnoc(s[..n], s[n]);
    assert s == s[..n] + [s[n]];
  }
}
