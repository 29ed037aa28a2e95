/** `divmod`: unsigned 128-bit division with remainder by long division in base 2^32. */
module Divmod {
  import opened Bits
  import opened Digits
  import opened QuotientDigit
  import opened LongDivision
  import opened Normalise
  import opened DivisionLoop

  // ---------- what is to be computed, and when the code computes it ----------

  predicate Exact(a: nat, b: nat, q: nat, r: nat) {
    a == q * b + r && r < b
  }

  /** The operands shifted left until the divisor's first digit has its top bit set. */
  function Shift(b: nat): nat
    requires b > 0
  {
    LenSpan(b);
    Headroom(Drop(b, Len(b) - 1))
  }

  /** The operands on which the code's add-back, with its dropped carries, does no harm. */
  predicate CarriesKept(a: nat, b: nat)
    requires b > 0
  {
    a < b || Len(b) == 1 ||
    var n, v := Len(b), Double(b, Shift(b));
    NormalDivisor(b);
    LenMono(b, a);
    DoubleMono(0, a, Shift(b));
    KeptBefore(Double(a, Shift(b)), v, n, Len(a) - n, Len(a) - n + 1)
  }

  /** The operands on which the quotient is right: what the dropped carries are worth in the end is
      at most the true remainder. */
  predicate QuotientKept(a: nat, b: nat)
    requires b > 0
  {
    a < b || Len(b) == 1 ||
    var n, v, x := Len(b), Double(b, Shift(b)), Double(a, Shift(b));
    NormalDivisor(b);
    LenMono(b, a);
    DoubleMono(0, a, Shift(b));
    LostLittle(x, v, n, Len(a) - n)
  }

  predicate LostLittle(x: nat, v: nat, n: nat, m: nat)
    requires FullDivisor(v, n) && v > 0
  {
    Lost(x, v, n, m, m + 1) <= Rem(x, v)
  }

  /** The operands on which the remainder is right: what the dropped carries are worth is a multiple
      of the divisor, and no digit of the dividend is left over where an add-back took place. */
  predicate RemainderKept(a: nat, b: nat)
    requires b > 0
  {
    a < b || Len(b) == 1 ||
    var n, m, v, x := Len(b), Len(a) - Len(b), Double(b, Shift(b)), Double(a, Shift(b));
    NormalDivisor(b);
    LenMono(b, a);
    DoubleMono(0, a, Shift(b));
    LostMultiple(x, v, n, m)
  }

  predicate LostMultiple(x: nat, v: nat, n: nat, m: nat)
    requires FullDivisor(v, n) && v > 0
  {
    && Rem(Lost(x, v, n, m, m + 1), v) == 0
    && (LastAddBack(x, v, n, m, m + 1) == -1 || (LastAddBack(x, v, n, m, m + 1) == 0 && n + m == 4 && m > 0))
  }

  lemma NormalDivisor(b: nat)
    requires b > 0
    ensures Shift(b) < 32 && Len(b) > 0
    ensures b <= Double(b, Shift(b)) < Scale(1, Len(b))
    ensures Scale(BASE / 2, Len(b) - 1) <= Double(b, Shift(b))
    ensures Len(b) > 1 ==> FullDivisor(Double(b, Shift(b)), Len(b))
  {
    var n, d := Len(b), Shift(b);
    LenSpan(b);
    var t := Drop(b, n - 1);
    HeadroomFits(t);
    ShiftedBounds(b, t, n - 1, d);
    ScaleStep(1, n - 1);
    DoubleGrows(b, d);
    if n > 1 { NormalIsFull(Double(b, d), n); }
  }

  lemma ShiftedBounds(b: nat, t: nat, k: nat, d: nat)
    requires t == Drop(b, k) && BASE / 2 <= Double(t, d) < BASE && d <= 32
    ensures Scale(BASE / 2, k) <= Double(b, d) < Scale(BASE, k)
  {
    DropKeep(b, k);
    var l := Keep(b, k);
    DoubleAdd(Scale(t, k), l, d);
    DoubleScale(t, k, d);
    DoubleScale(1, k, d);
    DoubleMono(0, l, d);
    DoubleMono(l, Scale(1, k), d);
    TopFits(t, d);
    ScaleAdd(Double(t, d), Double(1, d), k);
    ScaleMono(Double(t, d) + Double(1, d), BASE, k);
    ScaleMono(BASE / 2, Double(t, d), k);
  }

  lemma {:induction false} DoubleGrows(x: nat, k: nat)
    ensures x <= Double(x, k)
  {
    if k > 0 { DoubleGrows(x, k - 1); }
  }

  /** A shifted digit below BASE leaves room for a whole 2^d. */
  lemma TopFits(t: nat, d: nat)
    requires Double(t, d) < BASE && d <= 32
    ensures Double(t, d) + Double(1, d) <= BASE
  {
    Double32(1);
    DoubleDouble(1, 32 - d, d);
    DoubleMono(t, Double(1, 32 - d), d);
    DoubleMono(Double(1, 32 - d), t, d);
  }

  lemma NormalIsFull(v: nat, n: nat)
    requires n > 1 && Scale(BASE / 2, n - 1) <= v
    ensures FullDivisor(v, n)
  {
    DropKeep(v, n - 2);
    ScaleStep(BASE / 2, n - 2);
    ScaleMono(Drop(v, n - 2), BASE * (BASE / 2), n - 2);
    ScaleMono(Drop(v, n - 2) + 1, BASE * (BASE / 2), n - 2);
    ScaleAdd(Drop(v, n - 2), 1, n - 2);
  }

  lemma {:induction false} LenMono(x: nat, y: nat)
    requires x <= y
    ensures Len(x) <= Len(y)
  {
    if x > 0 { LenMono(x / BASE, y / BASE); }
  }

  // ---------- from the arrays back to numbers ----------

  /** What the last part of the code does to the dividend array: with a shift it moves the
      digits of the rest back. */
  ghost predicate Denormalised(us: seq<Digit>, us': seq<Digit>, n: nat, d: nat) {
    && |us| == |us'| == 5 && 2 <= n <= 4 && d < 32
    && (forall x :: 0 <= x < 4 - n ==> us'[x] == us[x])
    && (d == 0 ==> us' == us)
    && (d > 0 ==> us'[4 - n] == 0 && Unshifted(us'[5 - n..], us[4 - n..], 32 - d))
  }

  lemma FineValue(a: nat, b: nat, q: nat, r: nat, rest: nat, e: nat, d: nat, lo: nat)
    requires Double(a, d) == q * Double(b, d) + rest + e && rest < Double(b, d) && d < 32
    requires if d == 0 then r == rest else lo < BASE && BASE * r + lo == Double(rest, 32 - d)
    ensures Exact(a, b, q, r) <==> e == 0
  {
    var x := a - q * b;
    DoubleAdd(x, q * b, d);
    DoubleTimes(q, b, d);
    DoubleAdd(rest, e, 32 - d);
    DoubleDouble(x, d, 32 - d);
    Double32(x);
    DoubleMono(b, x, d);
    DoubleMono(0, e, 32 - d);
    DoubleMono(x, -1, d);
    DoubleMono(-1, 0, d);
  }

  lemma FineExact(us: seq<Digit>, us': seq<Digit>, qs: seq<Digit>, ds: seq<Digit>, a: nat, b: nat, d: nat,
                  v: nat, n: nat, m: nat, e: nat, junk: int)
    requires v == Double(b, d) && Val(ds) == Double(a, d)
    requires Round(us, qs, ds, v, n, m, m + 1, e, junk)
    requires Denormalised(us, us', n, d)
    requires Harmless(junk, m)
    ensures Exact(a, b, Val(qs), Val(us'[1..])) <==> e == 0
  {
    var rest := Val(us[5 - n..]);
    assert us[5 - n..5] == us[5 - n..] && ds[..m + 1 + n] == ds;
    TimesIs(Val(qs), v);
    var lo := DenormalValue(us, us', n, d);
    FineValue(a, b, Val(qs), Val(us'[1..]), rest, e, d, lo);
  }

  /** Shifting back undoes the shift of a rest whose lowest bits are clear; lo is what falls out. */
  lemma DenormalValue(us: seq<Digit>, us': seq<Digit>, n: nat, d: nat) returns (lo: nat)
    requires Denormalised(us, us', n, d) && us[4 - n] == 0 && forall x :: 0 < x < 5 - n ==> us[x] == 0
    ensures if d == 0 then Val(us'[1..]) == Val(us[5 - n..])
            else lo < BASE && BASE * Val(us'[1..]) + lo == Double(Val(us[5 - n..]), 32 - d)
  {
    lo := 0;
    var w := us'[1..];
    assert w[4 - n..] == us'[5 - n..];
    assert forall x :: 0 <= x < 4 - n ==> w[x] == us'[x + 1] == 0;
    ValDropZeros(w, 4 - n);
    if d > 0 {
      var t := us[4 - n..];
      assert t[1..] == us[5 - n..] && t[0] == 0;
      ValDropZeros(t, 1);
      DoubleMono(0, 0, 32 - d);
      ScaleMono(0, 0, n + 1);
      lo := Lo(t[n], 32 - d);
    }
  }

  lemma SuffixAtMost(s: seq<Digit>, i: nat)
    requires i <= |s|
    ensures Val(s) >= Val(s[i..])
  {
    ValPrefix(s, i);
    ScaleMono(0, Val(s[..i]), |s| - i);
  }

  lemma DigitAtMost(s: seq<Digit>, i: nat)
    requires i < |s|
    ensures Val(s) >= Scale(s[i], |s| - 1 - i)
  {
    SuffixAtMost(s, i);
    ValHead(s[i..]);
  }

  /** A digit left at BASE - 1 above the rest makes the remainder as large as the divisor. */
  lemma JunkAbove(s: seq<Digit>, i: nat, n: nat, b: nat)
    requires |s| == 4 && i < 4 && s[i] == BASE - 1 && n <= 3 - i && b < Scale(1, n)
    ensures Val(s) >= b
  {
    DigitAtMost(s, i);
    ScaleMono(1, BASE - 1, 3 - i);
    ScaleUp(n, 3 - i);
  }

  lemma {:induction false} ScaleUp(n: nat, k: nat)
    requires n <= k
    ensures Scale(1, n) <= Scale(1, k)
    decreases k - n
  {
    if n < k {
      ScaleUp(n + 1, k);
      ScaleMono(0, 1, n);
    }
  }

  /** Shifted back, its low bits make the rest as large as the divisor. */
  lemma JunkShifted(low: seq<Digit>, s: seq<Digit>, d: nat, n: nat, b: nat)
    requires 0 < d < 32 && |low| == n > 0 && Unshifted(low, s, 32 - d) && s[0] == BASE - 1
    requires Double(b, d) < Scale(1, n)
    ensures Val(low) >= b
  {
    var e := 32 - d;
    var x: Digit := BASE - 1;
    ValHead(s);
    DoubleAdd(Scale(x, n), Val(s[1..]), e);
    DoubleScale(x, n, e);
    DoubleMono(0, Val(s[1..]), e);
    ScaleOut(Double(x, e), Hi(x, e), Lo(x, e), n);
    SurvivingBits(d);
    assert BASE * Val(low) + Lo(s[n], e) >= BASE * Scale(Lo(x, e), n - 1);
    LargeBack(Val(low), Lo(x, e), n, d, b);
  }

  lemma LargeBack(y: nat, lo: nat, n: nat, d: nat, b: nat)
    requires n > 0 && y >= Scale(lo, n - 1) && Double(lo, d) >= BASE && Double(b, d) < Scale(1, n)
    ensures y >= b
  {
    var low, high := Scale(lo, n - 1), Scale(BASE, n - 1);
    DoubleMono(low, y, d);
    assert Double(low, d) >= high by {
      DoubleScale(lo, n - 1, d);
      ScaleMono(BASE, Double(lo, d), n - 1);
    }
    assert high == Scale(1, n) by { ScaleStep(1, n - 1); }
    DoubleMono(y, b, d);
  }

  /** The low bits of BASE - 1 that survive a shift to the left, shifted on. */
  lemma SurvivingBits(d: nat)
    requires 0 < d < 32
    ensures Double(Lo(BASE - 1, 32 - d), d) >= BASE
  {
    var h := Double(1, 32 - d);
    AllOnesLow(32 - d);
    DoubleAdd(BASE - h, h, d);
    DoubleBase(1, d);
    DoubleDouble(1, 32 - d, d);
    Double32(1);
    DoubleMono(1, 2, d - 1);
    DoubleTwice(1, d - 1);
  }

  lemma AllOnesLow(e: nat)
    requires 0 < e < 32
    ensures Lo(BASE - 1, e) == BASE - Double(1, e)
  {
    var h := Double(1, e);
    DoubleAdd(BASE, -1, e);
    DoubleBase(1, e);
    DoubleAdd(1, -1, e);
    DoubleMono(0, 1, e);
    DoubleDouble(1, 32 - e, e);
    Double32(1);
    DoubleMono(1, Double(1, 32 - e), e);
    DoubleMono(0, 1, 32 - e);
    LowDigit(Double(BASE - 1, e), h - 1, BASE - h);
  }

  lemma LowDigit(x: int, q: int, r: int)
    requires x == BASE * q + r && 0 <= r < BASE
    ensures x % BASE == r
  {}

  lemma SpoiledInexact(us: seq<Digit>, us': seq<Digit>, qs: seq<Digit>, ds: seq<Digit>, b: nat, d: nat,
                       v: nat, n: nat, m: nat, e: nat, junk: int)
    requires v == Double(b, d) < Scale(1, n) && Round(us, qs, ds, v, n, m, m + 1, e, junk)
    requires Denormalised(us, us', n, d)
    requires junk >= 1 || (junk == 0 && m == 0 && d > 0)
    ensures Val(us'[1..]) >= b
  {
    DoubleGrows(b, d);
    if junk == 4 - n && d > 0 {
      JunkShifted(us'[5 - n..], us[4 - n..], d, n, b);
      SuffixAtMost(us'[1..], 4 - n);
      assert us'[1..][4 - n..] == us'[5 - n..];
    } else {
      JunkAbove(us'[1..], junk - 1, n, b);
    }
  }

  // ---------- the routine ----------

  /** A `thuge`: 128 bits in two unsigned 64-bit words. */
  datatype Huge = Huge(hi: Word64, lo: Word64)

  function Num(h: Huge): (x: nat)
    ensures x < WORD64 * WORD64
  {
    h.hi * WORD64 + h.lo
  }

  lemma FourDigits(s: seq<Digit>)
    requires |s| == 4
    ensures Val(s) == (s[0] * BASE + s[1]) * WORD64 + (s[2] * BASE + s[3])
  {
    assert ValTo(s, 4) == BASE * ValTo(s, 3) + s[3];
    assert ValTo(s, 3) == BASE * ValTo(s, 2) + s[2];
    assert ValTo(s, 2) == BASE * ValTo(s, 1) + s[1];
    assert ValTo(s, 1) == BASE * ValTo(s, 0) + s[0];
  }

  /** The digits of h after an empty first one, as `divmod` sets up its arrays. */
  method Load(h: Huge) returns (p: array<Digit>)
    ensures fresh(p) && p.Length == 5 && p[0] == 0 && Val(p[1..]) == Num(h)
  {
    p := new Digit[5] [0, h.hi / BASE, h.hi % BASE, h.lo / BASE, h.lo % BASE];
    FourDigits(p[1..]);
  }

  function Store(s: seq<Digit>): (h: Huge)
    requires |s| == 4
    ensures Num(h) == Val(s)
  {
    FourDigits(s);
    Huge(s[0] * BASE + s[1], s[2] * BASE + s[3])
  }

  /** Division by a single digit, which needs no estimate. */
  method ShortDivide(u: seq<Digit>, t: Digit) returns (q: seq<Digit>, rest: Digit)
    requires t > 0
    ensures |q| == |u| && Exact(Val(u), t, Val(q), rest)
  {
    q, rest := [], 0;
    var i := 0;
    assert Times(0, t) == 0;
    while i < |u|
      invariant 0 <= i <= |u| && |q| == i && rest < t
      invariant Times(Val(q), t) + rest == Val(u[..i])
    {
      var rbj := rest * BASE + u[i];
      QuoIsDiv(rbj, t);
      QuoRest(rbj, t);
      MulCancel(Quo(rbj, t), BASE, t);
      RoundValue(Val(q), Quo(rbj, t), t, rest, u[i], 0, rbj, Val(u[..i]));
      ValSnoc(q, Quo(rbj, t));
      ValSnoc(u[..i], u[i]);
      assert u[..i + 1] == u[..i] + [u[i]];
      q := q + [rbj / t];
      rest := rbj % t;
      i := i + 1;
    }
    assert u[..i] == u;
    TimesIs(Val(q), t);
  }

  /** The normalising shift, counted as the code does. */
  method CountShift(v1: Digit) returns (d: nat)
    requires v1 > 0
    ensures d == Headroom(v1)
  {
    d := 0;
    var t: int := v1;
    while t < BASE / 2
      invariant t > 0 && Headroom(v1) == d + Headroom(t)
      decreases BASE - t
    {
      t := t * 2;
      d := d + 1;
    }
  }

  lemma LeadingLen(s: seq<Digit>, n: nat)
    requires n > 0 && |s| == n && s[0] > 0
    ensures Len(Val(s)) == n && Drop(Val(s), n - 1) == s[0]
  {
    ValHead(s);
    ValBound(s);
    ValBound(s[1..]);
    ScaleMono(1, s[0], n - 1);
    LenBounds(Val(s), n);
    DropUnique(Val(s), n - 1, s[0], Val(s[1..]));
  }

  /** In a division of one round on full four-digit operands with no shift, the quotient is 1
      and the estimate never exceeds it. */
  lemma SingleRoundFits(a: nat, b: nat, u: nat)
    requires 0 < b <= a < Scale(1, 4) && Scale(BASE / 2, 3) <= b
    requires u == Remainder(a, b, 0, 0)
    ensures FullDivisor(b, 4) && Estimate(u, b, 4) == Quo(u, b)
  {
    NormalIsFull(b, 4);
    assert Scale(1, 4) == BASE * Scale(1, 3) && Scale(BASE / 2, 3) >= Scale(1, 3) by { ScaleMono(1, BASE / 2, 3); }
    assert Drop(a, 1) == a / BASE && Drop(a, 0) == a by { assert Drop(a / BASE, 0) == a / BASE; }
    assert Rem(a / BASE, b) == a / BASE;
    assert u == a;
    EstimateOffByOne(u, b, 4);
    DropKeep(a, 2);
    DropKeep(b, 2);
    var t, w := Drop(a, 2), Drop(b, 2);
    ScaleAdd(w, 1, 2);
    HalfOrMore(t, w);
    QuoAtMostOne(t, w);
    QuoAtLeastOne(a, b);
  }

  lemma HalfOrMore(t: nat, w: nat)
    requires Scale(t, 2) < Scale(1, 4) && Scale(w + 1, 2) > Scale(BASE / 2, 3)
    ensures t < 2 * w && w > 0
  {
    ScaleScale(1, 2, 2);
    ScaleScale(BASE / 2, 1, 2);
    assert Scale(1, 2) == BASE * BASE && Scale(BASE / 2, 1) == BASE * (BASE / 2);
    ScaleMono(BASE * BASE, t, 2);
    ScaleMono(w + 1, BASE * (BASE / 2), 2);
  }

  lemma QuoAtMostOne(t: nat, w: nat)
    requires w > 0 && t < 2 * w
    ensures Quo(t, w) <= 1
  {}

  lemma QuoAtLeastOne(a: nat, b: nat)
    requires 0 < b <= a
    ensures Quo(a, b) >= 1
  {}

  /** The normalised operands of a division with an n-digit divisor and m + 1 rounds. */
  ghost predicate Prepared(us: seq<Digit>, vs: seq<Digit>, a: nat, b: nat, n: nat, m: nat, d: nat) {
    && |us| == |vs| == 5 && n >= 2 && n + m <= 4 && b > 0
    && Len(b) == n && Len(a) == n + m && d == Shift(b)
    && (forall x :: 0 <= x < 4 - n - m ==> us[x] == 0)
    && Val(us[4 - n - m..]) == Double(a, d) && Val(vs[5 - n..]) == Double(b, d)
  }

  /** Before the first round the rest is below the divisor. */
  lemma PreparedStart(us: seq<Digit>, vs: seq<Digit>, a: nat, b: nat, n: nat, m: nat, d: nat)
    requires Prepared(us, vs, a, b, n, m, d)
    ensures Val(us[4 - n - m..4 - n - m + n]) < Val(vs[5 - n..]) && vs[5 - n] > 0
  {
    var s, v := us[4 - n - m..], vs[5 - n..];
    assert s[..n] == us[4 - n - m..4 - n - m + n];
    NormalDivisor(b);
    DividendTop(s, a, n, m, d);
    DivisorTop(v, b);
  }

  /** a has n + m digits and d is at most 31. */
  lemma DividendTop(s: seq<Digit>, a: nat, n: nat, m: nat, d: nat)
    requires |s| == n + m + 1 && n >= 2 && d < 32 && Val(s) == Double(a, d) && Len(a) == n + m
    ensures Val(s[..n]) < Scale(BASE / 2, n - 1)
  {
    LenSpan(a);
    ValPrefix(s, n);
    DoubleMono(a, Scale(1, n + m), d);
    DoubleScale(1, n + m, d);
    ShiftHalf(d);
    ScaleMono(Double(1, d), BASE / 2, n + m);
    ScaleScale(BASE / 2, n - 1, m + 1);
    ScaleMono(Scale(BASE / 2, n - 1), Val(s[..n]), m + 1);
  }

  lemma DivisorTop(v: seq<Digit>, b: nat)
    requires |v| == Len(b) && b > 0 && Val(v) == Double(b, Shift(b))
    ensures Val(v) >= Scale(BASE / 2, |v| - 1) && v[0] > 0
  {
    NormalDivisor(b);
    ValHead(v);
    ValBound(v[1..]);
    ScaleMono(v[0], 0, |v| - 1);
    ScaleMono(1, BASE / 2, |v| - 1);
  }

  lemma ShiftHalf(d: nat)
    requires d < 32
    ensures Double(1, d) <= BASE / 2
  {
    Double32(1);
    DoubleDouble(1, 31 - d, d);
    DoubleMono(1, 1, 31 - d);
    DoubleMono(1, Double(1, 31 - d), d);
    assert Double(1, 32) == 2 * Double(1, 31);
  }

  /** The end of a run: with all carries the result is exact; without them it is exact just
      when the run has stayed fine. */
  lemma RunExact(us: seq<Digit>, us': seq<Digit>, qs: seq<Digit>, ds: seq<Digit>, a: nat, b: nat, d: nat,
                 v: nat, n: nat, m: nat, e: nat, junk: int, wide: bool)
    requires b > 0 && Len(b) == n && Len(a) == n + m && a >= b && d == Shift(b)
    requires v == Double(b, d) && Val(ds) == Double(a, d)
    requires Running(us, qs, ds, v, n, m, m + 1, e, junk, wide) && Denormalised(us, us', n, d)
    ensures Exact(a, b, Val(qs), Val(us'[1..])) <==> Fine(e, junk, m)
  {
    NormalDivisor(b);
    if Harmless(junk, m) {
      FineExact(us, us', qs, ds, a, b, d, v, n, m, e, junk);
    } else if junk >= 1 || d > 0 {
      SpoiledInexact(us, us', qs, ds, b, d, v, n, m, e, junk);
    } else {
      NotSpoiled(us, qs, ds, a, b, v, n, e, junk, wide);
    }
  }

  /** A run of a single round without a shift is never spoiled. */
  lemma NotSpoiled(us: seq<Digit>, qs: seq<Digit>, ds: seq<Digit>, a: nat, b: nat, v: nat, n: nat, e: nat, junk: int,
                   wide: bool)
    requires 0 < b <= a && Len(b) == n && Len(a) == n && Shift(b) == 0 && v == Double(b, 0) && Val(ds) == Double(a, 0)
    requires Running(us, qs, ds, v, n, 0, 1, e, junk, wide)
    ensures junk != 0
  {
    if junk == 0 {
      LenSpan(a);
      NormalDivisor(b);
      SingleRoundKept(a, b);
    }
  }

  /** A quotient with a rest, and something lost. */
  lemma QuotientLoss(x: nat, v: nat, q: nat, r: nat, e: nat)
    requires v > 0 && q * v + r + e == x && r < v
    ensures q == Quo(x, v) <==> e <= Rem(x, v)
  {
    QuoRest(x, v);
    if e <= Rem(x, v) {
      QuoUnique(x - e, v, q, r);
      QuoUnique(x - e, v, Quo(x, v), Rem(x, v) - e);
    }
  }

  lemma RemainderLoss(x: nat, v: nat, q: nat, r: nat, e: nat)
    requires v > 0 && q * v + r + e == x && r < v
    ensures r == Rem(x, v) <==> Rem(e, v) == 0
  {
    QuoRest(x, v);
    QuoRest(e, v);
    if r == Rem(x, v) {
      TimesMore(v, q, Quo(x, v) - q, Quo(x, v));
      QuoUnique(e, v, Quo(x, v) - q, 0);
    }
    if Rem(e, v) == 0 {
      TimesMore(v, q, Quo(e, v), q + Quo(e, v));
      QuoUnique(x, v, q + Quo(e, v), r);
    }
  }

  lemma TimesMore(v: int, x: int, y: int, z: int)
    requires z == x + y
    ensures z * v == x * v + y * v
  {}

  /** Quotient and remainder of shifted operands. */
  lemma ShiftedQuotient(a: nat, b: nat, d: nat)
    requires b > 0 && Double(b, d) > 0 && Double(a, d) >= 0
    ensures Quo(Double(a, d), Double(b, d)) == Quo(a, b) && Rem(Double(a, d), Double(b, d)) == Double(Rem(a, b), d)
  {
    var q, r := Quo(a, b), Rem(a, b);
    QuoRest(a, b);
    assert Double(a, d) == q * Double(b, d) + Double(r, d) by {
      DoubleAdd(q * b, r, d);
      DoubleTimes(q, b, d);
    }
    DoubleMono(r, b, d);
    DoubleMono(0, r, d);
    QuoUnique(Double(a, d), Double(b, d), q, Double(r, d));
  }

  /** The rest, shifted back, is the true remainder if and only if it was before. */
  lemma ShiftedRest(a: nat, b: nat, q: nat, r: nat, rest: nat, f: nat, d: nat, lo: nat)
    requires Double(a, d) == q * Double(b, d) + rest + BASE * f && d < 32 && b > 0
    requires if d == 0 then r == rest else lo < BASE && BASE * r + lo == Double(rest, 32 - d)
    ensures r == Rem(a, b) <==> rest == Double(Rem(a, b), d)
  {
    var g := a - q * b - Double(f, 32 - d);
    DoubleAdd(g, q * b + Double(f, 32 - d), d);
    DoubleAdd(q * b, Double(f, 32 - d), d);
    DoubleTimes(q, b, d);
    DoubleDouble(f, 32 - d, d);
    Double32(f);
    assert rest == Double(g, d);
    DoubleDouble(g, d, 32 - d);
    Double32(g);
    assert d > 0 ==> r == g;
    DoubleMono(g, Rem(a, b), d);
    DoubleMono(Rem(a, b), g, d);
  }

  /** The end of a run that dropped carries: when the quotient is right. */
  lemma RunQuotient(us: seq<Digit>, qs: seq<Digit>, ds: seq<Digit>, a: nat, b: nat, d: nat, v: nat, n: nat, m: nat,
                    e: nat, junk: int)
    requires b > 0 && d < 32 && v == Double(b, d) > 0 && Val(ds) == Double(a, d)
    requires Round(us, qs, ds, v, n, m, m + 1, e, junk)
    ensures Val(qs) == Quo(a, b) <==> e <= Rem(Val(ds), v)
  {
    assert ds[..m + 1 + n] == ds;
    TimesIs(Val(qs), v);
    QuotientLoss(Val(ds), v, Val(qs), Val(us[4 - n - m + (m + 1)..4 - n - m + (m + 1) + n]), e);
    ShiftedQuotient(a, b, d);
  }

  /** And when the remainder is. */
  lemma RunRemainder(us: seq<Digit>, us': seq<Digit>, qs: seq<Digit>, ds: seq<Digit>, a: nat, b: nat, d: nat,
                     v: nat, n: nat, m: nat, e: nat, junk: int, f: nat)
    requires b > 0 && d < 32 && v == Double(b, d) > 0 && Val(ds) == Double(a, d) && e == BASE * f
    requires Round(us, qs, ds, v, n, m, m + 1, e, junk) && Denormalised(us, us', n, d)
    requires Harmless(junk, m)
    ensures Val(us'[1..]) == Rem(a, b) <==> Rem(e, v) == 0
  {
    var rest := Val(us[5 - n..]);
    assert us[5 - n..5] == us[5 - n..] && ds[..m + 1 + n] == ds;
    TimesIs(Val(qs), v);
    var lo := DenormalValue(us, us', n, d);
    RemainderLoss(Val(ds), v, Val(qs), rest, e);
    ShiftedQuotient(a, b, d);
    ShiftedRest(a, b, Val(qs), Val(us'[1..]), rest, f, d, lo);
  }

  lemma RunRest(us: seq<Digit>, us': seq<Digit>, qs: seq<Digit>, ds: seq<Digit>, a: nat, b: nat, d: nat,
                v: nat, n: nat, m: nat, e: nat, junk: int)
    requires b > 0 && Len(b) == n && Len(a) == n + m && a >= b && d == Shift(b)
    requires v == Double(b, d) && Val(ds) == Double(a, d)
    requires Running(us, qs, ds, v, n, m, m + 1, e, junk, false) && Denormalised(us, us', n, d)
    ensures Val(us'[1..]) == Rem(a, b) <==> Rem(e, v) == 0 && Harmless(junk, m)
  {
    NormalDivisor(b);
    if Harmless(junk, m) {
      var f := LostDigits(Val(ds), v, n, m, m + 1);
      RunRemainder(us, us', qs, ds, a, b, d, v, n, m, e, junk, f);
    } else {
      RunSpoiled(us, us', qs, ds, a, b, d, v, n, m, e, junk);
    }
  }

  lemma RunSpoiled(us: seq<Digit>, us': seq<Digit>, qs: seq<Digit>, ds: seq<Digit>, a: nat, b: nat, d: nat,
                   v: nat, n: nat, m: nat, e: nat, junk: int)
    requires b > 0 && Len(b) == n && Len(a) == n + m && a >= b && d == Shift(b)
    requires v == Double(b, d) && Val(ds) == Double(a, d) && !Harmless(junk, m)
    requires Running(us, qs, ds, v, n, m, m + 1, e, junk, false) && Denormalised(us, us', n, d)
    ensures Val(us'[1..]) != Rem(a, b)
  {
    NormalDivisor(b);
    QuoRest(a, b);
    if junk >= 1 || d > 0 {
      SpoiledInexact(us, us', qs, ds, b, d, v, n, m, e, junk);
    } else {
      NotSpoiled(us, qs, ds, a, b, v, n, e, junk, false);
    }
  }

  /** The state at the end as it was foretold. */
  lemma ForetoldEnd(us: seq<Digit>, ds: seq<Digit>, v: nat, n: nat, m: nat, e: nat, junk: int)
    requires Foretold(us, ds, v, n, m, m + 1, e, junk)
    ensures LostLittle(Val(ds), v, n, m) <==> e <= Rem(Val(ds), v)
    ensures LostMultiple(Val(ds), v, n, m) <==> Rem(e, v) == 0 && Harmless(junk, m)
  {}

  /** Both in terms of the shifted operands. */
  lemma RunParts(us: seq<Digit>, us': seq<Digit>, qs: seq<Digit>, ds: seq<Digit>, a: nat, b: nat, d: nat,
                 v: nat, n: nat, m: nat, e: nat, junk: int)
    requires b > 0 && Len(b) == n && Len(a) == n + m && a >= b && d == Shift(b)
    requires v == Double(b, d) && Val(ds) == Double(a, d)
    requires Running(us, qs, ds, v, n, m, m + 1, e, junk, false) && Denormalised(us, us', n, d)
    ensures Val(qs) == Quo(a, b) <==> LostLittle(Val(ds), v, n, m)
    ensures Val(us'[1..]) == Rem(a, b) <==> LostMultiple(Val(ds), v, n, m)
  {
    NormalDivisor(b);
    RunQuotient(us, qs, ds, a, b, d, v, n, m, e, junk);
    RunRest(us, us', qs, ds, a, b, d, v, n, m, e, junk);
    ForetoldEnd(us, ds, v, n, m, e, junk);
  }

  lemma KeptIn(a: nat, b: nat, x: nat, v: nat, n: nat, m: nat)
    requires b > 0 && Len(b) == n >= 2 && Len(a) == n + m && a >= b && v == Double(b, Shift(b))
             && x == Double(a, Shift(b))
    ensures FullDivisor(v, n) && v > 0
    ensures QuotientKept(a, b) == LostLittle(x, v, n, m) && RemainderKept(a, b) == LostMultiple(x, v, n, m)
  {
    NormalDivisor(b);
  }

  /** Widened sums leave both right. */
  lemma ExactParts(a: nat, b: nat, q: nat, r: nat)
    requires b > 0
    ensures Exact(a, b, q, r) <==> q == Quo(a, b) && r == Rem(a, b)
  {
    if Exact(a, b, q, r) { QuoUnique(a, b, q, r); }
    QuoRest(a, b);
  }

  lemma SingleRoundKept(a: nat, b: nat)
    requires 0 < b <= a < Scale(1, 4) && Scale(BASE / 2, 3) <= b
    ensures FullDivisor(b, 4) && KeptBefore(a, b, 4, 0, 1)
  {
    SingleRoundFits(a, b, Remainder(a, b, 0, 0));
    assert KeptBefore(a, b, 4, 0, 0) && StepKept(a, b, 4, 0, 0);
  }

  /** The part of the routine after the operands' leading zero digits have been skipped. */
  method LongDivide(u: array<Digit>, v: array<Digit>, n: nat, m: nat, wide: bool, ghost a: nat, ghost b: nat)
      returns (q: seq<Digit>)
    requires u.Length == v.Length == 5 && u != v && n >= 2 && n + m <= 4 && b > 0 && a >= b
    requires forall x :: 0 <= x <= 4 - n - m ==> u[x] == 0
    requires Val(u[5 - n - m..]) == a && Val(v[5 - n..]) == b && v[5 - n] > 0 && u[5 - n - m] > 0
    modifies u, v
    ensures |q| == m + 1
    ensures wide ==> Exact(a, b, Val(q), Val(u[1..]))
    ensures !wide ==> (Exact(a, b, Val(q), Val(u[1..])) <==> CarriesKept(a, b))
    ensures !wide ==> (Val(q) == Quo(a, b) <==> QuotientKept(a, b))
    ensures !wide ==> (Val(u[1..]) == Rem(a, b) <==> RemainderKept(a, b))
  {
    LeadingLen(v[5 - n..], n);
    LeadingLen(u[5 - n - m..], n + m);
    var d := CountShift(v[5 - n]);
    NormalDivisor(b);
    Normalised(u, v, n, m, d, a, b);
    ghost var ds, vd := u[4 - n - m..], Val(v[5 - n..]);
    PreparedStart(u[..], v[..], a, b, n, m, d);
    ghost var e, junk;
    q, e, junk := DivideDigits(u, v, n, m, wide);
    ghost var us := u[..];
    if d > 0 { UnshiftTail(u, n, d); }
    RunExact(us, u[..], q, ds, a, b, d, vd, n, m, e, junk, wide);
    if !wide {
      RunParts(us, u[..], q, ds, a, b, d, vd, n, m, e, junk);
      KeptIn(a, b, Val(ds), vd, n, m);
    }
  }

  /** The normalising shift of both operands. */
  method Normalised(u: array<Digit>, v: array<Digit>, n: nat, m: nat, d: nat, ghost a: nat, ghost b: nat)
    requires u.Length == v.Length == 5 && u != v && n >= 2 && n + m <= 4 && b > 0
    requires forall x :: 0 <= x <= 4 - n - m ==> u[x] == 0
    requires Val(u[5 - n - m..]) == a && Val(v[5 - n..]) == b
    requires Len(b) == n && Len(a) == n + m && d == Shift(b) < 32 && Double(b, d) < Scale(1, n)
    modifies u, v
    ensures Prepared(u[..], v[..], a, b, n, m, d)
  {
    NormaliseDividend(u, n + m, d, a);
    NormaliseDivisor(v, n, d, b);
  }

  /** The dividend gets one more digit for what is shifted out. */
  method NormaliseDividend(u: array<Digit>, len: nat, d: nat, ghost a: nat)
    requires u.Length == 5 && len <= 4 && d < 32
    requires (forall x :: 0 <= x <= 4 - len ==> u[x] == 0) && Val(u[5 - len..]) == a
    modifies u
    ensures (forall x :: 0 <= x < 4 - len ==> u[x] == 0) && Val(u[4 - len..]) == Double(a, d)
  {
    assert u[4 - len..] == [0] + u[5 - len..];
    ValCons(0, u[5 - len..]);
    ScaleMono(0, 0, len);
    if d > 0 {
      ShiftDividend(u, len, d);
    }
  }

  method ShiftDividend(u: array<Digit>, len: nat, d: nat)
    requires u.Length == 5 && len <= 4 && 0 < d < 32 && u[4 - len] == 0
    modifies u
    ensures forall x :: 0 <= x < 4 - len ==> u[x] == old(u[x])
    ensures Val(u[4 - len..]) == Double(old(Val(u[4 - len..])), d)
  {
    DoubleMono(0, 0, d);
    ScaleMono(0, 0, len + 1);
    assert Hi(0, d) == 0;
    ShiftTail(u, 4 - len, d);
  }

  method NormaliseDivisor(v: array<Digit>, n: nat, d: nat, ghost b: nat)
    requires v.Length == 5 && 0 < n <= 4 && d < 32 && Val(v[5 - n..]) == b && Double(b, d) < Scale(1, n)
    modifies v
    ensures Val(v[5 - n..]) == Double(b, d)
  {
    if d > 0 {
      ghost var v0 := v[5 - n];
      ShiftTail(v, 5 - n, d);
      NothingShiftedOut(v0, Val(v[5 - n..]), n, d);
    }
  }

  method UnshiftTail(u: array<Digit>, n: nat, d: nat)
    requires u.Length == 5 && 2 <= n <= 4 && 0 < d < 32
    modifies u
    ensures Denormalised(old(u[..]), u[..], n, d)
  {
    assert u[4 - n..4 - n + n + 1] == u[..][4 - n..];
    Denormalise(u, 4 - n, n, d);
    assert u[4 - n + 1..4 - n + n + 1] == u[..][5 - n..];
  }

  method ShiftTail(p: array<Digit>, off: nat, d: nat)
    requires p.Length == 5 && off < 5 && 0 < d < 32
    modifies p
    ensures forall x :: 0 <= x < off ==> p[x] == old(p[x])
    ensures Val(p[off..]) + Scale(Hi(old(p[off]), d), 5 - off) == Double(Val(old(p[off..])), d)
  {
    assert p[off..off + (4 - off) + 1] == p[off..];
    ShiftDigits(p, off, 4 - off, d);
    assert p[off..off + (4 - off) + 1] == p[off..];
  }

  lemma NothingShiftedOut(x: Digit, y: nat, n: nat, d: nat)
    requires d <= 32 && y + Scale(Hi(x, d), n) < Scale(1, n)
    ensures Scale(Hi(x, d), n) == 0
  {
    HiBound(x, d);
    ScaleMono(1, Hi(x, d), n);
    ScaleMono(0, 0, n);
  }

  lemma CompareHuge(a: Huge, b: Huge)
    ensures Num(a) < Num(b) <==> a.hi < b.hi || (a.hi == b.hi && a.lo < b.lo)
  {}

  /** `divmod`. The code's add-back is the one with `wide` false: quotient and remainder are then
      right on just the operands named, each and together. With sums widened first both are always. */
  method DivMod(a: Huge, b: Huge, wide: bool) returns (q: Huge, r: Huge)
    requires Num(b) > 0
    ensures wide ==> Exact(Num(a), Num(b), Num(q), Num(r))
    ensures !wide ==> (Exact(Num(a), Num(b), Num(q), Num(r)) <==> CarriesKept(Num(a), Num(b)))
    ensures !wide ==> (Num(q) == Quo(Num(a), Num(b)) <==> QuotientKept(Num(a), Num(b)))
    ensures !wide ==> (Num(r) == Rem(Num(a), Num(b)) <==> RemainderKept(Num(a), Num(b)))
  {
    CompareHuge(a, b);
    if a.hi < b.hi || (a.hi == b.hi && a.lo < b.lo) {
      assert Num(Huge(0, 0)) == 0;
      return Huge(0, 0), a;
    }
    var u := Load(a);
    var v := Load(b);
    var n := SkipZeros(v, Num(b));
    if n == 1 {
      assert v[5 - n..] == [v[4]];
      ValCons(v[4], []);
      var qs, rest := ShortDivide(u[1..], v[4]);
      LeadingLen(v[4..], 1);
      ExactParts(Num(a), Num(b), Num(Store(qs)), rest);
      return Store(qs), Huge(0, rest);
    }
    var la := SkipZeros(u, Num(a));
    LeadingLen(u[5 - la..], la);
    LeadingLen(v[5 - n..], n);
    LenMono(Num(b), Num(a));
    var m := la - n;
    var qs := LongDivide(u, v, n, m, wide, Num(a), Num(b));
    var qspace := seq(3 - m, _ => 0) + qs;
    ValDropZeros(qspace, 3 - m);
    assert qspace[3 - m..] == qs;
    q, r := Store(qspace), Store(u[1..]);
  }

  /** The number of digits from the first one that is not zero, with what is left of them. */
  method SkipZeros(p: array<Digit>, ghost x: nat) returns (n: nat)
    requires p.Length == 5 && p[0] == 0 && Val(p[1..]) == x && x > 0
    ensures 1 <= n <= 4 && p[5 - n] > 0 && Val(p[5 - n..]) == x
    ensures forall i :: 0 <= i < 5 - n ==> p[i] == 0
  {
    n := 4;
    ghost var w := p[1..];
    while p[5 - n] == 0
      invariant 1 <= n <= 4 && forall i :: 0 <= i < 4 - n ==> w[i] == 0
      decreases n
    {
      assert w[4 - n] == 0;
      NotAllZeros(w, n);
      n := n - 1;
    }
    assert w[4 - n..] == p[5 - n..];
    ValDropZeros(w, 4 - n);
    assert forall i :: 0 < i < 5 - n ==> p[i] == w[i - 1];
  }

  lemma NotAllZeros(w: seq<Digit>, n: nat)
    requires |w| == 4 && 1 <= n <= 4 && Val(w) > 0 && forall i :: 0 <= i < 5 - n ==> w[i] == 0
    ensures n > 1
  {
    if n == 1 {
      ValZeros(w);
    }
  }

  // ---------- which operands keep their carries ----------

  /** The running remainder is always below the divisor times the base. */
  lemma RemainderBound(x: nat, v: nat, m: nat, j: nat)
    requires v > 0 && j <= m
    ensures Remainder(x, v, m, j) < v * BASE
  {
    QuoRest(Drop(x, m - j + 1), v);
  }

  lemma {:induction false} TwoDigitKept(x: nat, v: nat, m: nat, j: nat)
    requires FullDivisor(v, 2) && v > 0 && j <= m + 1
    ensures KeptBefore(x, v, 2, m, j)
  {
    if j > 0 {
      TwoDigitKept(x, v, m, j - 1);
      var u := Remainder(x, v, m, j - 1);
      RemainderBound(x, v, m, j - 1);
      QuoRest(u, v);
      MulCancel(Quo(u, v), BASE, v);
    }
  }

  /** For divisors below 2^64 the estimate is never too large, so the code is exact on them. */
  lemma SmallDivisorsKept(a: nat, b: nat)
    requires 0 < b < WORD64
    ensures CarriesKept(a, b)
  {
    NormalDivisor(b);
    LenSpan(b);
    assert Scale(1, 2) == WORD64;
    if Len(b) > 2 { ScaleUp(2, Len(b) - 1); DropKeep(b, Len(b) - 1); ScaleMono(1, Drop(b, Len(b) - 1), Len(b) - 1); }
    if a >= b && Len(b) == 2 {
      LenMono(b, a);
      DoubleMono(0, a, Shift(b));
      TwoDigitKept(Double(a, Shift(b)), Double(b, Shift(b)), Len(a) - 2, Len(a) - 1);
    }
  }

  /** Operands on which the code's result is wrong: in the second round the estimate is one
      too large, and the add-back that follows drops its carries. */
  lemma CarriesDropped()
    ensures !CarriesKept(0x7fffffff_80000000_00000000_00000000, 0x80000000_00000000_00000001)
  {
    var a, b: nat := 0x7fffffff_80000000_00000000_00000000, 0x80000000_00000000_00000001;
    var a1, b1: nat := 0x7fffffff_80000000_00000000, 0x80000000_00000000;
    assert Scale(1, 2) == BASE * BASE && Scale(1, 3) == BASE * Scale(1, 2) && Scale(1, 4) == BASE * Scale(1, 3);
    LenBounds(a, 4);
    LenBounds(b, 3);
    assert Scale(BASE / 2, 1) == b1 && Scale(BASE / 2, 2) == BASE * b1;
    assert Scale(a1, 1) == a && Scale(b1, 1) == b - 1;
    DropUnique(b, 2, BASE / 2, 1);
    DropUnique(b, 1, b1, 1);
    DropUnique(a, 1, a1, 0);
    assert Shift(b) == 0 && Double(a, 0) == a && Double(b, 0) == b;
    assert Rem(a1, b) == a1;
    assert Remainder(a, b, 1, 1) == a;
    QuoUnique(a, b, 0xffff_fffe, a - 0xffff_fffe * b);
    QuoUnique(a1, b1, 0xffff_ffff, 0);
    NormalDivisor(b);
    assert Estimate(a, b, 3) != Quo(a, b);
    assert !StepKept(a, b, 3, 1, 1);
    assert !KeptBefore(a, b, 3, 1, 2);
  }
}
