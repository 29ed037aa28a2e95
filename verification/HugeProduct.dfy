/** Multiplication of 128-bit numbers from 64-bit products, and when it is exact. */
module HugeProduct {
  import opened Digits
  import opened LongDivision
  import opened Divmod
  import opened HugeInt

  /** The products of the halves of two low words, added up as the code does it: the two mixed ones
      without the carry of their sum, and that carry. */
  function Middle(hl: int, lh: int): Word64 {
    Wrap64(hl + lh)
  }

  /** `hmul`. The last carry is looked for in a sum with the product of the high halves. */
  function Hmul(a: Huge, b: Huge): Huge {
    var hh, hl := a.lo / BASE * (b.lo / BASE), a.lo / BASE * (b.lo % BASE);
    var lh := a.lo % BASE * (b.lo / BASE);
    var carry := Middle(hl, lh);
    var hi := a.hi * b.lo + b.hi * a.lo + HighPart(hh, hl, carry);
    Huge(Wrap64(hi), Wrap64(a.lo * b.lo))
  }

  /** What the low words contribute to the high word. */
  function HighPart(hh: int, hl: int, carry: Word64): int {
    (if carry < hl then BASE else 0) + carry / BASE + hh + (if Wrap64(hh + Wrap64(carry * BASE)) < hh then 1 else 0)
  }

  /** The low half of the middle sum, shifted up, makes a carry together with p. */
  predicate Carries(carry: Word64, p: int) {
    carry % BASE * BASE + p >= WORD64
  }

  /** The carry that is looked for is the one that there is. */
  predicate SameCarry(x: Word64, y: Word64) {
    var carry := Middle(x / BASE * (y % BASE), x % BASE * (y / BASE));
    Carries(carry, x % BASE * (y % BASE)) == Carries(carry, x / BASE * (y / BASE))
  }

  lemma ProductFits(x: int, y: int)
    requires 0 <= x < BASE && 0 <= y < BASE
    ensures 0 <= x * y <= WORD64 - 2 * BASE + 1
  {
    MulMono(x, BASE - 1, y);
    MulMono(0, x, y);
    assert (BASE - 1) * y <= (BASE - 1) * (BASE - 1);
  }

  lemma DistributeBase(a: int, b: int, c: int)
    ensures a * (b * BASE + c) == a * b * BASE + a * c
  {
    Distribute(a, b * BASE, c, b * BASE + c);
    assert a * (b * BASE) == a * b * BASE;
  }

  lemma FourProducts(xh: int, xl: int, yh: int, yl: int)
    ensures (xh * BASE + xl) * (yh * BASE + yl) == xh * yh * WORD64 + (xh * yl + xl * yh) * BASE + xl * yl
  {
    var y := yh * BASE + yl;
    DistributeBase(y, xh, xl);
    DistributeBase(xh, yh, yl);
    DistributeBase(xl, yh, yl);
    assert y * xh == xh * y && y * xl == xl * y;
  }

  lemma WrapShifted(carry: Word64)
    ensures Wrap64(carry * BASE) == carry % BASE * BASE
  {
    var q, r := carry / BASE, carry % BASE;
    assert carry * BASE == q * WORD64 + r * BASE;
  }

  lemma WrapOnce(x: int)
    requires 0 <= x < 2 * WORD64
    ensures Wrap64(x) == if x >= WORD64 then x - WORD64 else x
  {}

  /** The product of the low words by words: what the code calls the high part is too small or too
      large by one when the two carries differ. */
  lemma LowProduct(hh: int, hl: int, lh: int, ll: int, carry: Word64)
    requires 0 <= hh <= WORD64 - 2 * BASE + 1 && 0 <= hl <= WORD64 - 2 * BASE + 1
    requires 0 <= lh <= WORD64 - 2 * BASE + 1 && 0 <= ll <= WORD64 - 2 * BASE + 1
    requires carry == Middle(hl, lh)
    ensures var d := (if Carries(carry, ll) then 1 else 0) - if Carries(carry, hh) then 1 else 0;
            var rest := carry % BASE * BASE + ll - if Carries(carry, ll) then WORD64 else 0;
            0 <= rest < WORD64 && hh * WORD64 + (hl + lh) * BASE + ll == (HighPart(hh, hl, carry) + d) * WORD64 + rest
  {
    WrapOnce(hl + lh);
    WrapShifted(carry);
    var s: int := carry % BASE * BASE;
    assert 0 <= s <= WORD64 - BASE;
    WrapOnce(hh + s);
    assert carry < hl <==> hl + lh >= WORD64;
    assert carry * BASE == carry / BASE * WORD64 + s;
  }

  lemma WholeProduct(a: Huge, b: Huge)
    ensures Num(a) * Num(b) == a.hi * b.hi * RANGE + (a.hi * b.lo + b.hi * a.lo) * WORD64 + a.lo * b.lo
  {
    var ah: int, al: int, bh: int, bl: int := a.hi, a.lo, b.hi, b.lo;
    ByWords(ah, al, bh, bl);
  }

  lemma ByWords(ah: int, al: int, bh: int, bl: int)
    ensures (ah * WORD64 + al) * (bh * WORD64 + bl) == ah * bh * RANGE + (ah * bl + bh * al) * WORD64 + al * bl
  {
    var y := bh * WORD64 + bl;
    Distribute(y, ah * WORD64, al, ah * WORD64 + al);
    Distribute(ah, bh * WORD64, bl, y);
    Distribute(al, bh * WORD64, bl, y);
    assert y * (ah * WORD64) == ah * y * WORD64;
    assert ah * (bh * WORD64) == ah * bh * WORD64;
    assert al * (bh * WORD64) == bh * al * WORD64;
  }

  /** The product is exact modulo 2^128 if and only if the two carries agree. */
  lemma MulExact(a: Huge, b: Huge)
    ensures Num(Hmul(a, b)) == Num(a) * Num(b) % RANGE <==> SameCarry(a.lo, b.lo)
  {
    var xh, xl, yh, yl := a.lo / BASE, a.lo % BASE, b.lo / BASE, b.lo % BASE;
    ProductFits(xh, yh);
    ProductFits(xh, yl);
    ProductFits(xl, yh);
    ProductFits(xl, yl);
    FourProducts(xh, xl, yh, yl);
    var carry := Middle(xh * yl, xl * yh);
    LowProduct(xh * yh, xh * yl, xl * yh, xl * yl, carry);
    WholeProduct(a, b);
    DropRange(a.hi * b.hi, (a.hi * b.lo + b.hi * a.lo) * WORD64 + a.lo * b.lo);
    Compared(a.hi * b.lo + b.hi * a.lo, a.lo * b.lo, HighPart(xh * yh, xh * yl, carry),
             (if Carries(carry, xl * yl) then 1 else 0) - if Carries(carry, xh * yh) then 1 else 0,
             carry % BASE * BASE + xl * yl - if Carries(carry, xl * yl) then WORD64 else 0);
  }

  /** A high word that is off by d is right only if d is 0. */
  lemma Compared(cross: int, low: int, high: int, d: int, rest: Word64)
    requires -1 <= d <= 1 && low == (high + d) * WORD64 + rest
    ensures Num(Huge(Wrap64(cross + high), Wrap64(low))) == (cross * WORD64 + low) % RANGE <==> d == 0
  {
    assert Wrap64(low) == rest;
    assert cross * WORD64 + low == (cross + high + d) * WORD64 + rest;
    if d == 0 {
      WordsModulo(cross + high, rest);
    } else {
      OffByOne(cross + high, rest, d);
    }
  }

  /** Factors whose low words have 32 bits are multiplied exactly. */
  lemma SmallFactorsExact(a: Huge, b: Huge)
    requires a.lo < BASE && b.lo < BASE
    ensures SameCarry(a.lo, b.lo)
  {
    ProductFits(a.lo, b.lo);
    assert a.lo / BASE == 0 && b.lo / BASE == 0;
    assert Middle(0, 0) == 0;
  }

  /** Even a multiplication by 3 can lose the carry. */
  lemma CarryMissed()
    ensures var a, b := Huge(0, 0x5555_5555_ffff_ffff), Huge(0, 3);
            Num(Hmul(a, b)) == 0x1_ffff_fffd && Num(a) * Num(b) == WORD64 + 0x1_ffff_fffd
  {}
}
