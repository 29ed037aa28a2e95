/** The signed 128-bit operations built on pairs of 64-bit words, and which of them are exact. */
module HugeInt {
  import opened Bits
  import opened Digits
  import opened LongDivision
  import opened Divmod

  const RANGE: int := WORD64 * WORD64

  /** The sign bit, and the value in two's complement. */
  predicate Sign(h: Huge) {
    h.hi >= WORD64 / 2
  }

  function Signed(h: Huge): (x: int)
    ensures -RANGE / 2 <= x < RANGE / 2 && x % RANGE == Num(h)
  {
    if Sign(h) then Num(h) - RANGE else Num(h)
  }

  /** -x in 128 bits. */
  function Neg128(x: int): (r: nat) {
    (0 - x) % RANGE
  }

  lemma DropRange(k: int, x: int)
    ensures (k * RANGE + x) % RANGE == x % RANGE
  {}

  function Hneg(a: Huge): (r: Huge)
    ensures Num(r) == Neg128(Num(a))
  {
    var hi: int, lo: int := a.hi, a.lo;
    NegWords(a, hi, lo);
    Huge(Wrap64(-hi - (if lo != 0 then 1 else 0)), Wrap64(-lo))
  }

  lemma NegWords(a: Huge, hi: int, lo: int)
    requires hi == a.hi && lo == a.lo
    ensures Wrap64(-hi - (if lo != 0 then 1 else 0)) * WORD64 + Wrap64(-lo) == Neg128(Num(a))
  {
    assert Wrap64(-lo) == if lo == 0 then 0 else WORD64 - lo;
    if lo != 0 {
      assert Wrap64(-hi - 1) == WORD64 - 1 - hi;
    } else {
      assert Wrap64(-hi) == if hi == 0 then 0 else WORD64 - hi;
    }
  }

  function Hadd(a: Huge, b: Huge): Huge {
    var lo := Wrap64(a.lo + b.lo);
    var hi := if Sign(b) then (if lo > a.lo then a.hi + b.hi - 1 else a.hi + b.hi)
              else (if lo < a.lo then a.hi + b.hi + 1 else a.hi + b.hi);
    Huge(Wrap64(hi), lo)
  }

  function Hsub(a: Huge, b: Huge): Huge {
    var lo := Wrap64(a.lo - b.lo);
    var hi := if Sign(b) then (if lo < a.lo then a.hi - b.hi + 1 else a.hi - b.hi)
              else (if lo > a.lo then a.hi - b.hi - 1 else a.hi - b.hi);
    Huge(Wrap64(hi), lo)
  }

  /** Adding to the high word and dropping what leaves the 128 bits. */
  lemma WordsModulo(hi: int, lo: Word64)
    ensures Num(Huge(Wrap64(hi), lo)) == (hi * WORD64 + lo) % RANGE
  {
    var k, r := hi / WORD64, Wrap64(hi);
    assert hi * WORD64 + lo == k * RANGE + (r * WORD64 + lo);
  }

  lemma OffByOne(hi: int, lo: Word64, d: int)
    requires d == 1 || d == -1
    ensures Num(Huge(Wrap64(hi), lo)) != ((hi + d) * WORD64 + lo) % RANGE
  {
    WordsModulo(hi, lo);
    WordsModulo(hi + d, lo);
    assert Wrap64(hi) != Wrap64(hi + d);
  }

  /** The code's carry is wrong exactly for a negative right operand with low bits. */
  lemma AddExact(a: Huge, b: Huge)
    ensures Num(Hadd(a, b)) == (Num(a) + Num(b)) % RANGE <==> !Sign(b) || b.lo == 0
  {
    var lo := Wrap64(a.lo + b.lo);
    var c := if a.lo + b.lo >= WORD64 then 1 else 0;
    assert lo == a.lo + b.lo - c * WORD64;
    assert Num(a) + Num(b) == (a.hi + b.hi + c) * WORD64 + lo;
    if !Sign(b) || b.lo == 0 {
      WordsModulo(a.hi + b.hi + c, lo);
    } else {
      OffByOne(a.hi + b.hi + c - 1, lo, 1);
    }
  }

  lemma SubExact(a: Huge, b: Huge)
    ensures Num(Hsub(a, b)) == (Num(a) - Num(b)) % RANGE <==> !Sign(b) || b.lo == 0
  {
    var lo := Wrap64(a.lo - b.lo);
    var c := if a.lo < b.lo then 1 else 0;
    assert lo == a.lo - b.lo + c * WORD64;
    assert Num(a) - Num(b) == (a.hi - b.hi - c) * WORD64 + lo;
    if !Sign(b) || b.lo == 0 {
      WordsModulo(a.hi - b.hi - c, lo);
    } else {
      OffByOne(a.hi - b.hi - c + 1, lo, -1);
    }
  }

  function Hcmp(a: Huge, b: Huge): int {
    var c := Hsub(a, b);
    if c.hi == 0 && c.lo == 0 then 0 else if Sign(c) then -1 else 1
  }

  /** The comparison recognises equal numbers unless they are negative with low bits; it then
      takes the number 2^64 above the right operand for its equal instead. */
  lemma CompareEqual(a: Huge, b: Huge)
    ensures !Sign(b) || b.lo == 0 ==> (Hcmp(a, b) == 0 <==> a == b)
    ensures Sign(b) && b.lo != 0 ==> (Hcmp(a, b) == 0 <==> a == Huge(Wrap64(b.hi - 1), b.lo))
  {
    var lo := Wrap64(a.lo - b.lo);
    var c := if a.lo < b.lo then 1 else 0;
    assert lo == a.lo - b.lo + c * WORD64;
    assert lo == 0 <==> a.lo == b.lo;
    if Sign(b) && b.lo != 0 {
      assert a.lo == b.lo ==> Hsub(a, b).hi == Wrap64(a.hi - b.hi + 1);
    } else {
      assert a.lo == b.lo ==> Hsub(a, b).hi == Wrap64(a.hi - b.hi);
    }
  }

  /** c tells the order of x and y. */
  predicate Orders(c: int, x: int, y: int) {
    (c < 0 <==> x < y) && (c == 0 <==> x == y) && (c > 0 <==> x > y)
  }

  /** The comparison tells the order exactly when the difference fits 128 bits; with a negative right
      operand with low bits, the difference that is looked at is 2^64 too large. */
  lemma CompareOrder(a: Huge, b: Huge)
    ensures Orders(Hcmp(a, b), Signed(a), Signed(b))
            <==> var d := Signed(a) - Signed(b);
                 if Sign(b) && b.lo != 0 then d < -WORD64 || 0 < d < RANGE / 2 - WORD64 || d > RANGE - WORD64
                 else -RANGE / 2 <= d < RANGE / 2
  {
    var off := if Sign(b) && b.lo != 0 then WORD64 else 0;
    SubOff(a, b);
    SignOf(Hsub(a, b), Signed(a) - Signed(b) + off);
  }

  /** How far the subtraction is off. */
  lemma SubOff(a: Huge, b: Huge)
    ensures Num(Hsub(a, b)) == (Signed(a) - Signed(b) + if Sign(b) && b.lo != 0 then WORD64 else 0) % RANGE
  {
    var lo := Wrap64(a.lo - b.lo);
    var c := if a.lo < b.lo then 1 else 0;
    var up := if Sign(b) && b.lo != 0 then 1 else 0;
    assert lo == a.lo - b.lo + c * WORD64;
    WordsModulo(a.hi - b.hi - c + up, lo);
    HighOff(a, b, lo, c, up);
    var k := (if Sign(a) then 1 else 0) - if Sign(b) then 1 else 0;
    Periods((a.hi - b.hi - c + up) * WORD64 + lo, Signed(a) - Signed(b) + up * WORD64, k);
  }

  lemma HighOff(a: Huge, b: Huge, lo: int, c: int, up: int)
    requires lo == Wrap64(a.lo - b.lo) == a.lo - b.lo + c * WORD64 && c == (if a.lo < b.lo then 1 else 0)
    requires up == if Sign(b) && b.lo != 0 then 1 else 0
    ensures Hsub(a, b) == Huge(Wrap64(a.hi - b.hi - c + up), lo)
  {}

  lemma Periods(x: int, y: int, k: int)
    requires x == y + k * RANGE
    ensures x % RANGE == y % RANGE
  {}

  /** The sign that a number has after wrapping around. */
  lemma SignOf(c: Huge, d: int)
    requires Num(c) == d % RANGE && -RANGE < d < RANGE + WORD64
    ensures c.hi == 0 && c.lo == 0 <==> d == 0 || d == RANGE
    ensures Sign(c) <==> -RANGE / 2 <= d < 0 || RANGE / 2 <= d < RANGE
  {
    assert d % RANGE == if d < 0 then d + RANGE else if d < RANGE then d else d - RANGE;
  }

  // ---------- signed division ----------

  /** The operand as the code passes it to `divmod`. */
  function Magnitude(a: Huge): (r: Huge)
    ensures Num(r) == AbsOf(Signed(a))
  {
    if Sign(a) then Hneg(a) else a
  }

  /** Quotient rounded towards zero. */
  function Truncated(x: int, y: int): int
    requires y != 0
  {
    var q: int := Quo(AbsOf(x), AbsOf(y));
    if (x < 0) != (y < 0) then -q else q
  }

  /** The remainder of the magnitudes with the sign that the quotient has. */
  function QuotientSigned(x: int, y: int): int
    requires y != 0
  {
    var m: int := Rem(AbsOf(x), AbsOf(y));
    if (x < 0) != (y < 0) then -m else m
  }

  method DivModMagnitudes(a: Huge, b: Huge, wide: bool) returns (q: Huge, r: Huge)
    requires Signed(b) != 0
    ensures Num(q) == Quo(AbsOf(Signed(a)), AbsOf(Signed(b)))
            <==> wide || QuotientKept(AbsOf(Signed(a)), AbsOf(Signed(b)))
    ensures Num(r) == Rem(AbsOf(Signed(a)), AbsOf(Signed(b)))
            <==> wide || RemainderKept(AbsOf(Signed(a)), AbsOf(Signed(b)))
  {
    q, r := DivMod(Magnitude(a), Magnitude(b), wide);
    ExactParts(AbsOf(Signed(a)), AbsOf(Signed(b)), Num(q), Num(r));
  }

  /** A magnitude with a sign, as 128 bits. */
  function WithSign(x: nat, negative: bool): int {
    (if negative then 0 - x else x) % RANGE
  }

  /** Putting the sign on loses nothing. */
  method PutSign(q: Huge, negative: bool, ghost x: nat) returns (r: Huge)
    requires x < RANGE
    ensures Num(r) == WithSign(x, negative) <==> Num(q) == x
  {
    r := if negative then Hneg(q) else q;
    SignInjective(Num(q), x, negative);
  }

  lemma SignInjective(x: nat, y: nat, negative: bool)
    requires x < RANGE && y < RANGE
    ensures WithSign(x, negative) == WithSign(y, negative) <==> x == y
  {
    assert WithSign(x, true) == if x == 0 then 0 else RANGE - x;
    assert WithSign(y, true) == if y == 0 then 0 else RANGE - y;
  }

  lemma SmallParts(x: nat, y: nat)
    requires 0 < y <= RANGE / 2 && x <= RANGE / 2
    ensures Quo(x, y) < RANGE && Rem(x, y) < RANGE
  {
    QuoRest(x, y);
    if Quo(x, y) > x {
      MulMono(1, y, Quo(x, y));
    }
  }

  /** `hdiv`: the quotient rounded towards zero, modulo 2^128, on just the operands on which the
      dropped carries leave it right. */
  method Hdiv(a: Huge, b: Huge, wide: bool) returns (r: Huge)
    requires Signed(b) != 0
    ensures Num(r) == Truncated(Signed(a), Signed(b)) % RANGE
            <==> wide || QuotientKept(AbsOf(Signed(a)), AbsOf(Signed(b)))
  {
    var q, m := DivModMagnitudes(a, b, wide);
    SmallParts(AbsOf(Signed(a)), AbsOf(Signed(b)));
    r := PutSign(q, Sign(a) != Sign(b), Quo(AbsOf(Signed(a)), AbsOf(Signed(b))));
  }

  /** `hmod`, which gives the remainder the sign of the quotient. */
  method Hmod(a: Huge, b: Huge, wide: bool) returns (r: Huge)
    requires Signed(b) != 0
    ensures Num(r) == QuotientSigned(Signed(a), Signed(b)) % RANGE
            <==> wide || RemainderKept(AbsOf(Signed(a)), AbsOf(Signed(b)))
  {
    var q, m := DivModMagnitudes(a, b, wide);
    SmallParts(AbsOf(Signed(a)), AbsOf(Signed(b)));
    r := PutSign(m, Sign(a) != Sign(b), Rem(AbsOf(Signed(a)), AbsOf(Signed(b))));
  }

  /** Quotient and remainder belong together exactly when the divisor is positive or divides
      the dividend: the sign of the remainder is wrong for negative divisors. */
  lemma DivisionIdentity(x: int, y: int)
    requires -RANGE / 2 <= x < RANGE / 2 && -RANGE / 2 <= y < RANGE / 2 && y != 0
    ensures (x - Truncated(x, y) * y - QuotientSigned(x, y)) % RANGE == 0
            <==> y > 0 || Rem(AbsOf(x), AbsOf(y)) == 0
  {
    QuoRest(AbsOf(x), AbsOf(y));
    var q, m: int := Quo(AbsOf(x), AbsOf(y)), Rem(AbsOf(x), AbsOf(y));
    SignedProduct(q, m, x, y);
    assert 0 <= m < RANGE / 2;
  }

  lemma SignedProduct(q: int, m: int, x: int, y: int)
    requires AbsOf(x) == q * AbsOf(y) + m && 0 <= m && y != 0
    ensures x - (if (x < 0) != (y < 0) then -q else q) * y == if x < 0 then -m else m
  {
    if (x < 0) != (y < 0) { assert (-q) * y == -(q * y) == q * (-y); }
  }
}
