/** 128-bit numbers shifted, checked against a range, and kept in memory. */
module HugeMemory {
  import opened Bits
  import opened Bitfields
  import Digits
  import opened Divmod
  import Expressions
  import opened HugeInt
  import opened LongDivision

  const WORD64: int := Digits.WORD64

  /** Bits of a word. */
  const WIDTH: nat := 64

  const BYTE: nat := 8

  // ---------- words ----------

  lemma WidthIsWord()
    ensures Double(1, WIDTH) == WORD64
  {
    DoubleByte(1);
    DoubleMore(1, 8);
    DoubleMore(1, 16);
    DoubleMore(1, 24);
    DoubleMore(1, 32);
    DoubleMore(1, 40);
    DoubleMore(1, 48);
    DoubleMore(1, 56);
  }

  lemma DoubleWidth(v: int)
    ensures Double(v, WIDTH) == v * WORD64
  {
    WidthIsWord();
    DoubleTimes(v, 1, WIDTH);
  }

  /** Words pass through doubling. */
  lemma DoubleWords(v: int, k: nat)
    ensures Double(v * WORD64, k) == Double(v, k) * WORD64
  {
    DoubleTimes(WORD64, v, k);
  }

  /** A number below 2^j, doubled k times, leaves room for less than 2^k. */
  lemma {:induction false} RoomBelow(y: int, j: nat, k: nat)
    requires 0 <= y < Double(1, j)
    ensures 0 <= Double(y, k) <= Double(1, j + k) - Double(1, k)
    decreases k
  {
    if k > 0 {
      RoomBelow(y, j, k - 1);
    }
  }

  lemma LowRoom(y: int, j: nat, k: nat)
    requires j + k == WIDTH && 0 <= y < Double(1, j)
    ensures 0 <= Double(y, k) <= WORD64 - Double(1, k)
  {
    WidthIsWord();
    RoomBelow(y, j, k);
  }

  lemma HighFits(x: int, j: nat, k: nat)
    requires j + k == WIDTH && 0 <= x < WORD64
    ensures 0 <= Halve(x, j) < Double(1, k)
  {
    WidthIsWord();
    HalveIsZero(x, j + k);
    HalveHalve(x, j, k);
    HalveIsZero(Halve(x, j), k);
  }

  /** Doubled k times, a word falls into its k high bits, which leave it, and the others. */
  lemma DoubleParts(x: int, j: nat, k: nat)
    requires j + k == WIDTH
    ensures Double(x, k) == Halve(x, j) * WORD64 + Double(Low(x, j), k)
  {
    HalveLow(x, j);
    DoubleAdd(Double(Halve(x, j), j), Low(x, j), k);
    DoubleDouble(Halve(x, j), j, k);
    DoubleWidth(Halve(x, j));
  }

  // ---------- shifts ----------

  /** A word shifted up, what leaves it is lost. */
  function Up(x: Word64, k: nat): Word64 {
    Wrap64(Double(x, k))
  }

  /** A word or a signed word shifted down. */
  function Down(x: int, k: nat): Word64 {
    Wrap64(Halve(x, k))
  }

  /** Words that share no bit, or-ed. That they share none is OrIsSum. */
  function Or(x: Word64, y: Word64): Word64 {
    Wrap64(x + y)
  }

  lemma WrapOf(h: int, l: int)
    requires 0 <= l < WORD64
    ensures Wrap64(h * WORD64 + l) == l
  {}

  lemma UpIs(x: Word64, j: nat, k: nat)
    requires j + k == WIDTH
    ensures Up(x, k) == Double(Low(x, j), k) <= WORD64 - Double(1, k)
  {
    DoubleParts(x, j, k);
    LowRoom(Low(x, j), j, k);
    DoubleMono(0, 1, k);
    WrapOf(Halve(x, j), Double(Low(x, j), k));
  }

  lemma DownIs(x: Word64, j: nat, k: nat)
    requires j + k == WIDTH
    ensures Down(x, j) == Halve(x, j) < Double(1, k)
  {
    HighFits(x, j, k);
    HalveNearer(x, j);
    WrapId(Halve(x, j));
  }

  lemma {:induction false} HalveNearer(x: int, n: nat)
    ensures x >= 0 ==> 0 <= Halve(x, n) <= x
    ensures x < 0 ==> x <= Halve(x, n) < 0
    decreases n
  {
    if n > 0 {
      HalveNearer(x / 2, n - 1);
    }
  }

  /** Or-ing a multiple of 2^k and less than that is their sum: no bit is set in both. */
  lemma {:induction false} OrIsSum(x: int, y: int, k: nat, n: nat)
    requires 0 <= x < Double(1, k) && k <= n
    requires Halve(Double(y, k) + x, n) == 0
    ensures Expressions.Bitwise(Expressions.BOr, x, Double(y, k), n) == x + Double(y, k)
            == Expressions.Bitwise(Expressions.BOr, Double(y, k), x, n)
    decreases n
  {
    if n > 0 {
      if k > 0 {
        assert Double(y, k) / 2 == Double(y, k - 1) && (Double(y, k) + x) / 2 == Double(y, k - 1) + x / 2;
        OrIsSum(x / 2, y, k - 1, n - 1);
      } else {
        assert Double(y, 0) == y && Double(y / 2, 0) == y / 2;
        OrIsSum(0, y / 2, 0, n - 1);
      }
    }
  }

  lemma BelowWord(x: int)
    requires 0 <= x < WORD64
    ensures Halve(x, WIDTH) == 0
  {
    WidthIsWord();
    HalveIsZero(x, WIDTH);
  }

  /** A multiple of 2^k and less than that: no bit is set in both, and or-ing is adding. */
  lemma OrJoins(x: int, y: int, k: nat)
    requires 0 <= x < Double(1, k) && k <= WIDTH && 0 <= Double(y, k) <= WORD64 - Double(1, k)
    ensures 0 <= x < WORD64 && Double(y, k) < WORD64
    ensures Or(x, Double(y, k)) == Or(Double(y, k), x) == x + Double(y, k)
            == Expressions.Bitwise(Expressions.BOr, x, Double(y, k), WIDTH)
  {
    var z := Double(y, k);
    OrOf(x, z);
    BelowWord(z + x);
    OrIsSum(x, y, k, WIDTH);
  }

  lemma OrOf(x: int, z: int)
    requires 0 <= x < WORD64 && 0 <= z < WORD64 && x + z < WORD64
    ensures Or(x, z) == Or(z, x) == x + z
  {
    WrapId(x + z);
  }

  function SignedWord(x: Word64): int {
    if x >= WORD64 / 2 then x - WORD64 else x
  }

  /** `hshl`, for the distances that C allows. */
  function Hshl(a: Huge, k: nat): Huge
    requires k < 2 * WIDTH
  {
    if k >= WIDTH then Huge(Up(a.lo, k - WIDTH), 0)
    else if k == 0 then a
    else Huge(Or(Down(a.lo, WIDTH - k), Up(a.hi, k)), Up(a.lo, k))
  }

  /** `hshr` */
  function Hshr(a: Huge, k: nat): Huge
    requires k < 2 * WIDTH
  {
    if k >= WIDTH then Huge(0, Down(a.hi, k - WIDTH))
    else if k == 0 then a
    else Huge(Down(a.hi, k), Or(Up(a.hi, WIDTH - k), Down(a.lo, k)))
  }

  /** `hshra` */
  function Hshra(a: Huge, k: nat): Huge
    requires k < 2 * WIDTH
  {
    if k >= WIDTH then Huge(if Sign(a) then WORD64 - 1 else 0, Down(SignedWord(a.hi), k - WIDTH))
    else if k == 0 then a
    else Huge(Down(SignedWord(a.hi), k), Or(Up(a.hi, WIDTH - k), Down(a.lo, k)))
  }

  // ---------- shifting to the left ----------

  /** What is shifted beyond 128 bits is lost, the rest is the number times 2^k. */
  lemma LeftExact(a: Huge, k: nat)
    requires k < 2 * WIDTH
    ensures Num(Hshl(a, k)) == Double(Num(a), k) % RANGE
  {
    if k >= WIDTH {
      LeftFar(a, k - WIDTH);
    } else if k > 0 {
      LeftNear(a, WIDTH - k, k);
    } else {
      DropRange(0, Num(a));
    }
  }

  lemma DoubleNum(a: Huge, k: nat)
    ensures Double(Num(a), k) == Double(a.hi, k) * WORD64 + Double(a.lo, k)
  {
    DoubleAdd(a.hi * WORD64, a.lo, k);
    DoubleWords(a.hi, k);
  }

  lemma LeftFar(a: Huge, k: nat)
    requires k < WIDTH
    ensures Num(Huge(Up(a.lo, k), 0)) == Double(Num(a), WIDTH + k) % RANGE
  {
    DoubleDouble(Num(a), k, WIDTH);
    DoubleWidth(Double(Num(a), k));
    DoubleNum(a, k);
    DoubleParts(a.lo, WIDTH - k, k);
    UpIs(a.lo, WIDTH - k, k);
    FarWords(Double(Num(a), k), Double(a.hi, k), Double(a.lo, k), Halve(a.lo, WIDTH - k), Up(a.lo, k));
  }

  lemma FarWords(d: int, dh: int, dl: int, h: int, l: int)
    requires d == dh * WORD64 + dl && dl == h * WORD64 + l && 0 <= l < WORD64
    ensures l * WORD64 == d * WORD64 % RANGE
  {
    assert d * WORD64 == (dh + h) * RANGE + l * WORD64;
    DropRange(dh + h, l * WORD64);
  }

  lemma LeftNear(a: Huge, j: nat, k: nat)
    requires j + k == WIDTH
    ensures Num(Huge(Or(Down(a.lo, j), Up(a.hi, k)), Up(a.lo, k))) == Double(Num(a), k) % RANGE
  {
    DoubleNum(a, k);
    DoubleParts(a.hi, j, k);
    DoubleParts(a.lo, j, k);
    UpIs(a.lo, j, k);
    LeftOr(a, j, k);
    NearWords(Double(Num(a), k), Double(a.hi, k), Double(a.lo, k),
              Halve(a.hi, j), Double(Low(a.hi, j), k), Halve(a.lo, j),
              Up(a.lo, k), Or(Down(a.lo, j), Up(a.hi, k)));
  }

  lemma LeftOr(a: Huge, j: nat, k: nat)
    requires j + k == WIDTH
    ensures Or(Down(a.lo, j), Up(a.hi, k)) == Halve(a.lo, j) + Double(Low(a.hi, j), k)
  {
    UpIs(a.hi, j, k);
    DownIs(a.lo, j, k);
    OrJoins(Halve(a.lo, j), Low(a.hi, j), k);
  }

  lemma NearWords(d: int, dh: int, dl: int, h: int, x: int, y: int, l: int, o: int)
    requires d == dh * WORD64 + dl && dh == h * WORD64 + x && dl == y * WORD64 + l
    requires o == y + x && 0 <= o < WORD64 && 0 <= l < WORD64
    ensures o * WORD64 + l == d % RANGE
  {
    assert d == h * RANGE + (o * WORD64 + l);
    DropRange(h, o * WORD64 + l);
  }

  // ---------- shifting to the right ----------

  /** The low bits are lost, the rest is the number divided by 2^k. */
  lemma RightExact(a: Huge, k: nat)
    requires k < 2 * WIDTH
    ensures Num(Hshr(a, k)) == Halve(Num(a), k)
  {
    if k >= WIDTH {
      HighWord(a.hi, a.lo, k - WIDTH);
      DownWord(a.hi, k - WIDTH);
    } else if k > 0 {
      RightLow(a, a.hi, k, WIDTH - k);
      DownWord(a.hi, k);
    }
  }

  lemma DownWord(x: Word64, k: nat)
    ensures Down(x, k) == Halve(x, k)
  {
    HalveNearer(x, k);
    WrapId(Halve(x, k));
  }

  lemma HighWord(hi: int, lo: Word64, k: nat)
    ensures Halve(hi * WORD64 + lo, WIDTH + k) == Halve(hi, k)
  {
    WidthIsWord();
    DoubleWidth(hi);
    HalveSum(hi, lo, WIDTH);
    HalveHalve(hi * WORD64 + lo, WIDTH, k);
  }

  /** Two words as a multiple of 2^j and less than that. */
  lemma RightParts(hi: int, lo: int, j: nat, k: nat)
    requires j + k == WIDTH
    ensures hi * WORD64 + lo == Double(Halve(hi, j) * WORD64 + (Double(Low(hi, j), k) + Halve(lo, j)), j) + Low(lo, j)
  {
    var x, y, z := Halve(hi, j) * WORD64, Double(Low(hi, j), k), Halve(lo, j);
    HalveLow(hi, j);
    HalveLow(lo, j);
    LowWords(Low(hi, j), j, k);
    DoubleWords(Halve(hi, j), j);
    DoubleAdd(x, y + z, j);
    DoubleAdd(y, z, j);
    RightWords(hi, lo, Double(Halve(hi, j), j), Low(hi, j), Double(z, j), Low(lo, j));
  }

  lemma LowWords(l: int, j: nat, k: nat)
    requires j + k == WIDTH
    ensures Double(Double(l, k), j) == l * WORD64
  {
    DoubleDouble(l, k, j);
    DoubleWidth(l);
  }

  lemma RightWords(hi: int, lo: int, x: int, y: int, z: int, l: int)
    requires hi == x + y && lo == z + l
    ensures hi * WORD64 + lo == x * WORD64 + (y * WORD64 + z) + l
  {}

  lemma RightOr(a: Huge, j: nat, k: nat)
    requires j + k == WIDTH
    ensures Or(Up(a.hi, k), Down(a.lo, j)) == Double(Low(a.hi, j), k) + Halve(a.lo, j)
  {
    UpIs(a.hi, j, k);
    DownIs(a.lo, j, k);
    RoomBelow(0, j, k);
    OrJoins(Halve(a.lo, j), Low(a.hi, j), k);
  }

  /** The low word takes the low bits of the high one; hi may be the high word as a signed number. */
  lemma RightLow(a: Huge, hi: int, j: nat, k: nat)
    requires j + k == WIDTH && (hi == a.hi || hi == a.hi - WORD64)
    ensures Halve(hi * WORD64 + a.lo, j) == Halve(hi, j) * WORD64 + Or(Up(a.hi, k), Down(a.lo, j))
  {
    LowOfSigned(a.hi, hi, j);
    RightOr(a, j, k);
    RightParts(hi, a.lo, j, k);
    var x: int := Halve(hi, j) * WORD64 + (Double(Low(hi, j), k) + Halve(a.lo, j));
    HalveSum(x, Low(a.lo, j), j);
    assert Halve(hi * WORD64 + a.lo, j) == x;
  }

  lemma LowOfSigned(x: Word64, s: int, j: nat)
    requires j <= WIDTH && (s == x || s == x - WORD64)
    ensures Low(s, j) == Low(x, j)
  {
    WidthIsWord();
    LowAdd(x, WIDTH, j);
  }

  /** Likewise for signed numbers. */
  lemma ArithmeticExact(a: Huge, k: nat)
    requires k < 2 * WIDTH
    ensures Signed(Hshra(a, k)) == Halve(Signed(a), k)
  {
    var s := SignedWord(a.hi);
    assert Signed(a) == s * WORD64 + a.lo;
    if k >= WIDTH {
      HighWord(s, a.lo, k - WIDTH);
      HalveNearer(s, k - WIDTH);
      SignedLow(Halve(s, k - WIDTH), s < 0);
    } else if k > 0 {
      RightLow(a, s, k, WIDTH - k);
      HalveNearer(s, k);
      SignedHigh(Halve(s, k), Or(Up(a.hi, WIDTH - k), Down(a.lo, k)));
    }
  }

  lemma SignedHigh(h: int, l: Word64)
    requires -WORD64 / 2 <= h < WORD64 / 2
    ensures Signed(Huge(Wrap64(h), l)) == h * WORD64 + l
  {
    assert Wrap64(h) == if h < 0 then h + WORD64 else h;
  }

  lemma SignedLow(h: int, negative: bool)
    requires if negative then -WORD64 / 2 <= h < 0 else 0 <= h < WORD64 / 2
    ensures Signed(Huge(if negative then WORD64 - 1 else 0, Wrap64(h))) == h
  {
    assert Wrap64(h) == if h < 0 then h + WORD64 else h;
  }

  // ---------- memory ----------

  /** The number moved up by a byte, which is clear. */
  method MakeRoom(r: Huge) returns (s: Huge)
    ensures Num(s) == 256 * Num(r) % RANGE && s.lo == Double(Halve(s.lo, BYTE), BYTE) <= WORD64 - 256
  {
    LeftExact(r, BYTE);
    DoubleByte(Num(r));
    DoubleByte(1);
    UpIs(r.lo, WIDTH - BYTE, BYTE);
    HalveSum(Low(r.lo, WIDTH - BYTE), 0, BYTE);
    s := Hshl(r, BYTE);
  }

  method OrByte(s: Huge, b: Byte) returns (t: Huge)
    requires s.lo == Double(Halve(s.lo, BYTE), BYTE) <= WORD64 - 256
    ensures t.hi == s.hi && t.lo == s.lo + b
  {
    DoubleByte(1);
    OrJoins(b, Halve(s.lo, BYTE), BYTE);
    t := Huge(s.hi, Or(s.lo, b));
  }

  /** One more byte behind the number. */
  method AppendByte(r: Huge, b: Byte) returns (t: Huge)
    ensures Num(t) == (256 * Num(r) + b) % RANGE
  {
    var s := MakeRoom(r);
    t := OrByte(s, b);
    LastByte(256 * Num(r), s, t, b);
  }

  lemma LastByte(x: int, s: Huge, t: Huge, b: Byte)
    requires Num(s) == x % RANGE && t.hi == s.hi && t.lo == s.lo + b
    ensures Num(t) == (x + b) % RANGE
  {
    ByteAdded(x, Num(s), b);
  }

  lemma ByteAdded(x: int, y: int, b: int)
    requires y == x % RANGE && 0 <= y + b < RANGE
    ensures y + b == (x + b) % RANGE
  {
    var q := x / RANGE;
    assert x + b == q * RANGE + (y + b);
    DropRange(q, y + b);
  }

  lemma ByteModulo(x: int, y: int, b: int)
    requires y == x % RANGE
    ensures (256 * y + b) % RANGE == (256 * x + b) % RANGE
  {
    var q := x / RANGE;
    SameModulo(256 * x + b, 256 * y + b, 256 * q);
  }

  lemma SameModulo(x: int, y: int, k: int)
    requires x == y + k * RANGE
    ensures x % RANGE == y % RANGE
  {
    var q, r := y / RANGE, y % RANGE;
    assert x == (q + k) * RANGE + r;
    DropRange(q + k, r);
  }

  /** The signed number that bytes stand for, least significant byte first. */
  function SignedNumber(d: seq<Byte>): int {
    Number(d) - if d != [] && d[|d| - 1] >= 128 then Double(1, 8 * |d|) else 0
  }

  /** The same for the last i bytes, with the sign of all. */
  function Filled(d: seq<Byte>, i: nat): int
    requires i <= |d|
  {
    Number(d[|d| - i..]) - if d != [] && d[|d| - 1] >= 128 then Double(1, 8 * i) else 0
  }

  lemma FilledMore(d: seq<Byte>, i: nat)
    requires i < |d|
    ensures Filled(d, i + 1) == 256 * Filled(d, i) + d[|d| - i - 1]
  {
    assert d[|d| - (i + 1)..] == [d[|d| - i - 1]] + d[|d| - i..];
    DoubleMore(1, 8 * i);
  }

  /** All bits as the sign bit of the first byte. */
  function Start(b: Byte): Huge {
    if b >= 128 then Huge(WORD64 - 1, WORD64 - 1) else Huge(0, 0)
  }

  /** The last i bytes are in r. */
  predicate Filling(d: seq<Byte>, i: nat, r: Huge) {
    i <= |d| && Num(r) == Filled(d, i) % RANGE
  }

  lemma FillingBegins(d: seq<Byte>)
    requires d != []
    ensures Filling(d, 0, Start(d[|d| - 1]))
  {
    DropRange(-1, RANGE - 1);
    assert d[|d|..] == [];
  }

  lemma FillingNext(d: seq<Byte>, i: nat, r: Huge, b: Byte, t: Huge)
    requires Filling(d, i, r) && i < |d| && b == d[|d| - 1 - i] && Num(t) == (256 * Num(r) + b) % RANGE
    ensures Filling(d, i + 1, t)
  {
    FilledMore(d, i);
    ByteModulo(Filled(d, i), Num(r), b);
  }

  method FillNext(r: Huge, b: Byte, ghost d: seq<Byte>, ghost i: nat) returns (t: Huge)
    requires Filling(d, i, r) && i < |d| && b == d[|d| - 1 - i]
    ensures Filling(d, i + 1, t)
  {
    t := AppendByte(r, b);
    FillingNext(d, i, r, b, t);
  }

  lemma FillingEnds(d: seq<Byte>, r: Huge)
    requires Filling(d, |d|, r)
    ensures Num(r) == SignedNumber(d) % RANGE
  {
    assert d[0..] == d;
  }

  /** The loop over the bytes, most significant byte first. */
  method FillAll(be: bool, m: array<Byte>, at: nat, size: nat, start: Huge) returns (r: Huge)
    requires at + size <= m.Length && Filling(Fetched(be, m[..], at, size), 0, start)
    ensures Filling(Fetched(be, m[..], at, size), size, r)
  {
    ghost var d := Fetched(be, m[..], at, size);
    r := start;
    for i := 0 to size
      invariant Filling(d, i, r)
    {
      r := FillNext(r, m[at + Nth(be, size, size - 1 - i)], d, i);
    }
  }

  /** `huge_from_mem`: the first byte decides about the sign, then byte after byte is or-ed in. */
  method FromMemory(be: bool, m: array<Byte>, at: nat, size: nat) returns (r: Huge)
    requires 0 < size <= 16 && at + size <= m.Length
    ensures Num(r) == SignedNumber(Fetched(be, m[..], at, size)) % RANGE
  {
    ghost var d := Fetched(be, m[..], at, size);
    FillingBegins(d);
    r := FillAll(be, m, at, size, Start(m[at + Nth(be, size, size - 1)]));
    FillingEnds(d, r);
  }

  lemma LowByte(h: Huge)
    ensures h.lo % 256 == Num(h) % 256
  {
    assert Num(h) == 256 * (h.hi * (WORD64 / 256)) + h.lo;
  }

  /** What is left of h after k bytes. */
  predicate Left(h: Huge, k: nat, rest: Huge) {
    Num(rest) == Halve(Num(h), 8 * k)
  }

  /** The lowest byte, and the rest. */
  method TakeByte(left: Huge, ghost h: Huge, ghost k: nat, ghost size: nat) returns (b: Byte, rest: Huge)
    requires k < size && Left(h, k, left)
    ensures b == Bytes(Num(h), size)[k] && Left(h, k + 1, rest)
  {
    LowByte(left);
    RightExact(left, BYTE);
    BytesAt(Num(h), size, k);
    HalveHalve(Num(h), 8 * k, BYTE);
    b, rest := left.lo % 256, Hshr(left, BYTE);
  }

  /** `huge_to_mem` */
  method ToMemory(be: bool, m: array<Byte>, at: nat, size: nat, h: Huge)
    requires size <= 16 && at + size <= m.Length
    modifies m
    ensures m[..] == Stored(be, old(m[..]), at, Bytes(Num(h), size))
  {
    var rest := h;
    ghost var was, d := m[..], Bytes(Num(h), size);
    for k := 0 to size
      invariant Left(h, k, rest) && m[..] == StoredTo(be, was, at, d, k)
    {
      var b;
      b, rest := TakeByte(rest, h, k, size);
      StoreByte(be, m, at, was, d, size, k, b);
    }
    StoredAll(be, was, at, d);
  }

  // ---------- there and back ----------

  lemma {:induction false} BytesAdd(v: int, m: nat, n: nat)
    requires 8 * n <= m
    ensures Bytes(v + Double(1, m), n) == Bytes(v, n)
    decreases n
  {
    if n > 0 {
      DoubleMore(1, m - 8);
      assert (v + Double(1, m)) % 256 == v % 256 && (v + Double(1, m)) / 256 == v / 256 + Double(1, m - 8);
      BytesAdd(v / 256, m - 8, n - 1);
    }
  }

  lemma RangeIsDouble()
    ensures Double(1, 2 * WIDTH) == RANGE
  {
    WidthIsWord();
    DoubleDouble(1, WIDTH, WIDTH);
    DoubleWidth(WORD64);
  }

  lemma SevenBits(k: nat)
    ensures Double(1, k + 7) == 128 * Double(1, k)
  {
    DoubleDouble(1, k, 7);
    DoubleAdd(Double(1, k), 0, 7);
  }

  /** n bytes stand for a signed number of 8 * n bits. */
  lemma SignedNumberFits(d: seq<Byte>)
    requires d != []
    ensures SignedFits(SignedNumber(d), 8 * |d|)
  {
    var n, init, top := |d| - 1, d[..|d| - 1], d[|d| - 1];
    assert d == init + [top];
    NumberMore(init, top);
    NumberRange(init);
    DoubleTimes(top, 1, 8 * n);
    SevenBits(8 * n);
    DoubleMore(1, 8 * n);
    SignedRange(SignedNumber(d), 8 * |d|);
    TopPart(top, Double(1, 8 * n), Number(init));
  }

  lemma TopPart(top: Byte, w: int, rest: int)
    requires 0 <= rest < w
    ensures 0 <= top * w + rest < 256 * w && (top < 128 ==> top * w + rest < 128 * w)
            && (top >= 128 ==> top * w + rest >= 128 * w)
  {
    Digits.MulMono(top, 255, w);
    Digits.MulMono(0, top, w);
    if top < 128 {
      Digits.MulMono(top, 127, w);
    } else {
      Digits.MulMono(128, top, w);
    }
  }

  lemma SignedNumberBack(v: int, n: nat)
    requires n > 0 && SignedFits(v, 8 * n)
    ensures SignedNumber(Bytes(v, n)) == v
  {
    TopByte(v, n);
    NumberOfBytes(v, n);
    BytesAt(v, n, n - 1);
  }

  /** A number written to memory is read back if and only if it is in the signed range of so many
      bytes. */
  lemma MemoryBack(h: Huge, n: nat)
    requires 0 < n <= 16
    ensures Num(h) == SignedNumber(Bytes(Num(h), n)) % RANGE <==> SignedFits(Signed(h), 8 * n)
  {
    var v := Signed(h);
    RangeIsDouble();
    BytesAdd(v, 2 * WIDTH, n);
    assert Bytes(Num(h), n) == Bytes(v, n);
    var w := SignedNumber(Bytes(v, n));
    SignedNumberFits(Bytes(v, n));
    if SignedFits(v, 8 * n) {
      SignedNumberBack(v, n);
    }
    SignedRange(w, 8 * n);
    HalfRange(8 * n);
    SignedModulo(h, w);
  }

  lemma HalfRange(k: nat)
    requires 0 < k <= 2 * WIDTH
    ensures 0 < Double(1, k - 1) <= RANGE / 2
  {
    RangeIsDouble();
    DoubleDouble(1, k - 1, 2 * WIDTH - k);
    DoubleMono(1, Double(1, k - 1), 2 * WIDTH - k);
    DoubleMono(0, 1, k - 1);
    DoubleLarger(Double(1, k - 1), 2 * WIDTH - k);
  }

  lemma {:induction false} DoubleLarger(v: nat, n: nat)
    ensures Double(v, n) >= v
    decreases n
  {
    if n > 0 {
      DoubleLarger(v, n - 1);
    }
  }

  lemma SignedModulo(h: Huge, w: int)
    requires -RANGE / 2 <= w < RANGE / 2
    ensures Num(h) == w % RANGE <==> w == Signed(h)
  {
    DropRange(if w < 0 then -1 else 0, if w < 0 then w + RANGE else w);
  }

  // ---------- range ----------

  /** The bits of a word from n on: none is set, or all are. */
  predicate Clear(x: Word64, n: nat) {
    x - Low(x, n) == 0
  }

  predicate AllSet(x: Word64, n: nat) {
    x - Low(x, n) == WORD64 - Double(1, n)
  }

  /** `huge_chkrange`. For 64 bits it shifts by -1, which C does not define. */
  predicate ChkRange(h: Huge, bits: nat)
    requires bits > 0 && bits != WIDTH
  {
    if bits >= 2 * WIDTH then true
    else if bits >= WIDTH then
      if AllSet(h.hi, bits - WIDTH) then BitOf(h.hi, bits - WIDTH - 1) else Clear(h.hi, bits - WIDTH)
    else if h.hi == WORD64 - 1 && AllSet(h.lo, bits) then BitOf(h.lo, bits - 1)
    else h.hi == 0 && Clear(h.lo, bits)
  }

  lemma ClearMeans(x: Word64, n: nat)
    requires n < WIDTH
    ensures Clear(x, n) <==> x < Double(1, n)
  {
    HalveLow(x, n);
    HalveIsZero(x, n);
    HalveNearer(x, n);
    DoubleMono(0, Halve(x, n), n);
  }

  lemma SetMeans(x: Word64, n: nat)
    requires n < WIDTH
    ensures AllSet(x, n) <==> x >= WORD64 - Double(1, n)
  {
    var high := HighPart(x, n);
    SetWords(x, Low(x, n), high, WORD64 - Double(1, n), Double(1, n));
  }

  /** Without its low bits a word is the top multiple of 2^n, or at least 2^n below it. */
  lemma HighPart(x: Word64, n: nat) returns (high: int)
    requires n < WIDTH
    ensures var top, p := WORD64 - Double(1, n), Double(1, n);
            x == high + Low(x, n) && (high == top || high + p <= top)
  {
    var h, top := Halve(x, n), Double(1, WIDTH - n) - 1;
    HalveLow(x, n);
    HighFits(x, n, WIDTH - n);
    DoubleMono(h, top, n);
    TopMultiple(n);
    high := Double(h, n);
  }

  lemma TopMultiple(n: nat)
    requires n < WIDTH
    ensures Double(Double(1, WIDTH - n) - 1, n) == WORD64 - Double(1, n)
  {
    WidthIsWord();
    DoubleDouble(1, WIDTH - n, n);
    DoubleAdd(Double(1, WIDTH - n) - 1, 1, n);
  }

  lemma SetWords(x: int, low: int, high: int, top: int, p: int)
    requires x == high + low && 0 <= low < p && top == WORD64 - p && (high == top || high + p <= top)
    ensures x - low == WORD64 - p <==> x >= WORD64 - p
  {}

  /** The top bit of n bits. */
  lemma TopBit(l: int, n: nat)
    requires 0 <= l < Double(1, n + 1)
    ensures BitOf(l, n) <==> l >= Double(1, n)
  {
    HalveBits(l, n, 0);
    HalveIsZero(l, n);
    HalveIsZero(l, n + 1);
    HalveOnce(l, n);
    HalveNearer(l, n);
  }

  /** Of a word whose bits from n on are set, the bit before them. */
  lemma SignBit(x: Word64, n: nat)
    requires 0 < n < WIDTH && x >= WORD64 - Double(1, n)
    ensures BitOf(x, n - 1) <==> x >= WORD64 - Double(1, n - 1)
  {
    SetMeans(x, n);
    LowBits(x, n, n - 1);
    TopBit(Low(x, n), n - 1);
  }

  /** Whether the number can be represented in so many bits, signed or unsigned. */
  lemma RangeMeans(h: Huge, bits: nat)
    requires 0 < bits < 2 * WIDTH && bits != WIDTH
    ensures ChkRange(h, bits) <==> -Double(1, bits - 1) <= Signed(h) < Double(1, bits)
  {
    if bits > WIDTH {
      HighRange(h, bits - WIDTH);
    } else {
      LowRange(h, bits);
    }
  }

  lemma SmallPower(n: nat)
    requires n < WIDTH
    ensures 0 < Double(1, n) <= WORD64 / 2
  {
    WidthIsWord();
    DoubleMono(0, 1, n);
    DoubleDouble(1, n, WIDTH - n - 1);
    DoubleLarger(Double(1, n), WIDTH - n - 1);
  }

  lemma HighRange(h: Huge, n: nat)
    requires 0 < n < WIDTH
    ensures ChkRange(h, WIDTH + n) <==> -Double(1, WIDTH + n - 1) <= Signed(h) < Double(1, WIDTH + n)
  {
    ClearMeans(h.hi, n);
    SetMeans(h.hi, n);
    if AllSet(h.hi, n) {
      SignBit(h.hi, n);
    }
    DoubleDouble(1, n, WIDTH);
    DoubleWidth(Double(1, n));
    DoubleDouble(1, n - 1, WIDTH);
    DoubleWidth(Double(1, n - 1));
    SmallPower(n);
    HighWords(h, Double(1, n - 1));
  }

  lemma HighWords(h: Huge, d: int)
    requires 0 < 2 * d <= WORD64 / 2
    ensures -d * WORD64 <= Signed(h) < 2 * d * WORD64 <==> h.hi < 2 * d || h.hi >= WORD64 - d
  {}

  lemma LowRange(h: Huge, n: nat)
    requires 0 < n < WIDTH
    ensures ChkRange(h, n) <==> -Double(1, n - 1) <= Signed(h) < Double(1, n)
  {
    ClearMeans(h.lo, n);
    SetMeans(h.lo, n);
    if AllSet(h.lo, n) {
      SignBit(h.lo, n);
    }
    SmallPower(n);
    LowWordsOf(h, Double(1, n - 1));
  }

  lemma LowWordsOf(h: Huge, d: int)
    requires 0 < 2 * d <= WORD64 / 2
    ensures -d <= Signed(h) < 2 * d <==> (h.hi == 0 && h.lo < 2 * d) || (h.hi == WORD64 - 1 && h.lo >= WORD64 - d)
  {}
}
