/** Numbers in memory: bytes in either byte order, and bit fields within them. */
module Bitfields {
  import opened Bits

  type Byte = x: int | 0 <= x < 256

  // ---------- bits of a number ----------

  /** v with the lowest size bits of d written over the bits from s on. */
  function Put(v: int, s: nat, size: nat, d: int): int
    decreases s, size
  {
    if s > 0 then 2 * Put(v / 2, s - 1, size, d) + v % 2
    else if size > 0 then 2 * Put(v / 2, 0, size - 1, d / 2) + d % 2
    else v
  }

  lemma {:induction false} PutBits(v: int, s: nat, size: nat, d: int, i: nat)
    ensures BitOf(Put(v, s, size, d), i) == if s <= i < s + size then BitOf(d, i - s) else BitOf(v, i)
    decreases s, size
  {
    if s > 0 {
      if i > 0 {
        PutBits(v / 2, s - 1, size, d, i - 1);
      }
    } else if size > 0 {
      if i > 0 {
        PutBits(v / 2, 0, size - 1, d / 2, i - 1);
      }
    }
  }

  /** How the code does it: the old field is masked out, and the new one is or-ed in. */
  function Insert(v: int, s: nat, size: nat, d: int): int {
    v - Double(Low(Halve(v, s), size), s) + Double(Low(d, size), s)
  }

  lemma {:induction false} InsertIsPut(v: int, s: nat, size: nat, d: int)
    ensures Insert(v, s, size, d) == Put(v, s, size, d)
    decreases s, size
  {
    if s > 0 {
      InsertIsPut(v / 2, s - 1, size, d);
    } else if size > 0 {
      InsertIsPut(v / 2, 0, size - 1, d / 2);
    }
  }

  // ---------- bytes ----------

  /** The number that bytes stand for, least significant byte first. */
  function Number(b: seq<Byte>): nat {
    if b == [] then 0 else b[0] + 256 * Number(b[1..])
  }

  /** The lowest n bytes of a number, least significant byte first. */
  function Bytes(v: int, n: nat): (b: seq<Byte>)
    ensures |b| == n
    decreases n
  {
    if n == 0 then [] else [v % 256] + Bytes(v / 256, n - 1)
  }

  /** Eight bits further is one byte further. */
  lemma ByteBits(b: int, r: int, i: nat)
    requires 0 <= b < 256
    ensures BitOf(b + 256 * r, i) == if i < 8 then BitOf(b, i) else BitOf(r, i - 8)
  {
    DoubleByte(r);
    DoubleByte(1);
    PutByte(b, r, 8, i);
  }

  lemma {:induction false} PutByte(b: int, r: int, n: nat, i: nat)
    requires 0 <= b < Double(1, n)
    ensures BitOf(b + Double(r, n), i) == if i < n then BitOf(b, i) else BitOf(r, i - n)
    decreases n
  {
    if n > 0 {
      assert (b + Double(r, n)) % 2 == b % 2 && (b + Double(r, n)) / 2 == b / 2 + Double(r, n - 1);
      if i > 0 {
        PutByte(b / 2, r, n - 1, i - 1);
      }
    }
  }

  lemma {:induction false} NumberBits(b: seq<Byte>, i: nat)
    ensures BitOf(Number(b), i) == (i / 8 < |b| && BitOf(b[i / 8], i % 8))
  {
    if b == [] {
      ZeroBits(i);
    } else {
      ByteBits(b[0], Number(b[1..]), i);
      if i >= 8 {
        NumberBits(b[1..], i - 8);
      }
    }
  }

  lemma {:induction false} BytesBits(v: int, n: nat, k: nat, j: nat)
    requires k < n && j < 8
    ensures BitOf(Bytes(v, n)[k], j) == BitOf(v, 8 * k + j)
    decreases n
  {
    ByteBits(v % 256, v / 256, 8 * k + j);
    if k > 0 {
      BytesBits(v / 256, n - 1, k - 1, j);
    }
  }

  // ---------- ranges ----------

  /** n bytes hold a number that fits; of a negative one they hold the two's complement. */
  lemma {:induction false} NumberOfBytes(v: int, n: nat)
    ensures Halve(v, 8 * n) == 0 ==> Number(Bytes(v, n)) == v
    ensures Halve(v, 8 * n) == -1 ==> Number(Bytes(v, n)) == v + Double(1, 8 * n)
    decreases n
  {
    if n > 0 {
      DoubleMore(1, 8 * (n - 1));
      HalveByte(v, 8 * (n - 1));
      NumberOfBytes(v / 256, n - 1);
      assert Bytes(v, n)[1..] == Bytes(v / 256, n - 1);
    }
  }

  // ---------- memory ----------

  /** Byte k of a number. */
  function ByteOf(v: int, k: nat): Byte {
    Halve(v, 8 * k) % 256
  }

  lemma {:induction false} NumberMore(p: seq<Byte>, x: Byte)
    ensures Number(p + [x]) == Number(p) + Double(x, 8 * |p|)
  {
    if p == [] {
      assert [x][1..] == [];
    } else {
      NumberMore(p[1..], x);
      assert (p + [x])[1..] == p[1..] + [x];
      DoubleMore(x, 8 * |p[1..]|);
    }
  }

  lemma {:induction false} NumberRange(p: seq<Byte>)
    ensures Number(p) < Double(1, 8 * |p|)
  {
    if p != [] {
      NumberRange(p[1..]);
      DoubleMore(1, 8 * |p[1..]|);
    }
  }

  /** The top byte of a number that fits tells its sign. */
  lemma TopByte(v: int, size: nat)
    requires size > 0 && SignedFits(v, 8 * size)
    ensures Halve(v, 8 * size) == if v < 0 then -1 else 0
    ensures if v < 0 then ByteOf(v, size - 1) >= 128 else ByteOf(v, size - 1) < 128
  {
    HalveOnce(v, 8 * size - 1);
    HalveIsZero(v, 8 * size - 1);
    HalveIsOnes(v, 8 * size - 1);
    var x := Halve(v, 8 * (size - 1));
    HalveBy7(v, 8 * (size - 1));
    assert Halve(v, 8 * size - 1) == x / 128;
  }

  /** Where the k-th least significant of n bytes is. */
  function Nth(be: bool, n: nat, k: nat): nat
    requires k < n
  {
    if be then n - 1 - k else k
  }

  /** n bytes of memory, least significant byte first. */
  function Fetched(be: bool, m: seq<Byte>, at: nat, n: nat): seq<Byte>
    requires at + n <= |m|
  {
    seq(n, k requires 0 <= k < n => m[at + Nth(be, n, k)])
  }

  /** `readval` */
  method ReadVal(be: bool, m: array<Byte>, at: nat, n: nat) returns (val: nat)
    requires at + n <= m.Length
    ensures val == Number(Fetched(be, m[..], at, n))
  {
    val := 0;
    ghost var d := Fetched(be, m[..], at, n);
    var k: nat := n;
    while k > 0
      invariant k <= n && val == Number(d[k..])
    {
      k := k - 1;
      val := val * 256;
      val := val + m[at + Nth(be, n, k)];
      assert d[k..] == [d[k]] + d[k + 1..];
    }
    assert d[0..] == d;
  }

  /** Memory with n bytes replaced. */
  function Stored(be: bool, m: seq<Byte>, at: nat, b: seq<Byte>): (r: seq<Byte>)
    requires at + |b| <= |m|
    ensures |r| == |m|
  {
    seq(|m|, i requires 0 <= i < |m| => if at <= i < at + |b| then b[Nth(be, |b|, i - at)] else m[i])
  }

  lemma {:induction false} BytesAt(v: int, n: nat, k: nat)
    requires k < n
    ensures Bytes(v, n)[k] == Halve(v, 8 * k) % 256
    decreases n
  {
    if k > 0 {
      BytesAt(v / 256, n - 1, k - 1);
      HalveByte(v, 8 * (k - 1));
    }
  }

  /** Memory with the k least significant of the bytes b replaced. */
  function StoredTo(be: bool, m: seq<Byte>, at: nat, b: seq<Byte>, k: nat): (r: seq<Byte>)
    requires at + |b| <= |m| && k <= |b|
    ensures |r| == |m|
  {
    if k == 0 then m else StoredTo(be, m, at, b, k - 1)[at + Nth(be, |b|, k - 1) := b[k - 1]]
  }

  lemma {:induction false} StoredToAt(be: bool, m: seq<Byte>, at: nat, b: seq<Byte>, k: nat, i: nat)
    requires at + |b| <= |m| && k <= |b| && i < |m|
    ensures StoredTo(be, m, at, b, k)[i]
            == if at <= i < at + |b| && Nth(be, |b|, i - at) < k then b[Nth(be, |b|, i - at)] else m[i]
    decreases k
  {
    if k > 0 {
      StoredToAt(be, m, at, b, k - 1, i);
    }
  }

  lemma StoredAll(be: bool, m: seq<Byte>, at: nat, b: seq<Byte>)
    requires at + |b| <= |m|
    ensures StoredTo(be, m, at, b, |b|) == Stored(be, m, at, b)
  {
    forall i | 0 <= i < |m| ensures StoredTo(be, m, at, b, |b|)[i] == Stored(be, m, at, b)[i] {
      StoredToAt(be, m, at, b, |b|, i);
    }
  }

  /** One byte more. */
  method StoreByte(be: bool, m: array<Byte>, at: nat, ghost was: seq<Byte>, ghost b: seq<Byte>, n: nat, k: nat, x: Byte)
    requires n == |b| && at + n <= m.Length && k < n && x == b[k] && |was| == m.Length
             && m[..] == StoredTo(be, was, at, b, k)
    modifies m
    ensures m[..] == StoredTo(be, was, at, b, k + 1)
  {
    m[at + Nth(be, n, k)] := x;
  }

  /** `setval` */
  method SetVal(be: bool, m: array<Byte>, at: nat, n: nat, val: int)
    requires at + n <= m.Length
    modifies m
    ensures m[..] == Stored(be, old(m[..]), at, Bytes(val, n))
  {
    var k, rest := 0, val;
    ghost var was, b := m[..], Bytes(val, n);
    while k < n
      invariant k <= n && rest == Halve(val, 8 * k) && m[..] == StoredTo(be, was, at, b, k)
    {
      BytesAt(val, n, k);
      HalveByte(val, 8 * k);
      StoreByte(be, m, at, was, b, n, k, rest % 256);
      rest := rest / 256;
      k := k + 1;
    }
    StoredAll(be, was, at, b);
  }

  // ---------- fields ----------

  /** A relocation field: where its bytes begin, the first bit, and its size in bits. */
  datatype Field = Field(at: nat, bit: nat, size: nat)

  function Span(f: Field): nat {
    (f.bit + f.size + 7) / 8
  }

  /** The lowest bit of the field in the number made of all its bytes. */
  function Shift(be: bool, f: Field): nat {
    if be then 8 * Span(f) - (f.bit + f.size) else f.bit
  }

  /** The position in that number of bit j of byte i of the memory. */
  function Position(be: bool, f: Field, i: nat, j: nat): nat
    requires f.at <= i < f.at + Span(f)
  {
    8 * Nth(be, Span(f), i - f.at) + j
  }

  predicate InField(be: bool, f: Field, i: nat, j: nat) {
    f.at <= i < f.at + Span(f) && j < 8 && Shift(be, f) <= Position(be, f, i, j) < Shift(be, f) + f.size
  }

  /** The field holds the lowest bits of v. */
  ghost predicate Holds(be: bool, m: seq<Byte>, f: Field, v: int) {
    forall i: nat, j: nat :: i < |m| && InField(be, f, i, j)
      ==> BitOf(m[i], j) == BitOf(v, Position(be, f, i, j) - Shift(be, f))
  }

  /** No bit outside the field has changed. */
  ghost predicate SameOutside(be: bool, m: seq<Byte>, r: seq<Byte>, f: Field) {
    |r| == |m|
    && forall i: nat, j: nat :: i < |m| && j < 8 && !InField(be, f, i, j) ==> BitOf(r[i], j) == BitOf(m[i], j)
  }

  lemma DigitBits(be: bool, m: seq<Byte>, f: Field, i: nat, j: nat)
    requires f.at <= i < f.at + Span(f) <= |m| && j < 8
    ensures BitOf(Number(Fetched(be, m, f.at, Span(f))), Position(be, f, i, j)) == BitOf(m[i], j)
  {
    NumberBits(Fetched(be, m, f.at, Span(f)), Position(be, f, i, j));
    assert Position(be, f, i, j) / 8 == Nth(be, Span(f), i - f.at);
    assert Position(be, f, i, j) % 8 == j;
    assert f.at + Nth(be, Span(f), Nth(be, Span(f), i - f.at)) == i;
  }

  /** Memory with the lowest bits of d in a field. */
  function WithField(be: bool, m: seq<Byte>, f: Field, d: int): (r: seq<Byte>)
    requires f.at + Span(f) <= |m|
    ensures |r| == |m|
  {
    Stored(be, m, f.at, Bytes(Put(Number(Fetched(be, m, f.at, Span(f))), Shift(be, f), f.size, d), Span(f)))
  }

  /** The field takes the lowest bits of d, every other bit stays. */
  lemma FieldWritten(be: bool, m: seq<Byte>, f: Field, d: int)
    requires f.at + Span(f) <= |m|
    ensures Holds(be, WithField(be, m, f, d), f, d) && SameOutside(be, m, WithField(be, m, f, d), f)
  {
    var v := Number(Fetched(be, m, f.at, Span(f)));
    var w := Put(v, Shift(be, f), f.size, d);
    var r := WithField(be, m, f, d);
    forall i: nat, j: nat | f.at <= i < f.at + Span(f) && j < 8
      ensures BitOf(r[i], j)
              == if InField(be, f, i, j) then BitOf(d, Position(be, f, i, j) - Shift(be, f)) else BitOf(m[i], j)
    {
      BytesBits(w, Span(f), Nth(be, Span(f), i - f.at), j);
      PutBits(v, Shift(be, f), f.size, d, Position(be, f, i, j));
      DigitBits(be, m, f, i, j);
    }
  }

  /** `setbits` */
  method SetBits(be: bool, m: array<Byte>, f: Field, d: int)
    requires f.at + Span(f) <= m.Length && Span(f) <= 8
    modifies m
    ensures m[..] == WithField(be, old(m[..]), f, d)
  {
    var val := ReadVal(be, m, f.at, Span(f));
    InsertIsPut(val, Shift(be, f), f.size, d);
    SetVal(be, m, f.at, Span(f), Insert(val, Shift(be, f), f.size, d));
  }

  /** `readbits`: reads back what the field holds. */
  method ReadBits(be: bool, m: array<Byte>, f: Field) returns (val: int)
    requires f.at + Span(f) <= m.Length && Span(f) <= 8
    ensures forall v :: Holds(be, m[..], f, v) ==> val == Low(v, f.size)
  {
    var n := ReadVal(be, m, f.at, Span(f));
    val := Low(Halve(n, Shift(be, f)), f.size);
    forall v | Holds(be, m[..], f, v) ensures val == Low(v, f.size) {
      FieldIsLow(be, m[..], f, v);
    }
  }

  lemma FieldIsLow(be: bool, m: seq<Byte>, f: Field, v: int)
    requires f.at + Span(f) <= |m| && Holds(be, m, f, v)
    ensures Low(Halve(Number(Fetched(be, m, f.at, Span(f))), Shift(be, f)), f.size) == Low(v, f.size)
  {
    var n, s := Number(Fetched(be, m, f.at, Span(f))), Shift(be, f);
    forall k: nat | k < f.size ensures BitOf(Halve(n, s), k) == BitOf(v, k) {
      HalveBits(n, s, k);
      var i, j := f.at + Nth(be, Span(f), (s + k) / 8), (s + k) % 8;
      assert Position(be, f, i, j) == s + k;
      DigitBits(be, m, f, i, j);
    }
    LowSame(Halve(n, s), v, f.size);
  }

  /** A field keeps its value while another one is written that shares no bit with it. */
  ghost predicate Apart(be: bool, f: Field, g: Field) {
    forall i: nat, j: nat :: !(InField(be, f, i, j) && InField(be, g, i, j))
  }

  lemma HoldsStill(be: bool, m: seq<Byte>, r: seq<Byte>, f: Field, g: Field, v: int)
    requires Holds(be, m, f, v) && SameOutside(be, m, r, g) && Apart(be, f, g)
    ensures Holds(be, r, f, v)
  {}
}
