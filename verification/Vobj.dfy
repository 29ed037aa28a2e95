/** Numbers in VOBJ files, as they are written and read back. */
module Vobj {
  import opened Bitfields
  import opened Bits
  import opened Sequences

  /** The number of bytes up to the last one among the first k that is not the filler; at least 1. */
  function Used(v: int, filler: Byte, k: nat): (n: nat)
    ensures 1 <= n && (k > 0 ==> n <= k)
  {
    if k == 0 then 1 else if ByteOf(v, k - 1) != filler then k else Used(v, filler, k - 1)
  }

  /** A number of `size` bytes in the encoding of a format version (0 is the first). */
  function Encoded(v: int, version: nat, size: nat): (b: seq<Byte>)
    requires 0 < size < 64
  {
    var s, u := if version == 0 then size else Used(v, 0, size), if version == 0 then size else Used(v, 255, size);
    if 0 <= v <= 127 then [v]
    else if u < s then [0xC0 + u] + Bytes(v, u)
    else [0x80 + s] + Bytes(v, s)
  }

  /** `write_number` */
  method WriteNumber(v: int, version: nat, size: nat) returns (out: seq<Byte>)
    requires 0 < size < 64
    ensures out == Encoded(v, version, size)
  {
    if 0 <= v <= 127 {
      return [v];
    }
    var s, u := size, size;
    if version != 0 {
      s, u := 1, 1;
      var tmp := v;
      for i := 1 to size + 1
        invariant tmp == Halve(v, 8 * (i - 1)) && s == Used(v, 0, i - 1) && u == Used(v, 255, i - 1)
      {
        if tmp % 256 != 0 {
          s := i;
        }
        if tmp % 256 != 255 {
          u := i;
        }
        HalveByte(v, 8 * (i - 1));
        tmp := tmp / 256;
      }
    }
    if u < s {
      out := [0xC0 + u];
      s := u;
    } else {
      out := [0x80 + s];
    }
    var rest, head := v, out;
    for i := 0 to s
      invariant out + Bytes(rest, s - i) == head + Bytes(v, s)
    {
      Associative(out, [rest % 256], Bytes(rest / 256, s - i - 1));
      out := out + [rest % 256];
      rest := rest / 256;
    }
    assert out + [] == out;
  }

  /** A number read, and what follows it. */
  datatype Read = Read(val: int, rest: seq<Byte>)

  /** `read_number`, for addresses of `bits` bits; no value if the file is corrupt. */
  function ReadNumber(b: seq<Byte>, signed: bool, bits: nat): Option<Read>
    requires bits > 0
  {
    if b == [] then None
    else if b[0] <= 0x7f then Some(Read(b[0], b[1..]))
    else
      var n := b[0] % 64;
      if 1 + n > |b| then None
      else
        var v := Number(b[1..1 + n]);
        Some(Read(
          if b[0] >= 0xC0 then v - Double(1, 8 * n)
          else if signed && BitOf(v, bits - 1) then Low(v, bits) - Double(1, bits)
          else v, b[1 + n..]))
  }

  /** `read_number`: the payload is or-ed in byte by byte. */
  method ReadPayload(b: seq<Byte>, signed: bool, bits: nat) returns (r: Option<Read>)
    requires bits > 0
    ensures r == ReadNumber(b, signed, bits)
  {
    if b == [] {
      return None;
    }
    var p, head := 1, b[0] as int;
    if head <= 0x7f {
      return Some(Read(head, b[p..]));
    }
    var n: nat := head % 64;
    if p + n > |b| {
      return None;
    }
    var start := if head >= 0xC0 then -Double(1, 8 * n) else 0;
    var val := start;
    for i := 0 to n
      invariant p == 1 + i && val == start + Number(b[1..1 + i])
    {
      NumberMore(b[1..1 + i], b[1 + i]);
      assert b[1..1 + i + 1] == b[1..1 + i] + [b[1 + i]];
      val := val + Double(b[p], 8 * i);
      p := p + 1;
    }
    if head < 0xC0 && signed && BitOf(val, bits - 1) {
      val := Low(val, bits) - Double(1, bits);
    }
    r := Some(Read(val, b[p..]));
  }

  // ---------- how much is written ----------

  lemma {:induction false} UsedHolds(v: int, k: nat)
    ensures Halve(v, 8 * k) == 0 ==> Halve(v, 8 * Used(v, 0, k)) == 0
    ensures Halve(v, 8 * k) == -1 ==> Halve(v, 8 * Used(v, 255, k)) == -1
  {
    if k == 0 {
      HalveByte(v, 0);
    } else {
      HalveByte(v, 8 * (k - 1));
      UsedHolds(v, k - 1);
    }
  }

  lemma {:induction false} HalveStays(v: int, j: nat, k: nat)
    requires j <= k
    ensures Halve(v, 8 * j) == 0 ==> Halve(v, 8 * k) == 0
    ensures Halve(v, 8 * j) == -1 ==> Halve(v, 8 * k) == -1
    decreases k
  {
    if j < k {
      HalveStays(v, j, k - 1);
      HalveByte(v, 8 * (k - 1));
    }
  }

  lemma {:induction false} UsedLeast(v: int, k: nat, n: nat)
    requires n >= 1
    ensures Halve(v, 8 * n) == 0 ==> Used(v, 0, k) <= n
    ensures Halve(v, 8 * n) == -1 ==> Used(v, 255, k) <= n
    decreases k
  {
    if k > n {
      HalveStays(v, n, k - 1);
      UsedLeast(v, k - 1, n);
    }
  }

  // ---------- the round trip ----------

  /** What the second form of a payload reads as. */
  function Extended(v: int, signed: bool, bits: nat): int
    requires bits > 0
  {
    if signed && BitOf(v, bits - 1) then LowSigned(v, bits) else v
  }

  lemma PayloadBack(code: Byte, p: seq<Byte>, rest: seq<Byte>, signed: bool, bits: nat)
    requires bits > 0 && code >= 0x80 && code as int % 64 == |p|
    ensures ReadNumber([code] + p + rest, signed, bits)
            == Some(Read(
                 if code >= 0xC0 then Number(p) - Double(1, 8 * |p|) else Extended(Number(p), signed, bits),
                 rest))
  {
    var b := [code] + p + rest;
    assert b[1..1 + |p|] == p && b[1 + |p|..] == rest;
  }

  /** Extending the bits of v, or of v + 2^m, gives v again if it fits; the low bits it always gives. */
  lemma ExtendedBack(v: int, w: int, m: nat, signed: bool, bits: nat)
    requires 0 < bits <= m && (w == v || w == v + Double(1, m)) && (w == v ==> v >= 0)
    ensures Low(Extended(w, signed, bits), bits) == Low(v, bits)
    ensures signed && SignedFits(v, bits) && (w == v || v < 0) ==> Extended(w, signed, bits) == v
  {
    LowAdd(v, m, bits);
    BitAdd(v, m, bits - 1);
    ExtendedLow(w, signed, bits);
    if SignedFits(v, bits) {
      SignedLow(v, bits);
    }
  }

  lemma SignedLow(v: int, bits: nat)
    requires 0 < bits && SignedFits(v, bits)
    ensures LowSigned(v, bits) == v && (BitOf(v, bits - 1) <==> v < 0)
  {
    SignedRange(v, bits);
    DoubleMono(0, 1, bits - 1);
    LowSignedOf(v, bits);
  }

  lemma ExtendedLow(w: int, signed: bool, bits: nat)
    requires 0 < bits
    ensures Low(Extended(w, signed, bits), bits) == Low(w, bits)
  {
    LowAdd(Low(w, bits), bits, bits);
    LowTwice(w, bits);
  }

  /** The number in s bytes, extended from there. */
  lemma PlainBack(v: int, version: nat, size: nat, s: nat, u: nat, signed: bool, bits: nat)
    requires 0 < size < 64 && 0 < bits <= 8 * size && SignedFits(v, 8 * size) && u >= s
    requires if version == 0 then s == size && u == size else s == Used(v, 0, size) && u == Used(v, 255, size)
    ensures Low(Extended(Number(Bytes(v, s)), signed, bits), bits) == Low(v, bits)
    ensures signed && SignedFits(v, bits) ==> Extended(Number(Bytes(v, s)), signed, bits) == v
  {
    UsedHolds(v, size);
    NumberOfBytes(v, s);
    TopByte(v, size);
    ExtendedBack(v, Number(Bytes(v, s)), if v < 0 then 8 * s else 8 * size, signed, bits);
  }

  /** Reading b consumes exactly b, and gives v or, if that is not to be expected, its low bits. */
  predicate ReadsAs(b: seq<Byte>, rest: seq<Byte>, v: int, signed: bool, bits: nat)
    requires bits > 0
  {
    var r := ReadNumber(b + rest, signed, bits);
    && r.Some? && r.value.rest == rest && Low(r.value.val, bits) == Low(v, bits)
    && (signed && SignedFits(v, bits) ==> r.value.val == v)
  }

  lemma OnesBack(v: int, size: nat, u: nat, signed: bool, bits: nat, rest: seq<Byte>)
    requires 0 < size < 64 && 0 < bits && SignedFits(v, 8 * size)
    requires u == Used(v, 255, size) < Used(v, 0, size)
    ensures ReadsAs([0xC0 + u] + Bytes(v, u), rest, v, signed, bits)
  {
    UsedHolds(v, size);
    NumberOfBytes(v, u);
    TopByte(v, size);
    PayloadBack(0xC0 + u, Bytes(v, u), rest, signed, bits);
  }

  lemma OthersBack(v: int, version: nat, size: nat, s: nat, u: nat, signed: bool, bits: nat, rest: seq<Byte>)
    requires 0 < size < 64 && 0 < bits <= 8 * size && SignedFits(v, 8 * size) && u >= s
    requires if version == 0 then s == size && u == size else s == Used(v, 0, size) && u == Used(v, 255, size)
    ensures ReadsAs([0x80 + s] + Bytes(v, s), rest, v, signed, bits)
  {
    PlainBack(v, version, size, s, u, signed, bits);
    PayloadBack(0x80 + s, Bytes(v, s), rest, signed, bits);
  }

  /** Reading consumes exactly what was written; it gives the number back if it is a signed number
      in the address range, in every version, and its low bits in any case. */
  lemma RoundTrip(v: int, version: nat, size: nat, signed: bool, bits: nat, rest: seq<Byte>)
    requires 0 < size < 64 && 0 < bits <= 8 * size && SignedFits(v, 8 * size)
    ensures ReadsAs(Encoded(v, version, size), rest, v, signed, bits)
  {
    var s, u := if version == 0 then size else Used(v, 0, size), if version == 0 then size else Used(v, 255, size);
    if 0 <= v <= 127 {
      assert ([v] + rest)[1..] == rest;
    } else if u < s {
      OnesBack(v, size, u, signed, bits, rest);
    } else {
      OthersBack(v, version, size, s, u, signed, bits, rest);
    }
  }

  // ---------- economy ----------

  /** From the second version on, no other way to write a number takes fewer bytes, except that
      nothing at all would do behind the head byte for -1. */
  lemma FewestBytes(v: int, version: nat, size: nat, code: Byte, p: seq<Byte>)
    requires 0 < size < 64 && version > 0 && SignedFits(v, 8 * size) && !(0 <= v <= 127) && v != -1
    requires code >= 0x80 && code as int % 64 == |p| && ReadNumber([code] + p, true, 8 * size) == Some(Read(v, []))
    ensures |Encoded(v, version, size)| - 1 <= |p|
  {
    TopByte(v, size);
    var n := Number(p);
    assert [code] + p + [] == [code] + p;
    PayloadBack(code, p, [], true, 8 * size);
    NumberRange(p);
    HalveIsZero(v, 8 * |p|);
    HalveIsOnes(v, 8 * |p|);
    if |p| > 0 {
      UsedLeast(v, size, |p|);
    }
    if code < 0xC0 && BitOf(n, 8 * size - 1) {
      NumberBits(p, 8 * size - 1);
    }
  }

  lemma MinusOne(version: nat, size: nat)
    requires 0 < size < 64 && version > 0
    ensures ReadNumber([0xC0], true, 8 * size) == Some(Read(-1, [])) && |Encoded(-1, version, size)| == 2
  {
    UsedOnes(size);
    assert [0xC0][1..1] == [] && [0xC0][1..] == [];
  }

  lemma {:induction false} UsedOnes(k: nat)
    ensures Used(-1, 255, k) == 1 && Halve(-1, 8 * k) == -1
  {
    if k > 0 {
      UsedOnes(k - 1);
      HalveByte(-1, 8 * (k - 1));
    }
  }
}
