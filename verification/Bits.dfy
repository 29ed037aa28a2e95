/** Binary digits of integers: doubling, halving towards minus infinity, single bits and low parts. */
module Bits {
  /** The magnitude of a number. */
  function AbsOf(x: int): nat {
    if x < 0 then -x else x
  }

  /** Bit i of a number; a negative number continues with ones for ever. */
  predicate BitOf(v: int, i: nat)
    decreases i
  {
    if i == 0 then v % 2 == 1 else BitOf(v / 2, i - 1)
  }

  lemma FirstBit(h: int, b: int)
    requires b == 0 || b == 1
    ensures (2 * h + b) / 2 == h && (2 * h + b) % 2 == b
  {}

  function Double(v: int, n: nat): int
    decreases n
  {
    if n == 0 then v else 2 * Double(v, n - 1)
  }

  function Halve(v: int, n: nat): int
    decreases n
  {
    if n == 0 then v else Halve(v / 2, n - 1)
  }

  /** The number that the lowest n bits stand for. */
  function Low(v: int, n: nat): (r: int)
    ensures 0 <= r < Double(1, n)
    decreases n
  {
    if n == 0 then 0 else 2 * Low(v / 2, n - 1) + v % 2
  }

  /** The lowest bits decide about it. */
  lemma {:induction false} LowSame(v: int, w: int, n: nat)
    requires forall i :: 0 <= i < n ==> BitOf(v, i) == BitOf(w, i)
    ensures Low(v, n) == Low(w, n)
    decreases n
  {
    if n > 0 {
      assert BitOf(v, 0) == BitOf(w, 0);
      forall i: nat | i < n - 1 ensures BitOf(v / 2, i) == BitOf(w / 2, i) {
        assert BitOf(v, i + 1) == BitOf(w, i + 1);
      }
      LowSame(v / 2, w / 2, n - 1);
    }
  }

  lemma {:induction false} LowBits(v: int, n: nat, i: nat)
    ensures BitOf(Low(v, n), i) == (i < n && BitOf(v, i))
    decreases n
  {
    if n > 0 {
      if i > 0 {
        LowBits(v / 2, n - 1, i - 1);
      }
    } else {
      ZeroBits(i);
    }
  }

  lemma {:induction false} ZeroBits(i: nat)
    ensures !BitOf(0, i)
    decreases i
  {
    if i > 0 {
      ZeroBits(i - 1);
    }
  }

  lemma {:induction false} HalveBits(v: int, n: nat, i: nat)
    ensures BitOf(Halve(v, n), i) == BitOf(v, n + i)
    decreases n
  {
    if n > 0 {
      HalveBits(v / 2, n - 1, i);
    }
  }

  lemma {:induction false} HalveIsZero(v: int, n: nat)
    ensures Halve(v, n) == 0 <==> 0 <= v < Double(1, n)
    decreases n
  {
    if n > 0 {
      HalveIsZero(v / 2, n - 1);
    }
  }

  lemma {:induction false} HalveIsOnes(v: int, n: nat)
    ensures Halve(v, n) == -1 <==> -Double(1, n) <= v < 0
    decreases n
  {
    if n > 0 {
      HalveIsOnes(v / 2, n - 1);
    }
  }

  lemma {:induction false} DoubleMore(v: int, n: nat)
    ensures Double(v, n + 8) == 256 * Double(v, n)
  {
    assert Double(v, n + 2) == 4 * Double(v, n) && Double(v, n + 4) == 4 * Double(v, n + 2);
    assert Double(v, n + 6) == 4 * Double(v, n + 4) && Double(v, n + 8) == 4 * Double(v, n + 6);
  }

  lemma DoubleByte(r: int)
    ensures Double(r, 8) == 256 * r
  {
    assert Double(r, 4) == 16 * r;
    assert Double(r, 8) == 16 * Double(r, 4);
  }

  lemma {:induction false} HalveByte(v: int, n: nat)
    ensures Halve(v, n + 8) == Halve(v / 256, n) && Halve(v, n + 8) == Halve(v, n) / 256
    decreases n
  {
    if n > 0 {
      HalveByte(v / 2, n - 1);
      assert v / 256 / 2 == v / 2 / 256;
    } else {
      assert Halve(v, 8) == Halve(v / 16, 4) == v / 16 / 16;
    }
  }

  // ---------- signed numbers ----------

  /** v is in the range of signed numbers of n bits. */
  predicate SignedFits(v: int, n: nat)
    requires n > 0
  {
    Halve(v, n - 1) == 0 || Halve(v, n - 1) == -1
  }

  lemma SignedRange(v: int, n: nat)
    requires n > 0
    ensures SignedFits(v, n) <==> -Double(1, n - 1) <= v < Double(1, n - 1)
  {
    HalveIsZero(v, n - 1);
    HalveIsOnes(v, n - 1);
  }

  lemma {:induction false} HalveOnce(v: int, n: nat)
    ensures Halve(v, n + 1) == Halve(v, n) / 2 && BitOf(v, n) == (Halve(v, n) % 2 == 1)
    decreases n
  {
    if n > 0 {
      HalveOnce(v / 2, n - 1);
    }
  }

  lemma {:induction false} LowValue(v: int, n: nat)
    ensures Halve(v, n) == 0 ==> Low(v, n) == v
    ensures Halve(v, n) == -1 ==> Low(v, n) == v + Double(1, n)
    decreases n
  {
    if n > 0 {
      LowValue(v / 2, n - 1);
    }
  }

  /** Higher bits do not matter. */
  lemma {:induction false} LowAdd(v: int, m: nat, n: nat)
    requires n <= m
    ensures Low(v + Double(1, m), n) == Low(v, n) && Low(v - Double(1, m), n) == Low(v, n)
    decreases n
  {
    if n > 0 {
      assert (v + Double(1, m)) / 2 == v / 2 + Double(1, m - 1) && (v - Double(1, m)) / 2 == v / 2 - Double(1, m - 1);
      LowAdd(v / 2, m - 1, n - 1);
    }
  }

  lemma {:induction false} LowTwice(v: int, n: nat)
    ensures Low(Low(v, n), n) == Low(v, n)
    decreases n
  {
    if n > 0 {
      LowTwice(v / 2, n - 1);
    }
  }

  lemma {:induction false} BitAdd(v: int, m: nat, i: nat)
    requires i < m
    ensures BitOf(v + Double(1, m), i) == BitOf(v, i)
    decreases i
  {
    assert (v + Double(1, m)) / 2 == v / 2 + Double(1, m - 1);
    if i > 0 {
      BitAdd(v / 2, m - 1, i - 1);
    }
  }

  lemma HalveBy7(v: int, n: nat)
    ensures Halve(v, n + 7) == Halve(v, n) / 128
  {
    HalveOnce(v, n);
    HalveOnce(v, n + 1);
    HalveOnce(v, n + 2);
    HalveOnce(v, n + 3);
    HalveOnce(v, n + 4);
    HalveOnce(v, n + 5);
    HalveOnce(v, n + 6);
  }

  // ---------- doubling and halving together ----------

  lemma {:induction false} DoubleAdd(v: int, w: int, n: nat)
    ensures Double(v + w, n) == Double(v, n) + Double(w, n)
    decreases n
  {
    if n > 0 {
      DoubleAdd(v, w, n - 1);
    }
  }

  lemma {:induction false} DoubleDouble(v: int, m: nat, n: nat)
    ensures Double(Double(v, m), n) == Double(v, m + n)
    decreases n
  {
    if n > 0 {
      DoubleDouble(v, m, n - 1);
    }
  }

  /** A number is its low bits and the others. */
  lemma {:induction false} HalveLow(v: int, n: nat)
    ensures v == Double(Halve(v, n), n) + Low(v, n)
    decreases n
  {
    if n > 0 {
      HalveLow(v / 2, n - 1);
    }
  }

  lemma {:induction false} HalveHalve(v: int, m: nat, n: nat)
    ensures Halve(Halve(v, m), n) == Halve(v, m + n)
    decreases m
  {
    if m > 0 {
      HalveHalve(v / 2, m - 1, n);
    }
  }

  /** Halving a number made of a multiple of 2^n and less than that. */
  lemma {:induction false} HalveSum(h: int, l: int, n: nat)
    requires 0 <= l < Double(1, n)
    ensures Halve(Double(h, n) + l, n) == h
    decreases n
  {
    if n > 0 {
      assert (Double(h, n) + l) / 2 == Double(h, n - 1) + l / 2;
      HalveSum(h, l / 2, n - 1);
    }
  }

  lemma {:induction false} DoubleTimes(q: int, x: int, k: nat)
    ensures Double(q * x, k) == q * Double(x, k)
  {
    if k > 0 {
      DoubleTimes(q, x, k - 1);
      assert 2 * (q * Double(x, k - 1)) == q * (2 * Double(x, k - 1));
    }
  }

  lemma {:induction false} DoubleTwice(x: int, k: nat)
    ensures Double(2 * x, k) == 2 * Double(x, k)
  {
    if k > 0 { DoubleTwice(x, k - 1); }
  }

  lemma {:induction false} DoubleMono(x: int, y: int, k: nat)
    ensures x < y ==> Double(x, k) + Double(1, k) <= Double(y, k)
    ensures x <= y ==> Double(x, k) <= Double(y, k)
    ensures Double(1, k) >= 1 && Double(0, k) == 0
  {
    if k > 0 { DoubleMono(x, y, k - 1); }
  }

  /** The signed number that the lowest n bits stand for. */
  function LowSigned(v: int, n: nat): int
    requires n > 0
  {
    if BitOf(v, n - 1) then Low(v, n) - Double(1, n) else Low(v, n)
  }

  /** Of a number in the signed or unsigned range, n bits give it back, or less 2^n. */
  lemma LowSignedOf(v: int, n: nat)
    requires n > 0 && -Double(1, n - 1) <= v < Double(1, n)
    ensures LowSigned(v, n) == if v < Double(1, n - 1) then v else v - Double(1, n)
    ensures BitOf(v, n - 1) <==> v < 0 || v >= Double(1, n - 1)
  {
    HalveOnce(v, n - 1);
    LowValue(v, n);
    HalveIsZero(v, n - 1);
    HalveIsOnes(v, n - 1);
    HalveIsZero(v, n);
  }

  /** The bits that doubling brings in are clear. */
  lemma {:induction false} DoubleClear(v: int, n: nat, i: nat)
    requires i < n
    ensures !BitOf(Double(v, n), i)
  {
    FirstBit(Double(v, n - 1), 0);
    if i > 0 {
      DoubleClear(v, n - 1, i - 1);
    }
  }
}
