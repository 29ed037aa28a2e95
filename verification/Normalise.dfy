/** How `divmod` brings its operands into shape: digit counts, the shift that makes the
    divisor's first digit large, and the loops that shift the digit arrays. */
module Normalise {
  import opened Bits
  import opened Digits

  // ---------- shifting digit arrays ----------

  /** A digit shifted left by sh: the bits that leave it (x >> (32 - sh)), and those that stay. */
  function Hi(x: Digit, sh: nat): int
    requires sh <= 32
  {
    Double(x, sh) / BASE
  }

  function Lo(x: Digit, sh: nat): Digit {
    Double(x, sh) % BASE
  }

  /** The bits kept of one digit and the bits received from the next do not overlap, so that
      the `|` which joins them is a sum. */
  lemma HiLo(x: Digit, y: Digit, sh: nat)
    requires sh <= 32
    ensures 0 <= Hi(x, sh) < Double(1, sh) && Hi(x, sh) == Halve(x, 32 - sh)
    ensures Lo(x, sh) <= BASE - Double(1, sh)
    ensures 0 <= Lo(x, sh) + Hi(y, sh) < BASE
  {
    HiBound(x, sh);
    HiBound(y, sh);
    LoBound(x, sh);
    HalveIsHigh(x, sh);
  }

  lemma HiBound(x: Digit, sh: nat)
    requires sh <= 32
    ensures 0 <= Hi(x, sh) < Double(1, sh)
  {
    DoubleMono(0, x, sh);
    DoubleMono(x, BASE, sh);
    DoubleBase(1, sh);
  }

  /** What stays is a multiple of 2^sh. */
  lemma LoBound(x: Digit, sh: nat)
    requires sh <= 32
    ensures Lo(x, sh) <= BASE - Double(1, sh)
  {
    var h := Halve(x, 32 - sh);
    HalveLow(x, 32 - sh);
    HalveIsHigh(x, sh);
    var rest := x - Double(h, 32 - sh);
    DoubleAdd(Double(h, 32 - sh), rest, sh);
    DoubleDouble(h, 32 - sh, sh);
    Double32(h);
    DoubleMono(rest, Double(1, 32 - sh), sh);
    DoubleDouble(1, 32 - sh, sh);
    Double32(1);
  }

  /** The digit that both shift loops store. */
  function Joined(x: Digit, y: Digit, sh: nat): (r: Digit)
    requires sh <= 32
    ensures r == Lo(x, sh) + Hi(y, sh)
  {
    HiLo(x, y, sh);
    HiLo(y, 0, sh);
    Lo(x, sh) + Halve(y, 32 - sh)
  }

  /** `shift_digits`: shifts the digits off .. off + len left by sh. */
  method ShiftDigits(p: array<Digit>, off: nat, len: nat, sh: nat)
    requires off + len < p.Length && 0 < sh < 32
    modifies p
    ensures forall x :: 0 <= x < p.Length && !(off <= x <= off + len) ==> p[x] == old(p[x])
    ensures Val(p[off..off + len + 1]) + Scale(Hi(old(p[off]), sh), len + 1)
            == Double(Val(old(p[off..off + len + 1])), sh)
  {
    ghost var s := p[off..off + len + 1];
    var i := 0;
    assert p[off..off] == [] == s[..0];
    DoubleMono(0, 0, sh);
    while i < len
      invariant 0 <= i <= len
      invariant forall x :: 0 <= x < p.Length && !(off <= x < off + i) ==> p[x] == old(p[x])
      invariant Shifted(p[off..off + i], s, i, sh)
    {
      ghost var done := p[off..off + i];
      var x := Joined(p[off + i], p[off + i + 1], sh);
      p[off + i] := x;
      assert p[off..off + i] == done;
      assert p[off..off + i + 1] == done + [x];
      ShiftStep(done, s, i, sh, x, Hi(s[i + 1], sh));
      i := i + 1;
    }
    ghost var done := p[off..off + i];
    p[off + i] := Lo(p[off + i], sh);
    assert p[off..off + i + 1] == done + [p[off + i]];
    ShiftStep(done, s, i, sh, p[off + i], 0);
    assert s[..len + 1] == s;
  }

  /** done holds the first i digits of s shifted, with the bits of s[i] that move into them. */
  ghost predicate Shifted(done: seq<Digit>, s: seq<Digit>, i: nat, sh: nat) {
    i < |s| && sh <= 32 && Val(done) + Scale(Hi(s[0], sh), i) == Double(Val(s[..i]), sh) + Hi(s[i], sh)
  }

  lemma ShiftStep(done: seq<Digit>, s: seq<Digit>, i: nat, sh: nat, x: Digit, next: int)
    requires Shifted(done, s, i, sh) && x == Lo(s[i], sh) + next
    ensures Val(done + [x]) + Scale(Hi(s[0], sh), i + 1) == Double(Val(s[..i + 1]), sh) + next
  {
    ValSnoc(done, x);
    ValSnoc(s[..i], s[i]);
    assert s[..i + 1] == s[..i] + [s[i]];
    DoubleAdd(BASE * Val(s[..i]), s[i], sh);
    DoubleBase(Val(s[..i]), sh);
  }

  /** Shifts the n digits after `top` right by d, with the low bits of the digit at `top`
      moving in from above, and clears the digit at `top`. */
  method Denormalise(u: array<Digit>, top: nat, n: nat, d: nat)
    requires top + n < u.Length && 0 < d < 32
    modifies u
    ensures forall x :: 0 <= x < u.Length && !(top <= x <= top + n) ==> u[x] == old(u[x])
    ensures u[top] == 0
    ensures Unshifted(u[top + 1..top + n + 1], old(u[top..top + n + 1]), 32 - d)
  {
    ghost var s := u[top..top + n + 1];
    var i := n;
    UnshiftStart(s, n, 32 - d);
    while i > 0
      invariant 0 <= i <= n
      invariant forall x :: 0 <= x < u.Length && !(top + i < x <= top + n) ==> u[x] == old(u[x])
      invariant Unshifted(u[top + i + 1..top + n + 1], s[i..], 32 - d)
    {
      ghost var low := u[top + i + 1..top + n + 1];
      var x := Joined(u[top + i - 1], u[top + i], 32 - d);
      u[top + i] := x;
      assert u[top + i + 1..top + n + 1] == low;
      assert u[top + i..top + n + 1] == [u[top + i]] + low;
      assert s[i - 1..][1..] == s[i..] && s[i..][0] == s[i];
      UnshiftStep(low, s[i - 1..], 32 - d, x);
      i := i - 1;
    }
    ghost var low := u[top + 1..top + n + 1];
    u[top] := 0;
    assert u[top + 1..top + n + 1] == low && s[0..] == s;
  }

  /** low are the digits of s shifted left by e, apart from the bits leaving the first digit
      and those left in the last. */
  ghost predicate Unshifted(low: seq<Digit>, s: seq<Digit>, e: nat) {
    |s| == |low| + 1 && e <= 32 &&
    BASE * Val(low) + Lo(s[|low|], e) + Scale(Hi(s[0], e), |s|) == Double(Val(s), e)
  }

  lemma UnshiftStart(s: seq<Digit>, n: nat, e: nat)
    requires |s| == n + 1 && e <= 32
    ensures Unshifted([], s[n..], e)
  {
    assert ValTo(s[n..], 1) == BASE * ValTo(s[n..], 0) + s[n];
    assert Scale(Hi(s[n], e), 1) == BASE * Scale(Hi(s[n], e), 0);
  }

  lemma UnshiftStep(low: seq<Digit>, s: seq<Digit>, e: nat, x: Digit)
    requires |s| == |low| + 2 && Unshifted(low, s[1..], e) && x == Hi(s[1], e) + Lo(s[0], e)
    ensures Unshifted([x] + low, s, e)
  {
    var k := |low|;
    ValCons(x, low);
    ValHead(s);
    DoubleAdd(Scale(s[0], k + 1), Val(s[1..]), e);
    DoubleScale(s[0], k + 1, e);
    ScaleAdd(Hi(s[1], e), Lo(s[0], e), k);
    ScaleOut(Double(s[0], e), Hi(s[0], e), Lo(s[0], e), k + 1);
    assert s[1..][|low|] == s[k + 1] && s[1..][0] == s[1];
  }

  lemma {:induction false} DoubleScale(x: int, k: nat, e: nat)
    ensures Double(Scale(x, k), e) == Scale(Double(x, e), k)
  {
    if k > 0 {
      DoubleScale(x, k - 1, e);
      DoubleBase(Scale(x, k - 1), e);
    }
  }

  lemma {:induction false} ScaleOut(y: int, h: int, l: int, k: nat)
    requires y == h * BASE + l
    ensures Scale(y, k) == Scale(l, k) + Scale(h, k + 1)
  {
    if k > 0 { ScaleOut(y, h, l, k - 1); }
  }

  // ---------- operands and normalisation ----------

  /** The number of base-2^32 digits of x. */
  function Len(x: nat): nat {
    if x == 0 then 0 else Len(x / BASE) + 1
  }

  /** The number of doublings that take t to BASE / 2 or above. */
  function Headroom(t: int): nat
    requires 0 < t
    decreases BASE - t
  {
    if t >= BASE / 2 then 0 else Headroom(2 * t) + 1
  }

  lemma {:induction false} LenBounds(x: nat, n: nat)
    requires x < Scale(1, n) && (n > 0 ==> Scale(1, n - 1) <= x)
    ensures Len(x) == n
  {
    if n > 1 { LenBounds(x / BASE, n - 1); }
  }

  lemma {:induction false} LenSpan(x: nat)
    ensures x < Scale(1, Len(x)) && (x > 0 ==> Len(x) > 0 && Drop(x, Len(x) - 1) > 0)
    ensures Len(x) > 0 ==> Drop(x, Len(x) - 1) < BASE
  {
    if x > 0 {
      LenSpan(x / BASE);
      if x / BASE == 0 { assert Len(x / BASE) == 0; }
    }
  }

  lemma {:induction false} HeadroomFits(t: int)
    requires 0 < t < BASE
    ensures Headroom(t) < 32 && BASE / 2 <= Double(t, Headroom(t)) < BASE
  {
    DoubleMono(1, t, 31);
    Double32(1);
    HeadroomWithin(t, 31);
  }

  lemma {:induction false} HeadroomWithin(t: int, k: nat)
    requires 0 < t < BASE && Double(t, k) >= BASE / 2
    ensures Headroom(t) <= k && BASE / 2 <= Double(t, Headroom(t)) < BASE
    decreases k
  {
    if t < BASE / 2 {
      DoubleTwice(t, k - 1);
      HeadroomWithin(2 * t, k - 1);
      DoubleTwice(t, Headroom(2 * t));
    }
  }
}
