/** Numbers written as digit sequences in base 2^32, most significant digit first, the form
    in which `divmod` works on its operands. Weights are built by repeated multiplication
    with the constant base, which keeps the reasoning about them linear. */
module Digits {
  import opened Bits


  const BASE: int := 0x1_0000_0000
  const WORD64: int := 0x1_0000_0000_0000_0000

  type Digit = x: int | 0 <= x < BASE

  /** x followed by k zero digits. */
  function Scale(x: int, k: nat): int {
    if k == 0 then x else BASE * Scale(x, k - 1)
  }

  /** x without its k lowest digits, and those k digits. */
  function Drop(x: nat, k: nat): nat {
    if k == 0 then x else Drop(x / BASE, k - 1)
  }

  function Keep(x: nat, k: nat): nat {
    if k == 0 then 0 else BASE * Keep(x / BASE, k - 1) + x % BASE
  }

  /** The number that a digit sequence denotes. */
  function Val(s: seq<Digit>): nat {
    ValTo(s, |s|)
  }

  function ValTo(s: seq<Digit>, k: nat): nat
    requires k <= |s|
  {
    if k == 0 then 0 else BASE * ValTo(s, k - 1) + s[k - 1]
  }

  // ---------- weights ----------

  lemma {:induction false} ScaleAdd(x: int, y: int, k: nat)
    ensures Scale(x + y, k) == Scale(x, k) + Scale(y, k)
  {
    if k > 0 { ScaleAdd(x, y, k - 1); }
  }

  lemma {:induction false} ScaleStep(x: int, k: nat)
    ensures Scale(BASE * x, k) == Scale(x, k + 1)
  {
    if k > 0 { ScaleStep(x, k - 1); }
  }

  lemma {:induction false} ScaleScale(x: int, j: nat, k: nat)
    ensures Scale(Scale(x, j), k) == Scale(x, j + k)
  {
    if j > 0 {
      ScaleStep(Scale(x, j - 1), k);
      ScaleScale(x, j - 1, k + 1);
    }
  }

  lemma {:induction false} ScaleMul(q: int, x: int, k: nat)
    ensures q * Scale(x, k) == Scale(q * x, k)
  {
    if k > 0 {
      ScaleMul(q, x, k - 1);
      assert q * (BASE * Scale(x, k - 1)) == BASE * (q * Scale(x, k - 1));
    }
  }

  /** Scaling keeps the order, and scales differences. */
  lemma {:induction false} ScaleMono(x: int, y: int, k: nat)
    ensures x < y ==> Scale(x, k) + Scale(1, k) <= Scale(y, k)
    ensures x <= y ==> Scale(x, k) <= Scale(y, k)
    ensures Scale(1, k) >= 1 && Scale(0, k) == 0
  {
    if k > 0 { ScaleMono(x, y, k - 1); }
  }

  // ---------- dropping and keeping low digits ----------

  lemma {:induction false} DropKeep(x: nat, k: nat)
    ensures x == Scale(Drop(x, k), k) + Keep(x, k) && Keep(x, k) < Scale(1, k)
  {
    if k > 0 { DropKeep(x / BASE, k - 1); }
  }

  lemma {:induction false} DropUnique(x: nat, k: nat, h: nat, l: nat)
    requires x == Scale(h, k) + l && l < Scale(1, k)
    ensures Drop(x, k) == h && Keep(x, k) == l
  {
    if k > 0 {
      assert x / BASE == Scale(h, k - 1) + l / BASE;
      DropUnique(x / BASE, k - 1, h, l / BASE);
    }
  }

  // ---------- values of digit sequences ----------

  lemma {:induction false} ValToPrefix(s: seq<Digit>, t: seq<Digit>, k: nat)
    requires k <= |s| && k <= |t| && s[..k] == t[..k]
    ensures ValTo(s, k) == ValTo(t, k)
  {
    if k > 0 {
      assert s[..k][..k - 1] == s[..k - 1] && t[..k][..k - 1] == t[..k - 1];
      assert s[k - 1] == s[..k][k - 1] && t[k - 1] == t[..k][k - 1];
      ValToPrefix(s, t, k - 1);
    }
  }

  /** Appending a digit. */
  lemma ValSnoc(s: seq<Digit>, x: Digit)
    ensures Val(s + [x]) == BASE * Val(s) + x
  {
    assert (s + [x])[..|s|] == s[..|s|];
    ValToPrefix(s + [x], s, |s|);
  }

  lemma {:induction false} ValConcat(s: seq<Digit>, t: seq<Digit>)
    ensures Val(s + t) == Scale(Val(s), |t|) + Val(t)
  {
    if t == [] {
      assert s + t == s;
    } else {
      var t', x := t[..|t| - 1], t[|t| - 1];
      ValConcat(s, t');
      ValSnoc(s + t', x);
      ValSnoc(t', x);
      assert s + t == (s + t') + [x] && t == t' + [x];
    }
  }

  lemma ValCons(x: Digit, s: seq<Digit>)
    ensures Val([x] + s) == Scale(x, |s|) + Val(s)
  {
    assert Val([x]) == x by { assert ValTo([x], 0) == 0; }
    ValConcat([x], s);
  }

  /** Splitting off the first digit. */
  lemma ValHead(s: seq<Digit>)
    requires s != []
    ensures Val(s) == Scale(s[0], |s| - 1) + Val(s[1..])
  {
    ValCons(s[0], s[1..]);
    assert [s[0]] + s[1..] == s;
  }

  lemma {:induction false} ValBound(s: seq<Digit>)
    ensures Val(s) < Scale(1, |s|)
  {
    if s != [] {
      ValBound(s[..|s| - 1]);
      ValSnoc(s[..|s| - 1], s[|s| - 1]);
      assert s == s[..|s| - 1] + [s[|s| - 1]];
    }
  }

  lemma {:induction false} ValZeros(s: seq<Digit>)
    requires forall i :: 0 <= i < |s| ==> s[i] == 0
    ensures Val(s) == 0
  {
    if s != [] {
      ValZeros(s[..|s| - 1]);
      ValSnoc(s[..|s| - 1], s[|s| - 1]);
      assert s == s[..|s| - 1] + [s[|s| - 1]];
    }
  }

  /** Prefix and suffix of the digits are the dropped and the kept part. */
  lemma ValPrefix(s: seq<Digit>, i: nat)
    requires i <= |s|
    ensures Val(s) == Scale(Val(s[..i]), |s| - i) + Val(s[i..])
    ensures Val(s[..i]) == Drop(Val(s), |s| - i) && Val(s[i..]) == Keep(Val(s), |s| - i)
  {
    assert s[..i] + s[i..] == s;
    ValConcat(s[..i], s[i..]);
    ValBound(s[i..]);
    DropUnique(Val(s), |s| - i, Val(s[..i]), Val(s[i..]));
  }

  /** Leading zero digits do not count. */
  lemma ValDropZeros(s: seq<Digit>, i: nat)
    requires i <= |s|
    requires forall x :: 0 <= x < i ==> s[x] == 0
    ensures Val(s) == Val(s[i..])
  {
    ValPrefix(s, i);
    ValZeros(s[..i]);
    ScaleMono(0, 0, |s| - i);
  }

  // ---------- products, quotients, powers of two ----------

  lemma Assoc(x: int, y: int, z: int)
    ensures (x * y) * z == x * (y * z)
  {}

  lemma Distribute(e: int, x: int, y: int, z: int)
    requires z == x + y
    ensures e * z == e * x + e * y
  {}

  lemma MulMono(x: int, y: int, z: int)
    requires x <= y && z >= 0
    ensures x * z <= y * z
  {}

  /** A positive factor can be cancelled from both sides. */
  lemma MulCancel(x: int, y: int, z: int)
    requires z > 0
    ensures x * z < y * z <==> x < y
    ensures x * z <= y * z <==> x <= y
  {}

  /** The number of times d can be subtracted from x. */
  function Quo(x: nat, d: nat): nat
    requires d > 0
  {
    if x < d then 0 else Quo(x - d, d) + 1
  }

  /** What is then left of x. */
  function Rem(x: nat, d: nat): nat
    requires d > 0
  {
    if x < d then x else Rem(x - d, d)
  }

  lemma {:induction false} QuoUnique(x: nat, d: nat, q: int, r: nat)
    requires d > 0 && x == q * d + r && r < d
    ensures Quo(x, d) == q && Rem(x, d) == r
    decreases x
  {
    if x < d {
      MulCancel(q, 1, d);
      MulCancel(-1, q, d);
    } else {
      MulCancel(0, q, d);
      Distribute(d, q - 1, 1, q);
      QuoUnique(x - d, d, q - 1, r);
    }
  }

  lemma {:induction false} QuoRest(x: nat, d: nat)
    requires d > 0
    ensures x == Quo(x, d) * d + Rem(x, d) && Rem(x, d) < d
    decreases x
  {
    if x >= d {
      QuoRest(x - d, d);
      Distribute(d, Quo(x - d, d), 1, Quo(x - d, d) + 1);
    }
  }

  lemma QuoIsDiv(x: nat, d: nat)
    requires d > 0
    ensures x / d == Quo(x, d) && x % d == Rem(x, d)
  {
    QuoUnique(x, d, x / d, x % d);
  }

  // ---------- shifts ----------

  lemma {:induction false} DoubleBase(x: int, k: nat)
    ensures Double(BASE * x, k) == BASE * Double(x, k)
  {
    if k > 0 { DoubleBase(x, k - 1); }
  }

  lemma Double32(x: int)
    ensures Double(x, 32) == BASE * x
  {
    DoubleByte(x);
    DoubleByte(Double(x, 8));
    DoubleByte(Double(x, 16));
    DoubleByte(Double(x, 24));
    DoubleDouble(x, 8, 8);
    DoubleDouble(x, 16, 8);
    DoubleDouble(x, 24, 8);
  }

  /** Shifting a digit right by 32 - sh leaves what a shift left by sh pushes out of it. */
  lemma HalveIsHigh(x: nat, sh: nat)
    requires sh <= 32
    ensures Halve(x, 32 - sh) == Double(x, sh) / BASE
  {
    var h := Halve(x, 32 - sh);
    HalveLow(x, 32 - sh);
    var rest := x - Double(h, 32 - sh);
    DoubleAdd(Double(h, 32 - sh), rest, sh);
    DoubleDouble(h, 32 - sh, sh);
    Double32(h);
    DoubleMono(rest, Double(1, 32 - sh), sh);
    DoubleMono(0, rest, sh);
    DoubleDouble(1, 32 - sh, sh);
    Double32(1);
    DoubleMono(0, x, sh);
    HighDigit(Double(x, sh), h, Double(rest, sh));
  }

  lemma HighDigit(x: nat, h: nat, rest: int)
    requires x == BASE * h + rest && 0 <= rest < BASE
    ensures x / BASE == h
  {}
}
