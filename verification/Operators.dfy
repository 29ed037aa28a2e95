/** What the operators of expressions mean, as relations between their operands and the result that
    do not follow the way in which it is computed. */
module Operators {
  import opened Bits
  import opened Expressions

  /** "true" is 1 or -1. */
  predicate Truth(t: int) {
    t == 1 || t == -1
  }

  predicate InRange(x: int) {
    -TADDR / 2 <= x < TADDR / 2
  }

  /** v is the number of 32 bits with sign that differs from x by a multiple of 2^32. */
  predicate Reduced(v: int, x: int) {
    InRange(v) && (v - x) % TADDR == 0
  }

  /** Division that rounds towards zero: the rest is smaller than the divisor and has the sign of
      the dividend. */
  predicate Divides(l: int, r: int, q: int, m: int) {
    l == q * r + m && AbsOf(m) < AbsOf(r) && (m == 0 || (m < 0 <==> l < 0))
  }

  /** The one quotient that does not fit. */
  predicate TooLarge(l: int, r: int) {
    l == -TADDR / 2 && r == -1
  }

  /** q is x divided by 2^n, rounded down. */
  predicate Floored(x: int, n: nat, q: int) {
    q * Double(1, n) <= x < (q + 1) * Double(1, n)
  }

  function UnsignedOf(x: int): int {
    if x < 0 then x + TADDR else x
  }

  predicate IsTruth(v: int, b: bool, truth: int) {
    (v == truth || v == 0) && (v != 0 <==> b)
  }

  /** v is the result of l op r. */
  ghost predicate Means(op: BinOp, l: int, r: int, truth: int, v: int) {
    match op
    case Add => Reduced(v, l + r)
    case Sub => Reduced(v, l - r)
    case Mul => Reduced(v, l * r)
    case Div => if r == 0 then v == 0 else if TooLarge(l, r) then v == l else exists m :: Divides(l, r, v, m)
    case Mod => if r == 0 then v == 0 else if TooLarge(l, r) then v == l else exists q :: Divides(l, r, q, v)
    case LAnd => IsTruth(v, l != 0 && r != 0, truth)
    case LOr => IsTruth(v, !(l == 0 && r == 0), truth)
    case BAnd => InRange(v) && forall i: nat :: BitOf(v, i) <==> BitOf(l, i) && BitOf(r, i)
    case BOr => InRange(v) && forall i: nat :: BitOf(v, i) <==> BitOf(l, i) || BitOf(r, i)
    case Xor => InRange(v) && forall i: nat :: BitOf(v, i) <==> BitOf(l, i) != BitOf(r, i)
    case Lsh => r >= 0 && Reduced(v, l * Double(1, r))
    case Rsh => r >= 0 && Floored(l, r, v)
    case Rshu => r >= 0 && exists q :: Floored(UnsignedOf(l), r, q) && Reduced(v, q)
    case Lt => IsTruth(v, l - r < 0, truth)
    case Gt => IsTruth(v, l - r > 0, truth)
    case Leq => IsTruth(v, !(l - r > 0), truth)
    case Geq => IsTruth(v, !(l - r < 0), truth)
    case Neq => IsTruth(v, l - r != 0, truth)
    case Eq => IsTruth(v, l - r == 0, truth)
  }

  /** A negative distance is undefined in C. */
  predicate Defined(op: BinOp, r: int) {
    op == Lsh || op == Rsh || op == Rshu ==> r >= 0
  }

  // ---------- reduction ----------

  lemma WrapReduces(x: int)
    ensures Reduced(Wrap(x), x)
  {
    var k := WrapRemoves(x);
    Multiple(k);
  }

  lemma Multiple(k: int)
    ensures (k * TADDR) % TADDR == 0
  {}

  lemma ReducedOnce(v: int, v': int, x: int)
    requires Reduced(v, x) && Reduced(v', x)
    ensures v == v'
  {
    var k, k' := (v - x) / TADDR, (v' - x) / TADDR;
    assert v - v' == (k - k') * TADDR;
  }

  lemma TaddrIsPower()
    ensures Double(1, 31) == TADDR / 2 && Double(1, 32) == TADDR
  {
    DoubleMore(1, 0);
    DoubleMore(1, 8);
    DoubleMore(1, 16);
    DoubleMore(1, 24);
    assert Double(1, 32) == 2 * Double(1, 31);
  }

  // ---------- division ----------

  lemma QuotientMeans(l: int, r: int)
    requires r != 0
    ensures Divides(l, r, CDiv(l, r), l - CDiv(l, r) * r)
  {
    SignedProduct(AbsOf(l) / AbsOf(r), l, r);
    QuotientSmall(AbsOf(l), AbsOf(r));
  }

  lemma QuotientSmall(a: nat, b: nat)
    requires b > 0
    ensures 0 <= a / b <= a && (b > 1 ==> 2 * (a / b) <= a) && 0 <= a - (a / b) * b <= a
            && (a / b == a && a > 0 ==> b == 1)
    ensures a - (a / b) * b < b
  {
    var q, r := a / b, a % b;
    assert a == q * b + r;
    assert q * b >= q;
    if b > 1 {
      assert q * b >= q * 2;
    }
  }

  /** A truncated quotient times the divisor has the sign of the dividend. */
  lemma SignedProduct(q: int, x: int, y: int)
    requires y != 0 && q == AbsOf(x) / AbsOf(y)
    ensures var p: int := q * AbsOf(y); CDiv(x, y) * y == if x < 0 then -p else p
  {
    var b: int := AbsOf(y);
    assert (-q) * y == -(q * y) && q * (-b) == -(q * b);
  }

  lemma DividesOnce(l: int, r: int, q: int, m: int, q': int, m': int)
    requires r != 0 && Divides(l, r, q, m) && Divides(l, r, q', m')
    ensures q == q' && m == m'
  {
    assert (q - q') * r == m' - m;
    if q != q' {
      FarApart(q - q', r);
    }
  }

  lemma FarApart(d: int, r: int)
    requires d != 0 && r != 0
    ensures AbsOf(d * r) >= AbsOf(r)
  {
    if d > 0 {
      assert d * r - r == (d - 1) * r;
    } else {
      assert -(d * r) - r == (-d - 1) * r;
    }
  }

  // ---------- bits ----------

  function BitResult(op: BinOp, p: bool, q: bool): bool {
    if op == BAnd then p && q else if op == BOr then p || q else p != q
  }

  lemma {:induction false} BitwiseBits(op: BinOp, x: int, y: int, n: nat, i: nat)
    requires i < n
    ensures BitOf(Bitwise(op, x, y, n), i) == BitResult(op, BitOf(x, i), BitOf(y, i))
    decreases n
  {
    FirstBit(Bitwise(op, x / 2, y / 2, n - 1), Bit(op, x, y));
    if i > 0 {
      BitwiseBits(op, x / 2, y / 2, n - 1, i - 1);
    }
  }

  lemma {:induction false} WrapBits(x: int, i: nat)
    requires i < 32
    ensures BitOf(Wrap(x), i) == BitOf(x, i)
    decreases Excess(x)
  {
    TaddrIsPower();
    if x < -TADDR / 2 {
      WrapBits(x + TADDR, i);
      BitAdd(x, 32, i);
    } else if x >= TADDR / 2 {
      WrapBits(x - TADDR, i);
      BitAdd(x - TADDR, 32, i);
    }
  }

  /** From bit 31 on, a number of 32 bits repeats its sign. */
  lemma HighBits(x: int, i: nat)
    requires InRange(x) && i >= 31
    ensures BitOf(x, i) == (x < 0)
  {
    TaddrIsPower();
    HalveBits(x, 31, i - 31);
    HalveIsZero(x, 31);
    HalveIsOnes(x, 31);
    SignBits(i - 31);
  }

  lemma {:induction false} SignBits(i: nat)
    ensures !BitOf(0, i) && BitOf(-1, i)
  {
    if i > 0 {
      SignBits(i - 1);
    }
  }

  lemma BitwiseMeans(op: BinOp, l: int, r: int, i: nat)
    requires InRange(l) && InRange(r)
    ensures BitOf(Wrap(Bitwise(op, l, r, 32)), i) == BitResult(op, BitOf(l, i), BitOf(r, i))
  {
    var v, j := Wrap(Bitwise(op, l, r, 32)), if i < 32 then i else 31;
    WrapBits(Bitwise(op, l, r, 32), j);
    BitwiseBits(op, l, r, 32, j);
    SignRepeats(v, i);
    SignRepeats(l, i);
    SignRepeats(r, i);
  }

  lemma SignRepeats(x: int, i: nat)
    requires InRange(x)
    ensures BitOf(x, i) == BitOf(x, if i < 32 then i else 31)
  {
    if i >= 32 {
      HighBits(x, i);
      HighBits(x, 31);
    }
  }

  /** The bits decide about a number of 32 bits. */
  lemma BitsOnce(v: int, v': int)
    requires InRange(v) && InRange(v') && forall i: nat :: BitOf(v, i) == BitOf(v', i)
    ensures v == v'
  {
    LowSame(v, v', 32);
    HighBits(v, 31);
    HighBits(v', 31);
    LowOf(v);
    LowOf(v');
  }

  lemma LowOf(v: int)
    requires InRange(v)
    ensures Low(v, 32) == UnsignedOf(v)
  {
    TaddrIsPower();
    HalveIsZero(v, 32);
    HalveIsOnes(v, 32);
    LowValue(v, 32);
  }

  // ---------- shifts ----------

  lemma PowerRises(n: nat)
    requires n >= 32
    ensures Double(1, n) == Double(1, n - 32) * TADDR && Double(1, n) >= TADDR
  {
    TaddrIsPower();
    DoubleDouble(1, n - 32, 32);
    DoubleTimes(Double(1, n - 32), 1, 32);
    DoubleMono(0, 1, n - 32);
  }

  lemma LeftMeans(l: int, r: nat)
    requires InRange(l)
    ensures Reduced(if r >= 32 then 0 else Wrap(ShiftLeft(l, r)), l * Double(1, r))
  {
    if r >= 32 {
      PowerRises(r);
      var p := Double(1, r - 32);
      assert l * Double(1, r) == (l * p) * TADDR by { Regroup(l, p); }
      Multiple(-(l * p));
    } else {
      DoubleTimes(l, 1, r);
      WrapReduces(Double(l, r));
    }
  }

  lemma Regroup(l: int, p: int)
    ensures l * (p * TADDR) == (l * p) * TADDR
  {}

  lemma HalveFloors(x: int, n: nat)
    ensures Floored(x, n, Halve(x, n))
  {
    HalveLow(x, n);
    DoubleTimes(Halve(x, n), 1, n);
    OneMore(Halve(x, n), Double(1, n));
  }

  lemma OneMore(q: int, p: int)
    ensures (q + 1) * p == q * p + p
  {}

  lemma FlooredOnce(x: int, n: nat, q: int, q': int)
    requires Floored(x, n, q) && Floored(x, n, q')
    ensures q == q'
  {
    var p := Double(1, n);
    DoubleMono(0, 1, n);
    if q < q' {
      TimesMono(q + 1, q', p);
    } else if q' < q {
      TimesMono(q' + 1, q, p);
    }
  }

  lemma TimesMono(x: int, y: int, p: int)
    requires x <= y && p > 0
    ensures x * p <= y * p
  {}

  lemma RightMeans(x: int, n: nat)
    requires -TADDR <= x < TADDR
    ensures Floored(x, n, if n >= 32 then (if x < 0 then -1 else 0) else ShiftRight(x, n))
  {
    if n >= 32 {
      PowerRises(n);
    } else {
      HalveFloors(x, n);
    }
  }

  lemma UnsignedRight(l: int, r: nat)
    requires InRange(l)
    ensures Means(Rshu, l, r, 0, if r >= 32 then 0 else Wrap(ShiftRight(l % TADDR, r)))
  {
    assert l % TADDR == UnsignedOf(l);
    RightMeans(UnsignedOf(l), r);
    var q := if r >= 32 then 0 else ShiftRight(l % TADDR, r);
    assert Floored(UnsignedOf(l), r, q);
    WrapReduces(q);
  }

  // ---------- all operators ----------

  /** Every operator yields its meaning. */
  lemma OperatorMeans(op: BinOp, l: int, r: int, truth: int)
    requires InRange(l) && InRange(r) && Truth(truth) && Defined(op, r)
    ensures Means(op, l, r, truth, Apply(op, l, r, truth))
  {
    var v := Apply(op, l, r, truth);
    match op
    case Add => WrapReduces(l + r);
    case Sub => WrapReduces(l - r);
    case Mul => WrapReduces(l * r);
    case Div =>
      if r != 0 && !TooLarge(l, r) {
        QuotientMeans(l, r);
      }
    case Mod =>
      if r != 0 && !TooLarge(l, r) {
        QuotientMeans(l, r);
      }
    case Lsh => LeftMeans(l, r);
    case Rsh => RightMeans(l, r);
    case Rshu => UnsignedRight(l, r);
    case BAnd => BitsMean(op, l, r);
    case BOr => BitsMean(op, l, r);
    case Xor => BitsMean(op, l, r);
    case _ =>
  }

  lemma BitsMean(op: BinOp, l: int, r: int)
    requires InRange(l) && InRange(r)
    ensures forall i: nat :: BitOf(Wrap(Bitwise(op, l, r, 32)), i) == BitResult(op, BitOf(l, i), BitOf(r, i))
  {
    forall i: nat ensures BitOf(Wrap(Bitwise(op, l, r, 32)), i) == BitResult(op, BitOf(l, i), BitOf(r, i)) {
      BitwiseMeans(op, l, r, i);
    }
  }

  /** The meaning leaves no choice. */
  lemma MeaningOnce(op: BinOp, l: int, r: int, truth: int, v: int, v': int)
    requires Truth(truth) && Means(op, l, r, truth, v) && Means(op, l, r, truth, v')
    ensures v == v'
  {
    match op
    case Add => ReducedOnce(v, v', l + r);
    case Sub => ReducedOnce(v, v', l - r);
    case Mul => ReducedOnce(v, v', l * r);
    case Div =>
      if r != 0 && !TooLarge(l, r) {
        var m, m' :| Divides(l, r, v, m) && Divides(l, r, v', m');
        DividesOnce(l, r, v, m, v', m');
      }
    case Mod =>
      if r != 0 && !TooLarge(l, r) {
        var q, q' :| Divides(l, r, q, v) && Divides(l, r, q', v');
        DividesOnce(l, r, q, v, q', v');
      }
    case Lsh => ReducedOnce(v, v', l * Double(1, r));
    case Rsh => FlooredOnce(l, r, v, v');
    case Rshu =>
      var q, q' :| Floored(UnsignedOf(l), r, q) && Reduced(v, q) && Floored(UnsignedOf(l), r, q') && Reduced(v', q');
      FlooredOnce(UnsignedOf(l), r, q, q');
      ReducedOnce(v, v', q);
    case BAnd => BitsOnce(v, v');
    case BOr => BitsOnce(v, v');
    case Xor => BitsOnce(v, v');
    case _ =>
  }

  /** v is the result of an operator with one operand. */
  ghost predicate UnaryMeans(op: UnOp, x: int, truth: int, v: int) {
    match op
    case Neg => Reduced(v, 0 - x)
    case Cpl => InRange(v) && forall i: nat :: BitOf(v, i) != BitOf(x, i)
    case Not => IsTruth(v, x == 0, truth)
  }

  lemma {:induction false} Complement(x: int, i: nat)
    ensures BitOf(-x - 1, i) != BitOf(x, i)
    decreases i
  {
    assert (-x - 1) / 2 == -(x / 2) - 1;
    if i > 0 {
      Complement(x / 2, i - 1);
    }
  }

  lemma UnaryOperatorMeans(op: UnOp, x: int, truth: int)
    requires InRange(x) && Truth(truth)
    ensures UnaryMeans(op, x, truth, ApplyUnary(op, x, truth))
  {
    if op == Neg {
      WrapReduces(-x);
    } else if op == Cpl {
      forall i: nat ensures BitOf(-x - 1, i) != BitOf(x, i) {
        Complement(x, i);
      }
    }
  }

  lemma ApplyInRange(op: BinOp, x: int, y: int, truth: int)
    requires InRange(x) && InRange(y) && Truth(truth)
    ensures InRange(Apply(op, x, y, truth))
  {
    if (op == Div || op == Mod) && y != 0 && !(x == -TADDR / 2 && y == -1) {
      QuotientInRange(x, y);
    } else if op == Rsh && y < 32 {
      ShiftInRange(x, y);
    }
  }

  lemma QuotientInRange(x: int, y: int)
    requires InRange(x) && y != 0 && !(x == -TADDR / 2 && y == -1)
    ensures InRange(CDiv(x, y)) && InRange(x - CDiv(x, y) * y)
  {
    var q: int, a: int := AbsOf(x) / AbsOf(y), AbsOf(x);
    QuotientSmall(AbsOf(x), AbsOf(y));
    SignedProduct(q, x, y);
    assert CDiv(x, y) == q || CDiv(x, y) == -q;
    assert 0 <= q <= a <= TADDR / 2;
  }

  lemma ShiftInRange(x: int, sh: int)
    requires InRange(x)
    ensures InRange(ShiftRight(x, sh))
  {
    if sh > 0 {
      HalveInRange(x, sh);
    }
  }

  lemma {:induction false} HalveInRange(x: int, n: nat)
    requires InRange(x)
    ensures InRange(Halve(x, n))
    decreases n
  {
    if n > 0 {
      HalveInRange(x / 2, n - 1);
    }
  }

  // ---------- nodes ----------

  /** A difference is given a value for a pc-relative relocation. */
  predicate PcRelative(l: Expr, r: Expr, c: Ctx) {
    var lb, rb := FindBase(l, c), FindBase(r, c);
    && !(Eval(l, c).cnst && Eval(r, c).cnst)
    && lb.Ok? && rb.Ok? && LocRef(rb.sym) && SecOf(rb.sym, c) == c.sec
    && (ExtRef(lb.sym) || (LocRef(lb.sym) && SecOf(lb.sym, c) != c.sec)) && !(IsAbs(rb.sym, c) && IsAbs(lb.sym, c))
  }

  /** What its value exceeds the difference of the values by. */
  function Offset(l: Expr, r: Expr, c: Ctx): int {
    if PcRelative(l, r, c) then c.pc - OrgOf(FindBase(l, c).sym, c) else 0
  }

  lemma SubValue(l: Expr, r: Expr, c: Ctx)
    ensures Eval(Binary(Sub, l, r), c).val == Wrap(Eval(l, c).val - Eval(r, c).val + Offset(l, r, c))
  {}

  /** All values are numbers of 32 bits. */
  lemma {:induction false} EvalInRange(e: Expr, c: Ctx)
    requires Truth(c.truth)
    ensures InRange(Eval(e, c).val)
    decreases e
  {
    match e
    case Num(_) =>
    case Sym(s) => if s.Equate? { EvalInRange(s.def, c); }
    case Unary(_, x) =>
    case Binary(op, l, r) =>
      EvalInRange(l, c);
      EvalInRange(r, c);
      if op == Sub {
        SubValue(l, r, c);
      } else {
        ApplyInRange(op, Eval(l, c).val, Eval(r, c).val, c.truth);
      }
  }

  /** The value of a node is the meaning of its operator for the values of its operands; a value
      for a pc-relative relocation exceeds it by the offset of that. */
  lemma {:induction false} NodeMeans(op: BinOp, l: Expr, r: Expr, c: Ctx)
    requires Truth(c.truth) && Defined(op, Eval(r, c).val)
    ensures var x, y, v := Eval(l, c).val, Eval(r, c).val, Eval(Binary(op, l, r), c).val;
            if op == Sub then Reduced(v, x - y + Offset(l, r, c)) else Means(op, x, y, c.truth, v)
  {
    EvalInRange(l, c);
    EvalInRange(r, c);
    if op == Sub {
      DifferenceMeans(l, r, c);
    } else {
      NodeApplies(op, l, r, c, Eval(l, c).val, Eval(r, c).val);
    }
  }

  lemma DifferenceMeans(l: Expr, r: Expr, c: Ctx)
    ensures Reduced(Eval(Binary(Sub, l, r), c).val, Eval(l, c).val - Eval(r, c).val + Offset(l, r, c))
  {
    SubValue(l, r, c);
    WrapReduces(Eval(l, c).val - Eval(r, c).val + Offset(l, r, c));
  }

  lemma {:induction false} NodeApplies(op: BinOp, l: Expr, r: Expr, c: Ctx, x: int, y: int)
    requires op != Sub && Eval(l, c).val == x && Eval(r, c).val == y
    requires InRange(x) && InRange(y) && Truth(c.truth) && Defined(op, y)
    ensures Means(op, x, y, c.truth, Eval(Binary(op, l, r), c).val)
  {
    OperatorMeans(op, x, y, c.truth);
    assert Eval(Binary(op, l, r), c).val == Apply(op, x, y, c.truth);
  }

  lemma UnaryNodeMeans(op: UnOp, x: Expr, c: Ctx)
    requires Truth(c.truth)
    ensures UnaryMeans(op, Eval(x, c).val, c.truth, Eval(Unary(op, x), c).val)
  {
    EvalInRange(x, c);
    UnaryOperatorMeans(op, Eval(x, c).val, c.truth);
  }

  // ---------- whole trees ----------

  /** Sums, differences, products, negations and complements of numbers and symbols. */
  predicate Linear(e: Expr, c: Ctx)
    decreases e
  {
    match e
    case Num(_) => true
    case Sym(s) => s.Equate? ==> Linear(s.def, c)
    case Unary(op, x) => op != Not && Linear(x, c)
    case Binary(op, l, r) =>
      (op == Add || op == Sub || op == Mul) && Linear(l, c) && Linear(r, c) && (op == Sub ==> !PcRelative(l, r, c))
  }

  /** Their value in unbounded integers. */
  function Exact(e: Expr, c: Ctx): int
    requires Linear(e, c)
    decreases e
  {
    match e
    case Num(v) => v
    case Sym(Label(name, _, _, weak)) => if weak then 0 else c.labels(name)
    case Sym(Import(_)) => 0
    case Sym(CurrentPc) => c.pc
    case Sym(Equate(def)) => Exact(def, c)
    case Unary(op, x) => if op == Neg then -Exact(x, c) else -1 - Exact(x, c)
    case Binary(op, l, r) =>
      if op == Add then Exact(l, c) + Exact(r, c)
      else if op == Sub then Exact(l, c) - Exact(r, c)
      else Exact(l, c) * Exact(r, c)
  }

  /** Reducing every intermediate value is reducing the exact one. */
  lemma {:induction false} ExactReduced(e: Expr, c: Ctx)
    requires Linear(e, c)
    ensures Eval(e, c).val == Wrap(Exact(e, c))
    decreases e
  {
    match e
    case Num(_) =>
    case Sym(s) => if s.Equate? { ExactReduced(s.def, c); }
    case Unary(op, x) =>
      ExactReduced(x, c);
      ReducedOperand(Exact(x, c));
    case Binary(op, l, r) =>
      ExactReduced(l, c);
      ExactReduced(r, c);
      ExactNode(op, l, r, c, Exact(l, c), Exact(r, c));
  }

  lemma {:induction false} ExactNode(op: BinOp, l: Expr, r: Expr, c: Ctx, x: int, y: int)
    requires Linear(Binary(op, l, r), c) && x == Exact(l, c) && y == Exact(r, c)
    requires Eval(l, c).val == Wrap(x) && Eval(r, c).val == Wrap(y)
    ensures Eval(Binary(op, l, r), c).val == Wrap(Exact(Binary(op, l, r), c))
  {
    LinearNode(op, l, r, c, x, y);
  }

  lemma {:induction false} LinearNode(op: BinOp, l: Expr, r: Expr, c: Ctx, x: int, y: int)
    requires Linear(Binary(op, l, r), c) && Eval(l, c).val == Wrap(x) && Eval(r, c).val == Wrap(y)
    ensures Eval(Binary(op, l, r), c).val == Wrap(if op == Add then x + y else if op == Sub then x - y else x * y)
  {
    ReducedOperands(x, y);
    if op == Sub {
      SubValue(l, r, c);
    }
  }

  lemma ReducedOperand(x: int)
    ensures Wrap(-Wrap(x)) == Wrap(-x) && Wrap(-Wrap(x) - 1) == Wrap(-1 - x)
  {
    var k := WrapRemoves(x);
    WrapSame(-Wrap(x), -x, -k);
    WrapSame(-Wrap(x) - 1, -1 - x, -k);
  }

  lemma ReducedOperands(x: int, y: int)
    ensures Wrap(Wrap(x) + Wrap(y)) == Wrap(x + y) && Wrap(Wrap(x) - Wrap(y)) == Wrap(x - y)
    ensures Wrap(Wrap(x) * Wrap(y)) == Wrap(x * y)
  {
    var i := WrapRemoves(x);
    var j := WrapRemoves(y);
    WrapSame(Wrap(x) + Wrap(y), x + y, i + j);
    WrapSame(Wrap(x) - Wrap(y), x - y, i - j);
    ProductTurns(x, y, i, j);
    WrapSame(Wrap(x) * Wrap(y), x * y, i * Wrap(y) + x * j);
  }

  lemma ProductTurns(x: int, y: int, i: int, j: int)
    ensures (x + i * TADDR) * (y + j * TADDR) == x * y + (i * (y + j * TADDR) + x * j) * TADDR
  {}
}
