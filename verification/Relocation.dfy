/** What the answers of `eval_expr` and `find_base` mean after a linker has placed the sections
    and the imported symbols: constants stay, and relocated values come out right. */
module Relocation {
  import opened Expressions

  /** A placement: how far each section moves from where it was assembled, and where the
      imported symbols and the weak labels are. */
  datatype Placement = Placement(move: nat -> int, addr: nat -> int)

  /** How much the address of a base symbol changes: unallocated sections and absolute labels
      do not move, an imported symbol or a weak label was taken for 0. */
  function Displacement(s: Symbol, c: Ctx, p: Placement): int {
    if s.Equate? then 0
    else if !LocRef(s) then p.addr(s.name)
    else if SecOf(s, c).unallocated || IsAbs(s, c) then 0
    else p.move(SecOf(s, c).id)
  }

  /** The value of an expression computed from the linked addresses. */
  function Linked(e: Expr, c: Ctx, p: Placement): int
    decreases e, 1
  {
    match e
    case Num(v) => Wrap(v)
    case Sym(s) => LinkedSymbol(s, c, p)
    case Unary(op, x) => ApplyUnary(op, Linked(x, c, p), c.truth)
    case Binary(op, l, r) => Apply(op, Linked(l, c, p), Linked(r, c, p), c.truth)
  }

  function LinkedSymbol(s: Symbol, c: Ctx, p: Placement): int
    decreases s, 2
  {
    match s
    case Equate(def) => Linked(def, c, p)
    case _ => Wrap((if LocRef(s) then AddressOf(s, c) else 0) + Displacement(s, c, p))
  }

  /** A base that does not move. */
  predicate Fixed(s: Symbol, c: Ctx) {
    LocRef(s) && (SecOf(s, c).unallocated || IsAbs(s, c))
  }

  /** When the branches of `eval_expr` treat a difference soundly. Two constants always are. Of
      two symbols in one section, both are absolute or neither is. With the right one in the
      current section, and the left one elsewhere, the right one can move. Otherwise an
      absolute label is only taken from something with a plain base. */
  predicate SafeDifference(x: Value, y: Value, lb: Base, rb: Base, c: Ctx) {
    (x.cnst && y.cnst) || !rb.Ok? || !LocRef(rb.sym) ||
    if lb.Ok? && LocRef(lb.sym) && SecOf(lb.sym, c) == SecOf(rb.sym, c) then
      IsAbs(lb.sym, c) == IsAbs(rb.sym, c)
    else if lb.Ok? && SecOf(rb.sym, c) == c.sec then
      !Fixed(rb.sym, c)
    else
      lb.Ok? || !IsAbs(rb.sym, c)
  }

  /** All differences in the tree are safe, also in the definitions of equates. */
  predicate Guarded(e: Expr, c: Ctx)
    decreases e
  {
    match e
    case Num(_) => true
    case Sym(s) => s.Equate? ==> Guarded(s.def, c)
    case Unary(_, x) => Guarded(x, c)
    case Binary(op, l, r) =>
      Guarded(l, c) && Guarded(r, c)
      && (op == Sub ==> SafeDifference(Eval(l, c), Eval(r, c), FindBase(l, c), FindBase(r, c), c))
  }

  // ---------- arithmetic modulo 2^32 ----------

  lemma MoveLeft(x: int, y: int, d: int)
    ensures Wrap(Wrap(x + d) + y) == Wrap(Wrap(x + y) + d)
  {
    var k := WrapRemoves(x + d);
    var i := WrapRemoves(x + y);
    WrapSame(Wrap(x + d) + y, Wrap(x + y) + d, k - i);
  }

  lemma MoveRight(x: int, y: int, d: int)
    ensures Wrap(x + Wrap(y + d)) == Wrap(Wrap(x + y) + d)
  {
    var k := WrapRemoves(y + d);
    var i := WrapRemoves(x + y);
    WrapSame(x + Wrap(y + d), Wrap(x + y) + d, k - i);
  }

  lemma MoveBoth(x: int, y: int, d: int)
    ensures Wrap(Wrap(x + d) - Wrap(y + d)) == Wrap(x - y)
  {
    var k := WrapRemoves(x + d);
    var i := WrapRemoves(y + d);
    WrapSame(Wrap(x + d) - Wrap(y + d), x - y, k - i);
  }

  lemma WrapInner(x: int, d: int)
    ensures Wrap(Wrap(x) + d) == Wrap(x + d)
  {
    var k := WrapRemoves(x);
    WrapSame(Wrap(x) + d, x + d, k);
  }

  // ---------- soundness ----------

  /** What one value v with base b has to be, if its linked value is z: a constant is its linked
      value; a value with a base has to be corrected by the displacement of that base; and it
      is constant exactly if that base cannot move. */
  ghost predicate SoundValue(v: Value, b: Base, z: int, c: Ctx, p: Placement) {
    && (v.cnst ==> z == v.val)
    && (b.Ok? ==> z == Wrap(v.val + Displacement(b.sym, c, p)) && (v.cnst <==> Fixed(b.sym, c)))
    && (!b.Illegal? ==> !b.sym.Equate?)
  }

  ghost predicate Sound(e: Expr, c: Ctx, p: Placement) {
    SoundValue(Eval(e, c), FindBase(e, c), Linked(e, c, p), c, p)
  }

  lemma {:induction false} Soundness(e: Expr, c: Ctx, p: Placement)
    requires Guarded(e, c)
    ensures Sound(e, c, p)
    decreases e
  {
    match e
    case Num(_) =>
    case Sym(s) =>
      if s.Equate? {
        Soundness(s.def, c, p);
      } else {
        SymbolSound(s, c, p);
      }
    case Unary(_, x) => Soundness(x, c, p);
    case Binary(op, l, r) =>
      Soundness(l, c, p);
      Soundness(r, c, p);
      BinarySound(op, l, r, c, p);
  }

  lemma SymbolSound(s: Symbol, c: Ctx, p: Placement)
    requires !s.Equate?
    ensures Sound(Sym(s), c, p)
  {
    if LocRef(s) {
      WrapInner(AddressOf(s, c), Displacement(s, c, p));
    }
  }

  lemma {:induction false} BinarySound(op: BinOp, l: Expr, r: Expr, c: Ctx, p: Placement)
    requires Guarded(Binary(op, l, r), c) && Sound(l, c, p) && Sound(r, c, p)
    ensures Sound(Binary(op, l, r), c, p)
  {
    if op == Add {
      SumSound(Eval(l, c), Eval(r, c), FindBase(l, c), FindBase(r, c), Linked(l, c, p), Linked(r, c, p), c, p);
    } else if op == Sub {
      DifferenceSound(Eval(l, c), Eval(r, c), FindBase(l, c), FindBase(r, c), Linked(l, c, p), Linked(r, c, p), c, p);
    } else {
      OtherSound(op, l, r, c, p);
    }
  }

  lemma OtherSound(op: BinOp, l: Expr, r: Expr, c: Ctx, p: Placement)
    requires op != Add && op != Sub && Sound(l, c, p) && Sound(r, c, p)
    ensures Sound(Binary(op, l, r), c, p)
  {}

  /** A constant plus a value with a base. */
  lemma SumOnRight(x: Value, y: Value, b: Base, lb: Base, zx: int, zy: int, c: Ctx, p: Placement)
    requires SoundValue(x, lb, zx, c, p) && SoundValue(y, b, zy, c, p) && x.cnst && b.Ok?
    ensures SoundValue(Value(Wrap(x.val + y.val), y.cnst, x.deps + y.deps), b, Wrap(zx + zy), c, p)
  {
    MoveRight(x.val, y.val, Displacement(b.sym, c, p));
  }

  lemma SumOnLeft(x: Value, y: Value, b: Base, rb: Base, zx: int, zy: int, c: Ctx, p: Placement)
    requires SoundValue(x, b, zx, c, p) && SoundValue(y, rb, zy, c, p) && y.cnst && b.Ok?
    ensures SoundValue(Value(Wrap(x.val + y.val), x.cnst, x.deps + y.deps), b, Wrap(zx + zy), c, p)
  {
    MoveLeft(x.val, y.val, Displacement(b.sym, c, p));
  }

  lemma SumSound(x: Value, y: Value, lb: Base, rb: Base, zx: int, zy: int, c: Ctx, p: Placement)
    requires SoundValue(x, lb, zx, c, p) && SoundValue(y, rb, zy, c, p)
    ensures SoundValue(Value(Wrap(x.val + y.val), x.cnst && y.cnst, x.deps + y.deps), SumBase(x, y, lb, rb),
                       Wrap(zx + zy), c, p)
  {
    if x.cnst && rb.Ok? {
      SumOnRight(x, y, rb, lb, zx, zy, c, p);
    } else if y.cnst && lb.Ok? {
      SumOnLeft(x, y, lb, rb, zx, zy, c, p);
    }
  }

  /** The value that the code gives a difference, also when both operands are constant. */
  function AnyDifference(x: Value, y: Value, lb: Base, rb: Base, c: Ctx): Value {
    if x.cnst && y.cnst then Value(Wrap(x.val - y.val), true, x.deps + y.deps) else Difference(x, y, lb, rb, c)
  }

  /** A constant difference is its linked value. */
  lemma DifferenceConstant(x: Value, y: Value, lb: Base, rb: Base, zx: int, zy: int, c: Ctx, p: Placement)
    requires SafeDifference(x, y, lb, rb, c) && SoundValue(x, lb, zx, c, p) && SoundValue(y, rb, zy, c, p)
    ensures AnyDifference(x, y, lb, rb, c).cnst ==> Wrap(zx - zy) == AnyDifference(x, y, lb, rb, c).val
  {
    if lb.Ok? && rb.Ok? && LocRef(rb.sym) && LocRef(lb.sym) && SecOf(lb.sym, c) == SecOf(rb.sym, c) {
      MoveBoth(x.val, y.val, Displacement(lb.sym, c, p));
    }
  }

  lemma DifferenceSound(x: Value, y: Value, lb: Base, rb: Base, zx: int, zy: int, c: Ctx, p: Placement)
    requires SafeDifference(x, y, lb, rb, c) && SoundValue(x, lb, zx, c, p) && SoundValue(y, rb, zy, c, p)
    ensures SoundValue(AnyDifference(x, y, lb, rb, c), DifferenceBase(y, lb, rb, c), Wrap(zx - zy), c, p)
  {
    DifferenceConstant(x, y, lb, rb, zx, zy, c, p);
    if lb.Ok? && y.cnst {
      MoveLeft(x.val, -y.val, Displacement(lb.sym, c, p));
    }
  }

  // ---------- the theorems ----------

  /** A value reported as constant is the same under every placement. */
  lemma ConstantsStay(e: Expr, c: Ctx, p: Placement)
    requires Guarded(e, c) && Eval(e, c).cnst
    ensures Linked(e, c, p) == Eval(e, c).val
  {
    Soundness(e, c, p);
  }

  /** With a plain base, adding the displacement of the base gives the linked value. */
  lemma BaseRelocates(e: Expr, c: Ctx, p: Placement)
    requires Guarded(e, c) && FindBase(e, c).Ok?
    ensures Linked(e, c, p) == Wrap(Eval(e, c).val + Displacement(FindBase(e, c).sym, c, p))
  {
    Soundness(e, c, p);
  }

  /** Where a base is after linking: the start of a label's section, or an import's address. */
  function BaseAddress(s: Symbol, c: Ctx, p: Placement): int {
    match s
    case Label(_, sec, _, _) => sec.org + Displacement(s, c, p)
    case CurrentPc => c.sec.org + Displacement(s, c, p)
    case _ => Displacement(s, c, p)
  }

  /** With a pc-relative base, the base address plus the value, less the linked program counter,
      gives the linked value of the difference. */
  lemma PcRelativeRelocates(e: Expr, c: Ctx, p: Placement)
    requires Guarded(e, c) && !Eval(e, c).cnst && FindBase(e, c).PcRel?
    ensures Linked(e, c, p)
            == Wrap(BaseAddress(FindBase(e, c).sym, c, p) + Eval(e, c).val - (c.pc + p.move(c.sec.id)))
    decreases e
  {
    if e.Sym? {
      PcRelativeRelocates(e.sym.def, c, p);
    } else {
      Soundness(e.left, c, p);
      Soundness(e.right, c, p);
      PcRelativeSub(e.left, e.right, c, p);
    }
  }

  lemma {:induction false} PcRelativeSub(l: Expr, r: Expr, c: Ctx, p: Placement)
    requires Sound(l, c, p) && Sound(r, c, p)
    requires var e := Binary(Sub, l, r); !Eval(e, c).cnst && FindBase(e, c).PcRel?
    ensures var e := Binary(Sub, l, r);
            Linked(e, c, p) == Wrap(BaseAddress(FindBase(e, c).sym, c, p) + Eval(e, c).val - (c.pc + p.move(c.sec.id)))
  {
    PcRelativeDifference(Eval(l, c), Eval(r, c), FindBase(l, c), FindBase(r, c),
                         Linked(l, c, p), Linked(r, c, p), c, p);
  }

  lemma PcRelativeDifference(x: Value, y: Value, lb: Base, rb: Base, zx: int, zy: int, c: Ctx, p: Placement)
    requires SoundValue(x, lb, zx, c, p) && SoundValue(y, rb, zy, c, p)
    requires !(x.cnst && y.cnst) && !Difference(x, y, lb, rb, c).cnst && DifferenceBase(y, lb, rb, c).PcRel?
    ensures Wrap(zx - zy) == Wrap(BaseAddress(lb.sym, c, p) + Difference(x, y, lb, rb, c).val
                                  - (c.pc + p.move(c.sec.id)))
  {
    assert Difference(x, y, lb, rb, c).val == Wrap(c.pc - y.val + x.val - OrgOf(lb.sym, c));
    assert Displacement(rb.sym, c, p) == p.move(c.sec.id);
    PcRelativeValue(x.val, y.val, Displacement(lb.sym, c, p), p.move(c.sec.id), c.pc, OrgOf(lb.sym, c));
  }

  lemma PcRelativeValue(x: int, y: int, dl: int, dr: int, pc: int, org: int)
    ensures Wrap(Wrap(x + dl) - Wrap(y + dr)) == Wrap(org + dl + Wrap(pc - y + x - org) - (pc + dr))
  {
    var k := WrapRemoves(x + dl);
    var i := WrapRemoves(y + dr);
    var j := WrapRemoves(pc - y + x - org);
    WrapSame(Wrap(x + dl) - Wrap(y + dr), x + dl - y - dr, k - i);
    WrapSame(org + dl + Wrap(pc - y + x - org) - (pc + dr), x + dl - y - dr, j);
  }

  // ---------- differences that are not safe ----------

  /** The left side has a base and the right one is in the current section, but they are not
      in the same section, and not both absolute: the value is made relative to the program
      counter. */
  predicate MadeRelative(lb: Base, rb: Base, c: Ctx) {
    && lb.Ok? && rb.Ok? && LocRef(rb.sym) && SecOf(rb.sym, c) == c.sec
    && !(LocRef(lb.sym) && SecOf(lb.sym, c) == SecOf(rb.sym, c))
    && !(IsAbs(lb.sym, c) && IsAbs(rb.sym, c))
  }

  /** If the left side has a base, an unsafe difference is right for all placements only by
      accident: when it is made relative to a program counter which is the origin of the base. */
  lemma BasedDifferenceExact(l: Expr, r: Expr, c: Ctx)
    requires Guarded(l, c) && Guarded(r, c) && FindBase(l, c).Ok?
    ensures (forall p :: Sound(Binary(Sub, l, r), c, p))
            <==> || SafeDifference(Eval(l, c), Eval(r, c), FindBase(l, c), FindBase(r, c), c)
                 || (MadeRelative(FindBase(l, c), FindBase(r, c), c) && Wrap(c.pc - OrgOf(FindBase(l, c).sym, c)) == 0)
  {
    var e, lb, rb := Binary(Sub, l, r), FindBase(l, c), FindBase(r, c);
    if SafeDifference(Eval(l, c), Eval(r, c), lb, rb, c) {
      forall p ensures Sound(e, c, p) { Soundness(e, c, p); }
    } else if MadeRelative(lb, rb, c) {
      forall p ensures Sound(e, c, p) <==> Wrap(c.pc - OrgOf(lb.sym, c)) == 0 { RelativeExact(l, r, c, p); }
      assert Sound(e, c, Placement(_ => 0, _ => 0)) <==> Wrap(c.pc - OrgOf(lb.sym, c)) == 0;
    } else {
      var p := Placement(_ => 1, _ => 1);
      OneMoves(l, r, c, p);
    }
  }

  /** Of two symbols only one moves. */
  lemma OneMoves(l: Expr, r: Expr, c: Ctx, p: Placement)
    requires Guarded(l, c) && Guarded(r, c) && FindBase(l, c).Ok? && p == Placement(_ => 1, _ => 1)
    requires !SafeDifference(Eval(l, c), Eval(r, c), FindBase(l, c), FindBase(r, c), c)
    requires !MadeRelative(FindBase(l, c), FindBase(r, c), c)
    ensures !Sound(Binary(Sub, l, r), c, p)
  {
    Soundness(l, c, p);
    Soundness(r, c, p);
    OneMovesValue(Eval(l, c), Eval(r, c), FindBase(l, c), FindBase(r, c), Linked(l, c, p), Linked(r, c, p), c, p);
  }

  lemma {:induction false} OneMovesValue(x: Value, y: Value, lb: Base, rb: Base, zx: int, zy: int, c: Ctx, p: Placement)
    requires SoundValue(x, lb, zx, c, p) && SoundValue(y, rb, zy, c, p) && lb.Ok? && p == Placement(_ => 1, _ => 1)
    requires !SafeDifference(x, y, lb, rb, c) && !MadeRelative(lb, rb, c)
    ensures !SoundValue(AnyDifference(x, y, lb, rb, c), DifferenceBase(y, lb, rb, c), Wrap(zx - zy), c, p)
  {
    assert AnyDifference(x, y, lb, rb, c).cnst && AnyDifference(x, y, lb, rb, c).val == Wrap(x.val - y.val);
    assert (zx == Wrap(x.val + 1) && zy == y.val) || (zx == x.val && zy == Wrap(y.val + 1));
    OffByOne(x.val, y.val);
  }

  lemma OffByOne(x: int, y: int)
    ensures Wrap(Wrap(x + 1) - y) != Wrap(x - y) && Wrap(x - Wrap(y + 1)) != Wrap(x - y)
  {
    var i := WrapRemoves(x + 1);
    var j := WrapRemoves(y + 1);
    WrapSame(Wrap(x + 1) - y, x - y + 1, i);
    WrapSame(x - Wrap(y + 1), x - y - 1, 0 - j);
    Successor(x - y);
    Successor(x - y - 1);
  }

  lemma Successor(x: int)
    ensures Wrap(x + 1) != Wrap(x)
  {
    var i := WrapRemoves(x);
    var j := WrapRemoves(x + 1);
  }

  /** A value made relative although its base is taken for a plain one. */
  lemma {:induction false} RelativeExact(l: Expr, r: Expr, c: Ctx, p: Placement)
    requires Guarded(l, c) && Guarded(r, c) && MadeRelative(FindBase(l, c), FindBase(r, c), c)
    requires !SafeDifference(Eval(l, c), Eval(r, c), FindBase(l, c), FindBase(r, c), c)
    ensures Sound(Binary(Sub, l, r), c, p) <==> Wrap(c.pc - OrgOf(FindBase(l, c).sym, c)) == 0
  {
    Soundness(l, c, p);
    Soundness(r, c, p);
    RelativeExactValue(Eval(l, c), Eval(r, c), FindBase(l, c), FindBase(r, c), Linked(l, c, p), Linked(r, c, p), c, p);
  }

  lemma RelativeExactValue(x: Value, y: Value, lb: Base, rb: Base, zx: int, zy: int, c: Ctx, p: Placement)
    requires SoundValue(x, lb, zx, c, p) && SoundValue(y, rb, zy, c, p)
    requires MadeRelative(lb, rb, c) && !SafeDifference(x, y, lb, rb, c)
    ensures SoundValue(AnyDifference(x, y, lb, rb, c), DifferenceBase(y, lb, rb, c), Wrap(zx - zy), c, p)
            <==> Wrap(c.pc - OrgOf(lb.sym, c)) == 0
  {
    assert !x.cnst && y.cnst;
    RelativeOffset(x.val, y.val, Displacement(lb.sym, c, p), c.pc, OrgOf(lb.sym, c), zx,
                   AnyDifference(x, y, lb, rb, c).val);
  }

  lemma RelativeOffset(x: int, y: int, d: int, pc: int, org: int, z: int, v: int)
    requires z == Wrap(x + d) && v == Wrap(pc - y + x - org)
    ensures Wrap(z - y) == Wrap(v + d) <==> Wrap(pc - org) == 0
  {
    WrapInner(x + d, -y);
    WrapInner(pc - y + x - org, d);
    WrapEqual(pc - y + x - org + d, x + d - y);
  }

  /** If the left side has no base, an unsafe difference is called constant whatever the left
      side is; that is right for the left sides that never change. */
  lemma UnbasedDifferenceExact(l: Expr, r: Expr, c: Ctx, p: Placement)
    requires Guarded(l, c) && Guarded(r, c) && !FindBase(l, c).Ok?
    requires !SafeDifference(Eval(l, c), Eval(r, c), FindBase(l, c), FindBase(r, c), c)
    ensures Eval(Binary(Sub, l, r), c).cnst && !Eval(l, c).cnst
    ensures Sound(Binary(Sub, l, r), c, p) <==> Wrap(Linked(l, c, p)) == Wrap(Eval(l, c).val)
  {
    Soundness(r, c, p);
    WrapMinus(Linked(l, c, p), Eval(l, c).val, Eval(r, c).val);
  }

  lemma WrapMinus(x: int, x': int, y: int)
    ensures Wrap(x - y) == Wrap(x' - y) <==> Wrap(x) == Wrap(x')
  {
    WrapEqual(x, x');
    WrapEqual(x - y, x' - y);
  }

  /** A label of a relocated org block is absolute, but its section is the one that the block is
      in: its difference to a label behind the block is called constant, and changes when the
      section moves. */
  lemma RelocatedBlockUnsound()
    ensures var text := Section(0, 0, false);
            var e := Binary(Sub, Sym(Label(0, text, false, false)), Sym(Label(1, text, true, false)));
            var c, p := Ctx(text, false, 0, _ => 16, 1), Placement(_ => 8, _ => 0);
            Eval(e, c).cnst && Linked(e, c, p) != Eval(e, c).val
  {
    var text := Section(0, 0, false);
    var l, r, c := Sym(Label(0, text, false, false)), Sym(Label(1, text, true, false)), Ctx(text, false, 0, _ => 16, 1);
    assert Eval(l, c) == Value(16, false, {}) && Eval(r, c) == Value(16, true, {});
  }

  /** With an absolute label on the right, any difference is called constant, even one whose
      left side depends on an import and has no base at all. */
  lemma AbsoluteRightSideUnsound()
    ensures var text := Section(0, 0, false);
            var e := Binary(Sub, Binary(Mul, Sym(Import(0)), Num(2)), Sym(Label(0, Section(1, 0, false), true, false)));
            var c, p := Ctx(text, false, 0, _ => 16, 1), Placement(_ => 0, _ => 100);
            Eval(e, c).cnst && Linked(e, c, p) != Eval(e, c).val
  {
    var mul := Binary(Mul, Sym(Import(0)), Num(2));
    var c, p := Ctx(Section(0, 0, false), false, 0, _ => 16, 1), Placement(_ => 0, _ => 100);
    assert Eval(mul, c) == Value(0, false, {});
    assert Linked(mul, c, p) == 200;
  }

  /** In a section that is not allocated itself, a difference between an import and a label of
      that section keeps a plain base although its value has been made pc-relative. */
  lemma UnallocatedSectionUnsound()
    ensures var offsets := Section(0, 0, true);
            var e := Binary(Sub, Sym(Import(0)), Sym(Label(0, offsets, false, false)));
            var c, p := Ctx(offsets, false, 4, _ => 0, 1), Placement(_ => 0, _ => 100);
            FindBase(e, c).Ok? &&
            Linked(e, c, p) != Wrap(Eval(e, c).val + Displacement(FindBase(e, c).sym, c, p))
  {
    var c := Ctx(Section(0, 0, true), false, 4, _ => 0, 1);
    assert Eval(Sym(Label(0, c.sec, false, false)), c) == Value(0, true, {});
  }
}
