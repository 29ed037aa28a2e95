/** Expression trees and their evaluation during assembly: the value under the current label
    addresses, whether it is constant, and on which symbol a relocation would be based. */
module Expressions {
  import opened Bits

  /** A `taddr` is a 32-bit two's complement number. */
  const TADDR: int := 0x1_0000_0000

  function Excess(x: int): nat {
    if x < -TADDR / 2 then -x else if x >= TADDR / 2 then x else 0
  }

  function Wrap(x: int): (r: int)
    ensures -TADDR / 2 <= r < TADDR / 2
    decreases Excess(x)
  {
    if x < -TADDR / 2 then Wrap(x + TADDR) else if x >= TADDR / 2 then Wrap(x - TADDR) else x
  }

  /** Wrapping removes a multiple of 2^32, and only that matters. */
  lemma {:induction false} WrapRemoves(x: int) returns (k: int)
    ensures Wrap(x) == x + k * TADDR
    decreases Excess(x)
  {
    if x < -TADDR / 2 {
      k := WrapRemoves(x + TADDR);
      k := k + 1;
    } else if x >= TADDR / 2 {
      k := WrapRemoves(x - TADDR);
      k := k - 1;
    } else {
      k := 0;
    }
  }

  lemma {:induction false} WrapSame(x: int, y: int, k: int)
    requires x == y + k * TADDR
    ensures Wrap(x) == Wrap(y)
    decreases if k < 0 then -k else k
  {
    if k > 0 {
      WrapSame(x - TADDR, y, k - 1);
    } else if k < 0 {
      WrapSame(x + TADDR, y, k + 1);
    }
  }

  /** Two numbers wrap to the same one exactly when their difference wraps to 0. */
  lemma WrapEqual(x: int, y: int)
    ensures Wrap(x) == Wrap(y) <==> Wrap(x - y) == 0
  {
    var i := WrapRemoves(x);
    var j := WrapRemoves(y);
    var k := WrapRemoves(x - y);
    if Wrap(x) == Wrap(y) {
      WrapSame(x - y, 0, j - i);
    }
    if Wrap(x - y) == 0 {
      WrapSame(x, y, -k);
    }
  }

  /** It is the usual reduction to the signed range. */
  lemma WrapIsMod(x: int)
    ensures Wrap(x) == (x + TADDR / 2) % TADDR - TADDR / 2
  {
    var k := WrapRemoves(x);
  }

  datatype BinOp = Add | Sub | Mul | Div | Mod | LAnd | LOr | BAnd | BOr | Xor
                 | Lsh | Rsh | Rshu | Lt | Gt | Leq | Geq | Neq | Eq
  datatype UnOp = Neg | Cpl | Not

  /** What does not change about a section while it is assembled, so that equal records are one
      section. */
  datatype Section = Section(id: nat, org: int, unallocated: bool)

  /** A label is known by its number; its address is looked up. The definition of an equate is
      part of the symbol, so that definitions cannot be circular. */
  datatype Symbol = Label(name: nat, sec: Section, abs: bool, weak: bool)
                  | Import(name: nat)
                  | Equate(def: Expr)
                  | CurrentPc

  datatype Expr = Num(val: int)
                | Sym(sym: Symbol)
                | Unary(uop: UnOp, arg: Expr)
                | Binary(op: BinOp, left: Expr, right: Expr)

  /** Where an expression is evaluated: the section, whether it is absolute there (as it is within a
      relocated org block), the program counter, the addresses of all labels, and the value that
      the syntax module gives to "true" (1 or -1). */
  datatype Ctx = Ctx(sec: Section, absolute: bool, pc: int, labels: nat -> int, truth: int)

  // ---------- operators ----------

  /** C division, which rounds towards zero. */
  function CDiv(x: int, y: int): int
    requires y != 0
  {
    if (x < 0) != (y < 0) then -(AbsOf(x) / AbsOf(y)) else AbsOf(x) / AbsOf(y)
  }

  /** One bit of a binary operator: and, or, xor. */
  function Bit(op: BinOp, x: int, y: int): int {
    var p, q := x % 2 == 1, y % 2 == 1;
    if (if op == BAnd then p && q else if op == BOr then p || q else p != q) then 1 else 0
  }

  function Bitwise(op: BinOp, x: int, y: int, bits: nat): int
    decreases bits
  {
    if bits == 0 then 0 else 2 * Bitwise(op, x / 2, y / 2, bits - 1) + Bit(op, x, y)
  }

  /** Shifts; a negative distance is undefined in C, and stands for no shift here. */
  function ShiftLeft(x: int, sh: int): int {
    if sh <= 0 then x else Double(x, sh)
  }

  function ShiftRight(x: int, sh: int): int {
    if sh <= 0 then x else Halve(x, sh)
  }

  function Boolean(b: bool, truth: int): int {
    if b then truth else 0
  }

  function Apply(op: BinOp, l: int, r: int, truth: int): int {
    match op
    case Add => Wrap(l + r)
    case Sub => Wrap(l - r)
    case Mul => Wrap(l * r)
    case Div => if r == 0 then 0 else if l == -TADDR / 2 && r == -1 then -TADDR / 2 else CDiv(l, r)
    case Mod => if r == 0 then 0 else if l == -TADDR / 2 && r == -1 then -TADDR / 2 else l - CDiv(l, r) * r
    case LAnd => Boolean(l != 0 && r != 0, truth)
    case LOr => Boolean(l != 0 || r != 0, truth)
    case BAnd => Wrap(Bitwise(op, l, r, 32))
    case BOr => Wrap(Bitwise(op, l, r, 32))
    case Xor => Wrap(Bitwise(op, l, r, 32))
    case Lsh => if r >= 32 then 0 else Wrap(ShiftLeft(l, r))
    case Rsh => if r >= 32 then (if l < 0 then -1 else 0) else ShiftRight(l, r)
    case Rshu => if r >= 32 then 0 else Wrap(ShiftRight(l % TADDR, r))
    case Lt => Boolean(l < r, truth)
    case Gt => Boolean(l > r, truth)
    case Leq => Boolean(l <= r, truth)
    case Geq => Boolean(l >= r, truth)
    case Neq => Boolean(l != r, truth)
    case Eq => Boolean(l == r, truth)
  }

  function ApplyUnary(op: UnOp, x: int, truth: int): int {
    match op
    case Neg => Wrap(-x)
    case Cpl => Wrap(-x - 1)
    case Not => Boolean(x == 0, truth)
  }

  // ---------- symbols ----------

  /** LOCREF and EXTREF of a symbol that is not an equate. */
  predicate LocRef(s: Symbol) {
    s.CurrentPc? || (s.Label? && !s.weak)
  }

  predicate ExtRef(s: Symbol) {
    s.Import? || (s.Label? && s.weak)
  }

  function SecOf(s: Symbol, c: Ctx): Section
    requires LocRef(s)
  {
    if s.CurrentPc? then c.sec else s.sec
  }

  predicate IsAbs(s: Symbol, c: Ctx) {
    (s.CurrentPc? && c.absolute) || (s.Label? && s.abs)
  }

  function AddressOf(s: Symbol, c: Ctx): int
    requires LocRef(s)
  {
    if s.CurrentPc? then c.pc else c.labels(s.name)
  }

  /** The origin that is taken out of an addend; 0 for a symbol without a section. */
  function OrgOf(s: Symbol, c: Ctx): int {
    if s.CurrentPc? then c.sec.org else if s.Label? then s.sec.org else 0
  }

  /** What `add_dep` records when a value in c's section reads an address in s's section. */
  function Dep(c: Ctx, s: Symbol): set<nat> {
    if s.Label? && c.sec != s.sec then {s.sec.id} else {}
  }

  // ---------- evaluation ----------

  /** The outcome of `eval_expr`: the value, whether it is constant, and the sections whose
      dependency bits were set on the way. */
  datatype Value = Value(val: int, cnst: bool, deps: set<nat>)

  datatype Base = Illegal | Ok(sym: Symbol) | PcRel(sym: Symbol)

  function Eval(e: Expr, c: Ctx): Value
    decreases e, 1
  {
    match e
    case Num(v) => Value(Wrap(v), true, {})
    case Sym(s) => EvalSymbol(s, c)
    case Unary(op, x) =>
      var v := Eval(x, c);
      Value(ApplyUnary(op, v.val, c.truth), v.cnst, v.deps)
    case Binary(op, l, r) =>
      var x, y := Eval(l, c), Eval(r, c);
      if op == Sub && !(x.cnst && y.cnst) then Difference(x, y, FindBase(l, c), FindBase(r, c), c)
      else Value(Apply(op, x.val, y.val, c.truth), x.cnst && y.cnst, x.deps + y.deps)
  }

  function EvalSymbol(s: Symbol, c: Ctx): Value
    decreases s, 2
  {
    match s
    case Equate(def) => Eval(def, c)
    case _ =>
      if LocRef(s) then
        var cnst := SecOf(s, c).unallocated || IsAbs(s, c);
        Value(Wrap(AddressOf(s, c)), cnst, if cnst then Dep(c, s) else {})
      else Value(0, false, {})
  }

  /** A difference whose operands are not both constant. */
  function Difference(x: Value, y: Value, lb: Base, rb: Base, c: Ctx): Value {
    var plain, deps := Wrap(x.val - y.val), x.deps + y.deps;
    if rb.Ok? && LocRef(rb.sym) then
      var rs := SecOf(rb.sym, c);
      if lb.Ok? && LocRef(lb.sym) && SecOf(lb.sym, c) == rs then
        Value(plain, true, deps + Dep(c, lb.sym))
      else if lb.Ok? && rs == c.sec && (ExtRef(lb.sym) || LocRef(lb.sym)) then
        if IsAbs(rb.sym, c) && IsAbs(lb.sym, c) then
          Value(plain, true, deps + Dep(c, lb.sym) + Dep(c, rb.sym))
        else
          Value(Wrap(c.pc - y.val + x.val - OrgOf(lb.sym, c)), false, deps)
      else if !lb.Ok? && IsAbs(rb.sym, c) then Value(plain, true, deps + Dep(c, rb.sym))
      else Value(plain, false, deps)
    else Value(plain, false, deps)
  }

  function FindBase(e: Expr, c: Ctx): Base
    decreases e, 0
  {
    match e
    case Sym(s) => if s.Equate? then FindBase(s.def, c) else Ok(s)
    case Binary(Add, l, r) => SumBase(Eval(l, c), Eval(r, c), FindBase(l, c), FindBase(r, c))
    case Binary(Sub, l, r) => DifferenceBase(Eval(r, c), FindBase(l, c), FindBase(r, c), c)
    case _ => Illegal
  }

  /** Constant plus base, in either order. */
  function SumBase(x: Value, y: Value, lb: Base, rb: Base): Base {
    if x.cnst && rb.Ok? then rb else if y.cnst && lb.Ok? then lb else Illegal
  }

  /** Base minus constant, or base minus a label of the current section. */
  function DifferenceBase(y: Value, lb: Base, rb: Base, c: Ctx): Base {
    if y.cnst && lb.Ok? then lb
    else if lb.Ok? && rb.Ok? && LocRef(rb.sym) && SecOf(rb.sym, c) == c.sec
            && (LocRef(lb.sym) || ExtRef(lb.sym)) then PcRel(lb.sym)
    else Illegal
  }
}
