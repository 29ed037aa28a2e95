/** Which expressions have a base: `find_base` finds one in just those that are built from a symbol
    by adding and subtracting constants, and in differences of two of them. */
module Bases {
  import opened Expressions
  import opened Operators
  import opened Relocation

  /** An expression with the definitions of its equates written out. */
  function Inline(e: Expr): Expr
    decreases e
  {
    match e
    case Num(_) => e
    case Sym(s) => if s.Equate? then Inline(s.def) else e
    case Unary(op, x) => Unary(op, Inline(x))
    case Binary(op, l, r) => Binary(op, Inline(l), Inline(r))
  }

  /** No equate is left. */
  predicate Inlined(e: Expr) {
    match e
    case Num(_) => true
    case Sym(s) => !s.Equate?
    case Unary(_, x) => Inlined(x)
    case Binary(_, l, r) => Inlined(l) && Inlined(r)
  }

  lemma {:induction false} InlineSame(e: Expr, c: Ctx)
    ensures Inlined(Inline(e))
    ensures Eval(Inline(e), c) == Eval(e, c) && FindBase(Inline(e), c) == FindBase(e, c)
    decreases e
  {
    match e
    case Num(_) =>
    case Sym(s) => if s.Equate? { InlineSame(s.def, c); }
    case Unary(_, x) => InlineSame(x, c);
    case Binary(_, l, r) =>
      InlineSame(l, c);
      InlineSame(r, c);
  }

  /** What is done to an expression: k is added on its right or on its left, or subtracted. */
  datatype Step = PlusRight(k: Expr) | PlusLeft(k: Expr) | Minus(k: Expr)

  function Done(e: Expr, step: Step): Expr {
    match step
    case PlusRight(k) => Binary(Add, e, k)
    case PlusLeft(k) => Binary(Add, k, e)
    case Minus(k) => Binary(Sub, e, k)
  }

  /** The expression that is built from a symbol. */
  function Build(s: Symbol, steps: seq<Step>): Expr {
    if steps == [] then Sym(s) else Done(Build(s, steps[..|steps| - 1]), steps[|steps| - 1])
  }

  /** Only constants are added and subtracted. (If both sides of a sum are constant, and the right one
      has a base as well, that one is taken.) */
  predicate Constants(s: Symbol, steps: seq<Step>, c: Ctx) {
    steps == [] ||
    var init, step := steps[..|steps| - 1], steps[|steps| - 1];
    && Constants(s, init, c) && Eval(step.k, c).cnst
    && (step.PlusRight? ==> !(Eval(Build(s, init), c).cnst && FindBase(step.k, c).Ok?))
  }

  /** The expression e is built from s. */
  ghost predicate BuiltFrom(e: Expr, s: Symbol, c: Ctx) {
    !s.Equate? && exists steps :: Inline(e) == Build(s, steps) && Constants(s, steps, c)
  }

  lemma {:induction false} BuildBase(s: Symbol, steps: seq<Step>, c: Ctx)
    requires !s.Equate? && Constants(s, steps, c)
    ensures FindBase(Build(s, steps), c) == Ok(s)
  {
    if steps != [] {
      BuildBase(s, steps[..|steps| - 1], c);
    }
  }

  lemma {:induction false} BaseBuilt(e: Expr, c: Ctx) returns (steps: seq<Step>)
    requires Inlined(e) && FindBase(e, c).Ok?
    ensures var s := FindBase(e, c).sym; !s.Equate? && e == Build(s, steps) && Constants(s, steps, c)
    decreases e
  {
    match e
    case Sym(s) => steps := [];
    case Binary(Add, l, r) =>
      if Eval(l, c).cnst && FindBase(r, c).Ok? {
        steps := BaseBuilt(r, c);
        steps := OneMore(FindBase(r, c).sym, steps, PlusLeft(l), c);
      } else {
        steps := BaseBuilt(l, c);
        steps := OneMore(FindBase(l, c).sym, steps, PlusRight(r), c);
      }
    case Binary(Sub, l, r) =>
      steps := BaseBuilt(l, c);
      steps := OneMore(FindBase(l, c).sym, steps, Minus(r), c);
  }

  lemma OneMore(s: Symbol, steps: seq<Step>, step: Step, c: Ctx) returns (more: seq<Step>)
    requires Constants(s, steps, c) && Eval(step.k, c).cnst
    requires step.PlusRight? ==> !(Eval(Build(s, steps), c).cnst && FindBase(step.k, c).Ok?)
    ensures Constants(s, more, c) && Build(s, more) == Done(Build(s, steps), step)
  {
    more := steps + [step];
    assert more[..|more| - 1] == steps;
  }

  /** A plain base is found in just the expressions that are built from it. */
  lemma PlainBase(e: Expr, s: Symbol, c: Ctx)
    ensures FindBase(e, c) == Ok(s) <==> BuiltFrom(e, s, c)
  {
    InlineSame(e, c);
    if FindBase(e, c) == Ok(s) {
      var steps := BaseBuilt(Inline(e), c);
    }
    if BuiltFrom(e, s, c) {
      var steps :| Inline(e) == Build(s, steps) && Constants(s, steps, c);
      BuildBase(s, steps, c);
    }
  }

  /** A difference of an expression built from s and one that is not constant and built from a
      symbol of the current section. */
  ghost predicate DistanceFrom(e: Expr, s: Symbol, c: Ctx) {
    var i := Inline(e);
    && i.Binary? && i.op == Sub && BuiltFrom(i.left, s, c) && !Eval(i.right, c).cnst
    && exists t :: LocRef(t) && SecOf(t, c) == c.sec && BuiltFrom(i.right, t, c)
  }

  /** A pc-relative base is found in just these. */
  lemma RelativeBase(e: Expr, s: Symbol, c: Ctx)
    ensures FindBase(e, c) == PcRel(s) <==> DistanceFrom(e, s, c)
  {
    InlineSame(e, c);
    var i := Inline(e);
    if i.Binary? && i.op == Sub {
      PlainBase(i.left, s, c);
      if FindBase(i.left, c).Ok? { PlainBase(i.left, FindBase(i.left, c).sym, c); }
      if FindBase(i.right, c).Ok? { PlainBase(i.right, FindBase(i.right, c).sym, c); }
      if DistanceFrom(e, s, c) {
        var t :| LocRef(t) && SecOf(t, c) == c.sec && BuiltFrom(i.right, t, c);
        PlainBase(i.right, t, c);
      }
    }
  }

  /** So there is a base if and only if the expression has one of these forms. */
  lemma AnyBase(e: Expr, c: Ctx)
    ensures !FindBase(e, c).Illegal? <==> exists s :: BuiltFrom(e, s, c) || DistanceFrom(e, s, c)
  {
    forall s
      ensures FindBase(e, c) == Ok(s) <==> BuiltFrom(e, s, c)
      ensures FindBase(e, c) == PcRel(s) <==> DistanceFrom(e, s, c)
    {
      PlainBase(e, s, c);
      RelativeBase(e, s, c);
    }
    if !FindBase(e, c).Illegal? {
      assert BuiltFrom(e, FindBase(e, c).sym, c) || DistanceFrom(e, FindBase(e, c).sym, c);
    }
  }

  // ---------- numbers around a symbol ----------

  predicate Numbers(steps: seq<Step>) {
    forall i :: 0 <= i < |steps| ==> steps[i].k.Num?
  }

  /** What the numbers add up to. */
  function Sum(steps: seq<Step>): int
    requires Numbers(steps)
  {
    if steps == [] then 0
    else
      var step := steps[|steps| - 1];
      Sum(steps[..|steps| - 1]) + if step.Minus? then -step.k.val else step.k.val
  }

  /** With numbers around it, any symbol but an equate is found, and the numbers are added to its
      address; imported symbols and weak labels count as 0. */
  lemma {:induction false} NumbersAround(s: Symbol, steps: seq<Step>, c: Ctx)
    requires !s.Equate? && Numbers(steps)
    ensures FindBase(Build(s, steps), c) == Ok(s)
    ensures Eval(Build(s, steps), c).val == Wrap((if LocRef(s) then AddressOf(s, c) else 0) + Sum(steps))
  {
    if steps != [] {
      var init, step := steps[..|steps| - 1], steps[|steps| - 1];
      var at := if LocRef(s) then AddressOf(s, c) else 0;
      NumbersAround(s, init, c);
      NumberStep(Build(s, init), step, c, at + Sum(init));
    }
  }

  lemma NumberStep(e: Expr, step: Step, c: Ctx, x: int)
    requires step.k.Num? && Eval(e, c).val == Wrap(x) && FindBase(e, c).Ok?
    ensures FindBase(Done(e, step), c) == FindBase(e, c)
    ensures Eval(Done(e, step), c).val == Wrap(x + if step.Minus? then -step.k.val else step.k.val)
  {
    var k := step.k.val;
    assert Eval(step.k, c) == Value(Wrap(k), true, {});
    StepSums(x, k);
    if step.Minus? {
      SubValue(e, step.k, c);
    }
  }

  lemma StepSums(x: int, k: int)
    ensures Wrap(Wrap(x) + Wrap(k)) == Wrap(Wrap(k) + Wrap(x)) == Wrap(x + k) && Wrap(Wrap(x) - Wrap(k)) == Wrap(x - k)
  {
    ReducedOperands(x, k);
  }

  // ---------- constants ----------

  /** All symbols are labels that cannot move. */
  predicate AllFixed(e: Expr, c: Ctx)
    decreases e
  {
    match e
    case Num(_) => true
    case Sym(s) => if s.Equate? then AllFixed(s.def, c) else Fixed(s, c)
    case Unary(_, x) => AllFixed(x, c)
    case Binary(_, l, r) => AllFixed(l, c) && AllFixed(r, c)
  }

  predicate NoDifference(e: Expr)
    decreases e
  {
    match e
    case Num(_) => true
    case Sym(s) => s.Equate? ==> NoDifference(s.def)
    case Unary(_, x) => NoDifference(x)
    case Binary(op, l, r) => op != Sub && NoDifference(l) && NoDifference(r)
  }

  /** A label is fixed if it is absolute or its section is not allocated, the current address if the
      section is absolute there or not allocated; imported symbols and weak labels never are. */
  lemma FixedSymbol(s: Symbol, c: Ctx)
    ensures Fixed(s, c)
            <==> match s
                 case Label(_, sec, abs, weak) => !weak && (abs || sec.unallocated)
                 case CurrentPc => c.absolute || c.sec.unallocated
                 case _ => false
  {}

  /** Expressions of numbers and fixed labels are constant; without differences, no others are. */
  lemma {:induction false} FixedConstant(e: Expr, c: Ctx)
    ensures AllFixed(e, c) ==> Eval(e, c).cnst
    ensures NoDifference(e) && Eval(e, c).cnst ==> AllFixed(e, c)
    decreases e
  {
    match e
    case Num(_) =>
    case Sym(s) =>
      assert Eval(e, c) == EvalSymbol(s, c);
      if s.Equate? { FixedConstant(s.def, c); }
    case Unary(_, x) => FixedConstant(x, c);
    case Binary(_, l, r) =>
      FixedConstant(l, c);
      FixedConstant(r, c);
  }

  /** And so is the distance between two places of one section, whatever the section is. */
  lemma DistanceConstant(l: Expr, r: Expr, s: Symbol, t: Symbol, c: Ctx)
    requires BuiltFrom(l, s, c) && BuiltFrom(r, t, c) && LocRef(s) && LocRef(t) && SecOf(s, c) == SecOf(t, c)
    ensures Eval(Binary(Sub, l, r), c).cnst
    ensures Eval(Binary(Sub, l, r), c).val == Wrap(Eval(l, c).val - Eval(r, c).val)
  {
    PlainBase(l, s, c);
    PlainBase(r, t, c);
    var x, y := Eval(l, c), Eval(r, c);
    assert Difference(x, y, Ok(s), Ok(t), c).cnst && Difference(x, y, Ok(s), Ok(t), c).val == Wrap(x.val - y.val);
  }
}
