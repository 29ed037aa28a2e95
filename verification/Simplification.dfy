/** Folding the constant parts of an expression tree in place. */
module Simplification {
  import opened Bits
  import opened Expressions
  import opened Operators

  /** Symbols directly below two nested subtractions, which are rearranged. */
  predicate Chain(e: Expr) {
    e.Binary? && e.op == Sub && e.right.Sym? && e.left.Binary? && e.left.op == Sub && e.left.right.Sym?
  }

  /** The rearrangement of "constant - symbol - symbol". */
  function Rearranged(e: Expr): Expr
    requires Chain(e)
  {
    Binary(Sub, e.left.left, Binary(Sub, e.left.right, e.right))
  }

  /** What `simplify_expr` makes of a tree, if the boolean "true" is the given value. */
  function Simplified(e: Expr, truth: int): Expr {
    match e
    case Num(_) => e
    case Sym(s) => if s.Equate? && s.def.Num? then s.def else e
    case Unary(op, x) =>
      var y := Simplified(x, truth);
      if y.Num? then Num(ApplyUnary(op, Wrap(y.val), truth)) else Unary(op, y)
    case Binary(op, l, r) => Fold(Binary(op, Simplified(l, truth), Simplified(r, truth)), truth)
  }

  /** A node whose operands are simplified already. */
  function Fold(e: Expr, truth: int): Expr
    requires e.Binary?
  {
    if Chain(e) && !e.left.left.Sym? then Rearranged(e)
    else if e.left.Num? && e.right.Num? then Num(Apply(e.op, Wrap(e.left.val), Wrap(e.right.val), truth))
    else e
  }

  /** A symbol that is not folded to a number. */
  predicate Stays(e: Expr) {
    e.Sym? && !(e.sym.Equate? && e.sym.def.Num?)
  }

  /** At no node "symbol - symbol" is made out of "x - symbol - symbol". */
  predicate Unchained(e: Expr) {
    match e
    case Num(_) => true
    case Sym(_) => true
    case Unary(_, x) => Unchained(x)
    case Binary(_, l, r) =>
      !(Chain(e) && Stays(r) && Stays(l.right) && !Stays(l.left)) && Unchained(l) && Unchained(r)
  }

  /** Then nothing is rearranged: symbols stay symbols or become numbers, other nodes keep their
      operator and their simplified operands, or become numbers; and nothing is left to rearrange. */
  lemma {:induction false} ShapeKept(e: Expr, truth: int)
    requires Unchained(e)
    ensures Stays(e) ==> Simplified(e, truth) == e
    ensures Simplified(e, truth).Sym? ==> Stays(e)
    ensures Simplified(e, truth).Binary? ==>
              e.Binary? && Simplified(e, truth) == Binary(e.op, Simplified(e.left, truth), Simplified(e.right, truth))
    ensures Unchained(Simplified(e, truth))
    decreases e
  {
    match e
    case Unary(_, x) => ShapeKept(x, truth);
    case Binary(op, l, r) =>
      ShapeKept(l, truth);
      ShapeKept(r, truth);
      if l.Binary? {
        ShapeKept(l.left, truth);
        ShapeKept(l.right, truth);
      }
    case _ =>
  }

  /** No operator has numbers only, and no symbol stands for a number. */
  predicate Folded(e: Expr) {
    match e
    case Num(_) => true
    case Sym(_) => Stays(e)
    case Unary(_, x) => Folded(x) && !x.Num?
    case Binary(_, l, r) => Folded(l) && Folded(r) && !(l.Num? && r.Num?)
  }

  /** Simplifying folds everything that can be folded. */
  lemma {:induction false} AllFolded(e: Expr, truth: int)
    ensures Folded(Simplified(e, truth))
    decreases e
  {
    match e
    case Num(_) =>
    case Sym(_) =>
    case Unary(_, x) => AllFolded(x, truth);
    case Binary(_, l, r) =>
      AllFolded(l, truth);
      AllFolded(r, truth);
  }

  /** The value of a node depends only on the values and bases of its operands. */
  lemma EvalCongruent(op: BinOp, l: Expr, r: Expr, a: Expr, b: Expr, c: Ctx)
    requires Eval(a, c) == Eval(l, c) && Eval(b, c) == Eval(r, c)
    requires FindBase(a, c) == FindBase(l, c) && FindBase(b, c) == FindBase(r, c)
    ensures Eval(Binary(op, a, b), c) == Eval(Binary(op, l, r), c)
    ensures FindBase(Binary(op, a, b), c) == FindBase(Binary(op, l, r), c)
  {}

  /** All operators yield values in range. */
  lemma ApplyWraps(op: BinOp, x: int, y: int, c: Ctx)
    requires Truth(c.truth)
    ensures Wrap(Apply(op, Wrap(x), Wrap(y), c.truth)) == Apply(op, Wrap(x), Wrap(y), c.truth)
  {
    ApplyInRange(op, Wrap(x), Wrap(y), c.truth);
  }

  /** Simplification changes neither value, constness, dependencies nor base. */
  lemma {:induction false} SimplifyKeeps(e: Expr, c: Ctx)
    requires Unchained(e) && Truth(c.truth)
    ensures Eval(Simplified(e, c.truth), c) == Eval(e, c)
    ensures FindBase(Simplified(e, c.truth), c) == FindBase(e, c)
    decreases e
  {
    match e
    case Num(_) =>
    case Sym(s) =>
    case Unary(op, x) => SimplifyKeeps(x, c);
    case Binary(op, l, r) =>
      var a, b := Simplified(l, c.truth), Simplified(r, c.truth);
      SimplifyKeeps(l, c);
      SimplifyKeeps(r, c);
      ShapeKept(e, c.truth);
      EvalCongruent(op, l, r, a, b, c);
      FoldKeeps(op, a, b, c);
  }

  lemma FoldKeeps(op: BinOp, a: Expr, b: Expr, c: Ctx)
    requires Truth(c.truth) && !(Chain(Binary(op, a, b)) && !a.left.Sym?)
    ensures Eval(Fold(Binary(op, a, b), c.truth), c) == Eval(Binary(op, a, b), c)
    ensures FindBase(Fold(Binary(op, a, b), c.truth), c) == FindBase(Binary(op, a, b), c)
  {
    if a.Num? && b.Num? {
      ApplyWraps(op, a.val, b.val, c);
    }
  }

  // ---------- the rearrangement ----------

  /** Rearranging x - s1 - s2 to x - (s1 - s2) changes the sign of s2. So the value is kept exactly
      when twice the value of s2 is made up for by what the four subtractions involved add. */
  lemma {:induction false} RearrangedValue(e: Expr, c: Ctx)
    requires Chain(e)
    ensures var x, s1, s2 := e.left.left, e.left.right, e.right;
            Eval(Rearranged(e), c).val == Eval(e, c).val
            <==> Wrap(2 * Eval(s2, c).val)
                 == Wrap(Offset(x, s1, c) + Offset(e.left, s2, c) + Offset(s1, s2, c)
                         - Offset(x, Binary(Sub, s1, s2), c))
  {
    RearrangedSum(e.left.left, e.left.right, e.right, c);
  }

  lemma {:induction false} RearrangedSum(x: Expr, s1: Expr, s2: Expr, c: Ctx)
    ensures Eval(Binary(Sub, x, Binary(Sub, s1, s2)), c).val == Eval(Binary(Sub, Binary(Sub, x, s1), s2), c).val
            <==> Wrap(2 * Eval(s2, c).val)
                 == Wrap(Offset(x, s1, c) + Offset(Binary(Sub, x, s1), s2, c) + Offset(s1, s2, c)
                         - Offset(x, Binary(Sub, s1, s2), c))
  {
    SubValue(x, s1, c);
    SubValue(s1, s2, c);
    SumsAgree(x, s2, Binary(Sub, x, s1), Binary(Sub, s1, s2), c, Eval(s1, c).val, Offset(x, s1, c), Offset(s1, s2, c));
  }

  /** The two differences, with a standing for x - s1 and d for s1 - s2. */
  lemma {:induction false} SumsAgree(x: Expr, s2: Expr, a: Expr, d: Expr, c: Ctx, v1: int, o1: int, o3: int)
    requires Eval(a, c).val == Wrap(Eval(x, c).val - v1 + o1) && Eval(d, c).val == Wrap(v1 - Eval(s2, c).val + o3)
    ensures Eval(Binary(Sub, x, d), c).val == Eval(Binary(Sub, a, s2), c).val
            <==> Wrap(2 * Eval(s2, c).val) == Wrap(o1 + Offset(a, s2, c) + o3 - Offset(x, d, c))
  {
    var vx, v2 := Eval(x, c).val, Eval(s2, c).val;
    LeftValue(a, s2, c, vx - v1 + o1);
    RightValue(x, d, c, v1 - v2 + o3);
    SignFlip(vx - v1, v2, o1, Offset(a, s2, c), o3, Offset(x, d, c));
  }

  /** An operand that has been reduced can be replaced by what was reduced. */
  lemma LeftValue(l: Expr, r: Expr, c: Ctx, w: int)
    requires Eval(l, c).val == Wrap(w)
    ensures Eval(Binary(Sub, l, r), c).val == Wrap(w - Eval(r, c).val + Offset(l, r, c))
  {
    SubValue(l, r, c);
    OuterSum(w, Eval(l, c).val, Offset(l, r, c) - Eval(r, c).val);
  }

  lemma RightValue(l: Expr, r: Expr, c: Ctx, w: int)
    requires Eval(r, c).val == Wrap(w)
    ensures Eval(Binary(Sub, l, r), c).val == Wrap(Eval(l, c).val - w + Offset(l, r, c))
  {
    SubValue(l, r, c);
    OuterSum(w, Eval(r, c).val, Offset(l, r, c) + Eval(l, c).val);
  }

  lemma OuterSum(w: int, inner: int, d: int)
    requires inner == Wrap(w)
    ensures Wrap(inner + d) == Wrap(w + d) && Wrap(d - inner) == Wrap(d - w)
  {
    var k := WrapRemoves(w);
    WrapSame(inner + d, w + d, k);
    WrapSame(d - inner, d - w, -k);
  }

  lemma SignFlip(v: int, v2: int, o1: int, o2: int, o3: int, o4: int)
    ensures Wrap(v + v2 - o3 + o4) == Wrap(v - v2 + o1 + o2) <==> Wrap(2 * v2) == Wrap(o1 + o2 + o3 - o4)
  {
    WrapEqual(v + v2 - o3 + o4, v - v2 + o1 + o2);
    WrapEqual(2 * v2, o1 + o2 + o3 - o4);
  }

  /** What the rearrangement is for: x - s1 - s2 is never constant if s1 and s2 stand for two places
      in one section; rearranged it is as constant as x. */
  lemma RearrangedConstness(e: Expr, c: Ctx)
    requires Chain(e)
    requires var b1, b2 := FindBase(e.left.right, c), FindBase(e.right, c);
             && !Eval(e.left.right, c).cnst && !Eval(e.right, c).cnst && b1.Ok? && b2.Ok? && LocRef(b1.sym)
             && LocRef(b2.sym)
             && SecOf(b1.sym, c) == SecOf(b2.sym, c) && !IsAbs(b1.sym, c) && !IsAbs(b2.sym, c)
    ensures !Eval(e, c).cnst && Eval(Rearranged(e), c).cnst == Eval(e.left.left, c).cnst
  {
    var x, s1, s2 := e.left.left, e.left.right, e.right;
    assert !FindBase(Binary(Sub, x, s1), c).Ok? && !FindBase(Binary(Sub, s1, s2), c).Ok?;
    assert Eval(Binary(Sub, s1, s2), c).cnst;
  }

  // ---------- in place ----------

  /** What a node of the tree is, apart from its operands. */
  datatype Kind = NumNode(val: int) | SymNode(sym: Symbol) | UnaryNode(uop: UnOp) | BinaryNode(op: BinOp)

  /** A node of an expression tree. The ghost fields are the expression that it stands for, and
      the nodes below it. */
  class Node {
    var kind: Kind
    var left: Node?
    var right: Node?
    ghost var tree: Expr
    ghost var below: set<Node>

    ghost predicate Valid()
      reads this, below
      decreases below
    {
      && this !in below
      && (left != null ==> Owned(left))
      && (right != null ==> Owned(right))
      && (left != null && right != null ==> Apart(left, right))
      && Stands()
    }

    /** A valid node whose nodes all belong to this one. */
    ghost predicate Owned(n: Node)
      reads this, below
      decreases below, 0
    {
      n in below && n.below < below && n !in n.below && n.Valid()
    }

    static ghost predicate Apart(m: Node, n: Node)
      reads m, n
    {
      m != n && m !in n.below && n !in m.below && m.below !! n.below
    }

    /** The tree is made of this node and the trees of its operands. */
    ghost predicate Stands()
      reads this, left, right
    {
      match kind
      case NumNode(v) => left == null && right == null && tree == Num(v)
      case SymNode(s) => left == null && right == null && tree == Sym(s)
      case UnaryNode(op) => left != null && right == null && tree == Unary(op, left.tree)
      case BinaryNode(op) => left != null && right != null && tree == Binary(op, left.tree, right.tree)
    }

    /** The node becomes a number. */
    method SetNumber(v: int)
      modifies this
      ensures Valid() && tree == Num(v) && below == {}
    {
      kind, left, right := NumNode(v), null, null;
      tree, below := Num(v), {};
    }

    /** The five nodes of a chain. */
    lemma ChainNodes()
      requires Valid() && Chain(tree)
      ensures Stands() && left != null && right != null && left.left != null && left.right != null && left.Stands()
      ensures Owned(left) && Owned(right) && left.Owned(left.left) && left.Owned(left.right)
      ensures Apart(left.left, left.right) && Apart(left, right)
      ensures {this, left} !! left.left.below + {left.left} && {this, left} !! left.right.below + {left.right}
      ensures {this, left} !! right.below + {right}
    {
      assert Stands() && Owned(left) && left.Valid() && left.Stands();
    }

    /** The operands of a chain are relinked. */
    method Rearrange()
      requires Valid() && Chain(tree)
      modifies this, left
      ensures Valid() && tree == Rearranged(old(tree)) && below == old(below)
    {
      ChainNodes();
      var x: Node := right;
      ghost var m: Node, p: Node, q: Node := left, left.left, left.right;
      right := left;
      left := right.left;
      right.left := right.right;
      right.right := x;
      m.tree := Binary(Sub, q.tree, x.tree);
      m.below := {q, x} + q.below + x.below;
      tree := Binary(Sub, p.tree, m.tree);
      assert p.Valid() && q.Valid() && x.Valid();
      assert Apart(q, x) && m !in m.below && m.Stands();
      assert m.Owned(q) && m.Owned(x);
      assert m.Valid();
      assert Owned(p) && Owned(m) && Apart(p, m);
    }

    /** The operands are simplified. */
    method SimplifyOperands(truth: int)
      requires Valid()
      modifies this, below
      ensures Valid() && below <= old(below)
      ensures kind == old(kind)
      ensures match kind
              case UnaryNode(op) => old(tree).Unary? && tree == Unary(op, Simplified(old(tree).arg, truth))
              case BinaryNode(op) =>
                old(tree).Binary?
                && tree == Binary(op, Simplified(old(tree).left, truth), Simplified(old(tree).right, truth))
              case _ => tree == old(tree)
      decreases below, 0
    {
      assert Stands();
      ghost var l, r := left, right;
      if left != null {
        assert Owned(left);
        left.Simplify(truth);
        assert Owned(left);
      }
      if right != null {
        assert Owned(right) && right.Valid();
        right.Simplify(truth);
        assert Owned(right);
      }
      if left != null {
        tree := if right != null then Binary(kind.op, left.tree, right.tree) else Unary(kind.uop, left.tree);
      }
    }

    /** In a valid tree, every node stands for its expression. */
    lemma OperandsStand()
      requires Valid()
      ensures Stands()
      ensures left != null ==> Owned(left) && left.Stands()
      ensures right != null ==> Owned(right) && right.Stands()
      ensures left != null && left.left != null ==> left.Owned(left.left) && left.left.Stands()
      ensures left != null && left.right != null ==> left.Owned(left.right) && left.right.Stands()
    {
      if left != null {
        assert Owned(left) && left.Valid();
        if left.left != null {
          assert left.Owned(left.left) && left.left.Valid();
        }
        if left.right != null {
          assert left.Owned(left.right) && left.right.Valid();
        }
      }
      if right != null {
        assert Owned(right) && right.Valid();
      }
    }

    /** `simplify_expr` */
    method Simplify(truth: int)
      requires Valid()
      modifies this, below
      ensures Valid() && tree == Simplified(old(tree), truth) && below <= old(below)
      decreases below, 1
    {
      SimplifyOperands(truth);
      OperandsStand();
      match kind
      case NumNode(_) =>
      case SymNode(s) =>
        if s.Equate? && s.def.Num? {
          SetNumber(s.def.val);
        }
      case UnaryNode(op) =>
        if left.kind.NumNode? {
          SetNumber(ApplyUnary(op, Wrap(left.kind.val), truth));
        }
      case BinaryNode(op) =>
        if op == Sub && right.kind.SymNode? && left.kind == BinaryNode(Sub)
           && !left.left.kind.SymNode? && left.right.kind.SymNode? {
          Rearrange();
        } else if left.kind.NumNode? && right.kind.NumNode? {
          SetNumber(Apply(op, Wrap(left.kind.val), Wrap(right.kind.val), truth));
        }
    }
  }
}
