/** Which label addresses a value depends on, and why sizing by values does not depend on labels
    of sections for which no dependency was recorded. */
module Dependencies {
  import opened Expressions
  import opened Layout
  import opened Relocation
  import opened Worklist

  /** The label addresses of c and d agree for the labels in e whose section is in ids. */
  predicate AgreeOn(e: Expr, c: Ctx, d: Ctx, ids: set<nat>)
    decreases e, 1
  {
    match e
    case Num(_) => true
    case Sym(s) => AgreeOnSymbol(s, c, d, ids)
    case Unary(_, x) => AgreeOn(x, c, d, ids)
    case Binary(_, l, r) => AgreeOn(l, c, d, ids) && AgreeOn(r, c, d, ids)
  }

  predicate AgreeOnSymbol(s: Symbol, c: Ctx, d: Ctx, ids: set<nat>)
    decreases s, 2
  {
    match s
    case Label(name, sec, _, _) => sec.id in ids ==> c.labels(name) == d.labels(name)
    case Equate(def) => AgreeOn(def, c, d, ids)
    case _ => true
  }

  lemma {:induction false} AgreeLess(e: Expr, c: Ctx, d: Ctx, ids: set<nat>, less: set<nat>)
    requires AgreeOn(e, c, d, ids) && less <= ids
    ensures AgreeOn(e, c, d, less)
    decreases e
  {
    match e
    case Num(_) =>
    case Sym(s) => if s.Equate? { AgreeLess(s.def, c, d, ids, less); }
    case Unary(_, x) => AgreeLess(x, c, d, ids, less);
    case Binary(_, l, r) => AgreeLess(l, c, d, ids, less); AgreeLess(r, c, d, ids, less);
  }

  /** A value on which something may be based: a constant, or one with a base. */
  predicate Usable(v: Value, b: Base) {
    v.cnst || !b.Illegal?
  }

  /** The sections on whose labels a usable value depends: the own section, those for which a
      dependency was recorded, and for a value that is not constant that of its base. */
  function Needs(v: Value, b: Base, c: Ctx): set<nat> {
    {c.sec.id} + v.deps + (if !v.cnst && !b.Illegal? && LocRef(b.sym) then {SecOf(b.sym, c).id} else {})
  }

  /** An absolute label is only subtracted from something that is constant or has a plain base.
      (From anything else `eval_expr` gives a constant, and only the label is recorded.) */
  predicate Traced(e: Expr, c: Ctx)
    decreases e
  {
    match e
    case Num(_) => true
    case Sym(s) => s.Equate? ==> Traced(s.def, c)
    case Unary(_, x) => Traced(x, c)
    case Binary(op, l, r) =>
      Traced(l, c) && Traced(r, c) && (op == Sub ==> TracedDifference(Eval(l, c), FindBase(l, c), FindBase(r, c), c))
  }

  predicate TracedDifference(x: Value, lb: Base, rb: Base, c: Ctx) {
    rb.Ok? && LocRef(rb.sym) && IsAbs(rb.sym, c) ==> x.cnst || lb.Ok?
  }

  /** Constness, base and recorded dependencies of an expression never depend on label addresses. */
  ghost predicate SameShape(e: Expr, c: Ctx, d: Ctx) {
    Eval(e, d).cnst == Eval(e, c).cnst && Eval(e, d).deps == Eval(e, c).deps && FindBase(e, d) == FindBase(e, c)
  }

  lemma {:induction false} ShapeStays(e: Expr, c: Ctx, d: Ctx)
    requires d == c.(labels := d.labels)
    ensures SameShape(e, c, d)
    decreases e
  {
    match e
    case Num(_) =>
    case Sym(s) => if s.Equate? { ShapeStays(s.def, c, d); }
    case Unary(_, x) => ShapeStays(x, c, d);
    case Binary(_, l, r) =>
      ShapeStays(l, c, d);
      ShapeStays(r, c, d);
      BinaryShape(e, c, d);
  }

  lemma BinaryShape(e: Expr, c: Ctx, d: Ctx)
    requires e.Binary? && d == c.(labels := d.labels) && SameShape(e.left, c, d) && SameShape(e.right, c, d)
    ensures SameShape(e, c, d)
  {}

  /** The value of e is the same wherever the labels that it needs are the same. */
  ghost predicate Determined(e: Expr, c: Ctx, d: Ctx) {
    Usable(Eval(e, c), FindBase(e, c)) && AgreeOn(e, c, d, Needs(Eval(e, c), FindBase(e, c), c))
    ==> Eval(e, d) == Eval(e, c)
  }

  lemma SymbolDetermined(s: Symbol, c: Ctx, d: Ctx)
    requires !s.Equate? && d == c.(labels := d.labels)
    ensures Determined(Sym(s), c, d)
  {
    var e := Sym(s);
    assert Eval(e, c) == EvalSymbol(s, c) && Eval(e, d) == EvalSymbol(s, d) && FindBase(e, c) == Ok(s);
    var ids := Needs(EvalSymbol(s, c), Ok(s), c);
    assert AgreeOn(e, c, d, ids) == AgreeOnSymbol(s, c, d, ids);
    if s.Label? && !s.weak {
      assert s.sec.id in ids;
    }
  }

  lemma {:induction false} RecordedDependencies(e: Expr, c: Ctx, d: Ctx)
    requires Traced(e, c) && d == c.(labels := d.labels)
    ensures SameShape(e, c, d) && Determined(e, c, d)
    decreases e
  {
    ShapeStays(e, c, d);
    match e
    case Num(_) =>
    case Sym(s) =>
      if s.Equate? {
        RecordedDependencies(s.def, c, d);
        var ids := Needs(Eval(s.def, c), FindBase(s.def, c), c);
        assert Needs(Eval(e, c), FindBase(e, c), c) == ids;
        assert AgreeOn(e, c, d, ids) == AgreeOnSymbol(s, c, d, ids);
      } else {
        SymbolDetermined(s, c, d);
      }
    case Unary(_, x) => RecordedDependencies(x, c, d);
    case Binary(op, l, r) =>
      RecordedDependencies(l, c, d);
      RecordedDependencies(r, c, d);
      BinaryDetermined(op, l, r, c, d);
  }

  lemma BinaryDetermined(op: BinOp, l: Expr, r: Expr, c: Ctx, d: Ctx)
    requires Traced(Binary(op, l, r), c) && d == c.(labels := d.labels)
    requires SameShape(l, c, d) && Determined(l, c, d) && SameShape(r, c, d) && Determined(r, c, d)
    ensures Determined(Binary(op, l, r), c, d)
  {
    var e := Binary(op, l, r);
    var ids := Needs(Eval(e, c), FindBase(e, c), c);
    if Usable(Eval(e, c), FindBase(e, c)) && AgreeOn(e, c, d, ids) {
      OperandNeeds(op, l, r, c);
      AgreeLess(l, c, d, ids, Needs(Eval(l, c), FindBase(l, c), c));
      AgreeLess(r, c, d, ids, Needs(Eval(r, c), FindBase(r, c), c));
      DifferenceLabels(Eval(l, c), Eval(r, c), FindBase(l, c), FindBase(r, c), c, d);
    }
  }

  lemma DifferenceLabels(x: Value, y: Value, lb: Base, rb: Base, c: Ctx, d: Ctx)
    requires d == c.(labels := d.labels)
    ensures Difference(x, y, lb, rb, d) == Difference(x, y, lb, rb, c)
  {}

  /** What a usable value needs covers what its operands need, and they are usable too. */
  lemma OperandNeeds(op: BinOp, l: Expr, r: Expr, c: Ctx)
    requires Traced(Binary(op, l, r), c) && Usable(Eval(Binary(op, l, r), c), FindBase(Binary(op, l, r), c))
    ensures var e := Binary(op, l, r);
            var ids := Needs(Eval(e, c), FindBase(e, c), c);
            && Usable(Eval(l, c), FindBase(l, c)) && Needs(Eval(l, c), FindBase(l, c), c) <= ids
            && Usable(Eval(r, c), FindBase(r, c)) && Needs(Eval(r, c), FindBase(r, c), c) <= ids
  {}

  /** Where an absolute label is subtracted from anything else, the result is a constant that
      follows the left side, whatever that depends on. */
  lemma UntracedDifference(l: Expr, r: Expr, c: Ctx, d: Ctx)
    requires !TracedDifference(Eval(l, c), FindBase(l, c), FindBase(r, c), c) && d == c.(labels := d.labels)
    requires Traced(r, c) && Eval(r, c).cnst && AgreeOn(r, c, d, Needs(Eval(r, c), FindBase(r, c), c))
    ensures Eval(Binary(Sub, l, r), c).cnst && Eval(Binary(Sub, l, r), d).cnst
    ensures Eval(Binary(Sub, l, r), d).val == Eval(Binary(Sub, l, r), c).val
            <==> Wrap(Eval(l, d).val) == Wrap(Eval(l, c).val)
  {
    ShapeStays(l, c, d);
    RecordedDependencies(r, c, d);
    var y := Eval(r, c).val;
    var v := UntracedValue(l, r, d, y);
    var v' := UntracedValue(l, r, c, y);
    SameMinus(Eval(l, d).val, Eval(l, c).val, y, v, v');
  }

  lemma SameMinus(x: int, x': int, y: int, v: int, v': int)
    requires v == Wrap(x - y) && v' == Wrap(x' - y)
    ensures v == v' <==> Wrap(x) == Wrap(x')
  {
    WrapMinus(x, x', y);
  }

  lemma UntracedValue(l: Expr, r: Expr, c: Ctx, y: int) returns (v: int)
    requires !TracedDifference(Eval(l, c), FindBase(l, c), FindBase(r, c), c) && Eval(r, c).val == y
    ensures Eval(Binary(Sub, l, r), c).cnst && Eval(Binary(Sub, l, r), c).val == v == Wrap(Eval(l, c).val - y)
  {
    v := Wrap(Eval(l, c).val - y);
  }

  /** For example twice a label of section 1, less an absolute label of section 2: a constant for
      which only section 2 is recorded, although it changes with the label of section 1. */
  lemma DependencyMissed()
    ensures var e := Binary(Sub, Binary(Mul, Num(2), Sym(Label(0, Section(1, 0, false), false, false))),
                            Sym(Label(1, Section(2, 0, false), true, false)));
            var c := Ctx(Section(0, 0, false), false, 0, _ => 0, 1);
            var d := c.(labels := (n: nat) => if n == 0 then 1 else 0);
            && Eval(e, c).cnst && Eval(e, c).deps == {2} && AgreeOn(e, c, d, Needs(Eval(e, c), FindBase(e, c), c))
            && Eval(e, d).val != Eval(e, c).val
  {
    var lab := Sym(Label(0, Section(1, 0, false), false, false));
    var abslab := Sym(Label(1, Section(2, 0, false), true, false));
    var c := Ctx(Section(0, 0, false), false, 0, _ => 0, 1);
    var d := c.(labels := (n: nat) => if n == 0 then 1 else 0);
    var l := Binary(Mul, Num(2), lab);
    assert Eval(lab, c) == Value(0, false, {}) && Eval(lab, d) == Value(1, false, {});
    assert Eval(l, c) == Value(0, false, {}) && Eval(l, d) == Value(2, false, {});
    assert Eval(abslab, c) == Eval(abslab, d) == Value(0, true, {2});
  }

  // ---------- sizes ----------

  /** What a size function learns of an expression: whether it is constant, its base, and its
      value if that is constant, or its base is not a label of another section. */
  datatype Reading = Reading(cnst: bool, base: Base, val: int)

  predicate Near(v: Value, b: Base, c: Ctx) {
    v.cnst || (!b.Illegal? && (LocRef(b.sym) ==> SecOf(b.sym, c).id == c.sec.id))
  }

  function Read(e: Expr, c: Ctx): Reading {
    var v, b := Eval(e, c), FindBase(e, c);
    Reading(v.cnst, b, if Near(v, b, c) then v.val else 0)
  }

  function Readings(exprs: seq<Expr>, c: Ctx): seq<Reading> {
    if exprs == [] then [] else Readings(exprs[..|exprs| - 1], c) + [Read(exprs[|exprs| - 1], c)]
  }

  /** The sections recorded while the expressions are evaluated. */
  function Recorded(exprs: seq<Expr>, c: Ctx): set<nat> {
    if exprs == [] then {} else Recorded(exprs[..|exprs| - 1], c) + Eval(exprs[|exprs| - 1], c).deps
  }

  /** What the contexts of all atoms of a section have in common. */
  datatype Frame = Frame(sec: Section, absolute: bool, truth: int)

  /** The context of an atom at a place; an open relocated org block makes the section absolute. */
  function ContextAt(f: Frame, p: Place, labels: map<nat, int>): Ctx {
    Ctx(f.sec, f.absolute || p.rorg, p.pc, (n: nat) => if n in labels then labels[n] else 0, f.truth)
  }

  /** All labels in e stand in no other section than their own. */
  ghost predicate Filed(e: Expr, secs: seq<Sec>)
    decreases e, 1
  {
    match e
    case Num(_) => true
    case Sym(s) => FiledSymbol(s, secs)
    case Unary(_, x) => Filed(x, secs)
    case Binary(_, l, r) => Filed(l, secs) && Filed(r, secs)
  }

  ghost predicate FiledSymbol(s: Symbol, secs: seq<Sec>)
    decreases s, 2
  {
    match s
    case Label(name, sec, _, _) => forall t :: 0 <= t < |secs| && Owns(secs[t], name) ==> t == sec.id
    case Equate(def) => Filed(def, secs)
    case _ => true
  }

  /** The sizes of section s are computed from readings of the expressions of each atom. */
  ghost predicate SizedByReading(s: Sec, f: Frame, exprs: Place -> seq<Expr>, size: (Place, seq<Reading>) -> Sized) {
    f.sec.id == s.id &&
    forall p, a :: var c := ContextAt(f, p, a);
                   s.size(p, a) == size(p, Readings(exprs(p), c)).(used := Recorded(exprs(p), c))
  }

  lemma {:induction false} FiledAgree(e: Expr, secs: seq<Sec>, t: nat, f: Frame, p: Place,
                                      a: map<nat, int>, b: map<nat, int>, ids: set<nat>)
    requires Filed(e, secs) && t < |secs| && t !in ids && SameElsewhere(secs[t], a, b)
    ensures AgreeOn(e, ContextAt(f, p, a), ContextAt(f, p, b), ids)
    decreases e
  {
    match e
    case Num(_) =>
    case Sym(s) =>
      if s.Equate? {
        FiledAgree(s.def, secs, t, f, p, a, b, ids);
      } else if s.Label? {
        assert Owns(secs[t], s.name) ==> t == s.sec.id;
      }
    case Unary(_, x) => FiledAgree(x, secs, t, f, p, a, b, ids);
    case Binary(_, l, r) =>
      FiledAgree(l, secs, t, f, p, a, b, ids);
      FiledAgree(r, secs, t, f, p, a, b, ids);
  }

  /** A reading does not change when only labels of a section move that is not recorded. */
  lemma ReadingStays(e: Expr, secs: seq<Sec>, t: nat, f: Frame, p: Place,
                     a: map<nat, int>, b: map<nat, int>)
    requires Filed(e, secs) && t < |secs| && t != f.sec.id && SameElsewhere(secs[t], a, b)
    requires var c := ContextAt(f, p, a); Traced(e, c) && t !in Eval(e, c).deps
    ensures Read(e, ContextAt(f, p, b)) == Read(e, ContextAt(f, p, a))
  {
    var c, d := ContextAt(f, p, a), ContextAt(f, p, b);
    ShapeStays(e, c, d);
    if Near(Eval(e, c), FindBase(e, c), c) {
      FiledAgree(e, secs, t, f, p, a, b, Needs(Eval(e, c), FindBase(e, c), c));
      RecordedDependencies(e, c, d);
    }
  }

  lemma {:induction false} ReadingsStay(exprs: seq<Expr>, secs: seq<Sec>, t: nat, f: Frame, p: Place,
                                        a: map<nat, int>, b: map<nat, int>)
    requires t < |secs| && t != f.sec.id && SameElsewhere(secs[t], a, b)
    requires t !in Recorded(exprs, ContextAt(f, p, a))
    requires forall e :: e in exprs ==> Filed(e, secs) && Traced(e, ContextAt(f, p, a))
    ensures Readings(exprs, ContextAt(f, p, b)) == Readings(exprs, ContextAt(f, p, a))
    ensures Recorded(exprs, ContextAt(f, p, b)) == Recorded(exprs, ContextAt(f, p, a))
  {
    if exprs != [] {
      var e := exprs[|exprs| - 1];
      ReadingsStay(exprs[..|exprs| - 1], secs, t, f, p, a, b);
      ReadingStays(e, secs, t, f, p, a, b);
      ShapeStays(e, ContextAt(f, p, a), ContextAt(f, p, b));
    }
  }

  /** A size function that reads only near values of traced expressions depends on no section
      that it does not record. */
  lemma ReadersRecord(s: Sec, secs: seq<Sec>, f: Frame, exprs: Place -> seq<Expr>,
                      size: (Place, seq<Reading>) -> Sized)
    requires SizedByReading(s, f, exprs, size)
    requires forall p, a, e :: e in exprs(p) ==> Filed(e, secs) && Traced(e, ContextAt(f, p, a))
    ensures ReadsRecorded(s, secs)
  {
    forall p, a, b, t | 0 <= t < |secs| && t != s.id && t !in s.size(p, a).used && SameElsewhere(secs[t], a, b)
      ensures s.size(p, b) == s.size(p, a)
    {
      ReadingsStay(exprs(p), secs, t, f, p, a, b);
    }
  }
}
