/** The built-in linker: sections get ascending addresses, labels become absolute, and the
    relocation fields receive linked values. */
module Joining {
  import opened Bitfields
  import opened Bits
  import opened Expressions
  import opened Relocation
  import Layout

  datatype Range = Signed | Unsigned | Either

  datatype RelKind = Abs | Pc | Unsupported

  datatype Reloc = Reloc(kind: RelKind, range: Range, field: Field, addend: int, sym: Symbol)

  // ---------- overflow ----------

  /** `reloc_field_overflow`: bits beyond the field that do not repeat the sign. */
  predicate Overflow(range: Range, bits: nat, v: int) {
    match range
    case Signed => if v < 0 then bits > 0 && Halve(v, bits - 1) != -1 else bits > 0 && Halve(v, bits - 1) != 0
    case Unsigned => Halve(v, bits) != 0
    case Either => if v < 0 then bits > 0 && Halve(v, bits - 1) != -1 else Halve(v, bits) != 0
  }

  /** A field does not overflow exactly when the value is in the range that its sign allows. */
  lemma OverflowIsRange(range: Range, bits: nat, v: int)
    requires bits > 0
    ensures !Overflow(range, bits, v)
            <==> match range
                 case Signed => -Double(1, bits - 1) <= v < Double(1, bits - 1)
                 case Unsigned => 0 <= v < Double(1, bits)
                 case Either => -Double(1, bits - 1) <= v < Double(1, bits)
  {
    HalveIsZero(v, bits - 1);
    HalveIsZero(v, bits);
    HalveIsOnes(v, bits - 1);
  }

  // ---------- the value of a relocation ----------

  /** What is known when relocations are executed: label addresses and section origins, both new. */
  datatype Linkage = Linkage(labels: nat -> int, orgs: nat -> int)

  /** `get_sym_value` of a label, or of an import, which has none. */
  function SymValue(s: Symbol, l: Linkage): int {
    if s.Label? then l.labels(s.name) else 0
  }

  /** `nreloc_real_addend`: the addend without the offset of the label in its section. */
  function RealAddend(r: Reloc, l: Linkage): int {
    if r.sym.Label? then Wrap(r.addend - Wrap(l.labels(r.sym.name) - l.orgs(r.sym.sec.id))) else r.addend
  }

  /** What is written into the field of a relocation in an atom at address pc. */
  function PatchValue(r: Reloc, l: Linkage, pc: int): int {
    var v := SymValue(r.sym, l) + RealAddend(r, l);
    if r.kind.Pc? then Wrap(v - (pc + r.field.at)) else Wrap(v)
  }

  /** The relocation that is made for an expression e of an atom at the offset c.pc of its section.
      A pc-relative one is made either for a difference to the current section; then its addend
      makes up for the position of the field. Or it is made for the target of a branch, whose
      distance the processor takes from a place that many bytes past the begin of the field. */
  predicate MadeFor(r: Reloc, e: Expr, c: Ctx, past: int) {
    && Guarded(e, c) && !Eval(e, c).cnst && r.sym.Label? && !r.sym.weak && !Fixed(r.sym, c) && r.sym.sec.org == 0
    && match r.kind
       case Abs => FindBase(e, c) == Ok(r.sym) && r.addend == Eval(e, c).val
       case Pc => r.addend == Wrap(Eval(e, c).val + if IsTarget(r, e, c) then -past else r.field.at)
                  && (FindBase(e, c) == PcRel(r.sym) || FindBase(e, c) == Ok(r.sym))
       case Unsupported => false
  }

  /** The distance to e is wanted, not e. */
  predicate IsTarget(r: Reloc, e: Expr, c: Ctx) {
    r.kind.Pc? && FindBase(e, c).Ok?
  }

  /** The number that belongs into the field. */
  function FieldNumber(r: Reloc, e: Expr, c: Ctx, past: int, p: Placement): int {
    if IsTarget(r, e, c) then Wrap(Linked(e, c, p) - (c.pc + p.move(c.sec.id) + r.field.at + past)) else Linked(e, c, p)
  }

  /** The linkage puts the sections where the placement says. */
  predicate Places(l: Linkage, p: Placement, id: nat) {
    p.move(id) == l.orgs(id)
  }

  /** The label and the origin of its section cancel out. */
  lemma AddendValue(addend: int, sym: int, org: int, place: int)
    ensures Wrap(sym + Wrap(addend - Wrap(sym - org)) - place) == Wrap(addend + org - place)
  {
    var i := WrapRemoves(sym - org);
    var j := WrapRemoves(addend - Wrap(sym - org));
    WrapSame(sym + Wrap(addend - Wrap(sym - org)) - place, addend + org - place, j - i);
  }

  lemma InnerSum(x: int, k: int, d: int, y: int)
    requires y == Wrap(x + k)
    ensures Wrap(y + d) == Wrap(x + k + d)
  {
    WrapInner(x + k, d);
  }

  /** The value written is the number that belongs into the field. */
  lemma PatchIsLinked(r: Reloc, e: Expr, c: Ctx, past: int, l: Linkage, p: Placement)
    requires MadeFor(r, e, c, past) && Places(l, p, r.sym.sec.id) && Places(l, p, c.sec.id)
    ensures PatchValue(r, l, c.pc + l.orgs(c.sec.id)) == FieldNumber(r, e, c, past, p)
  {
    var val, org, pc := Eval(e, c).val, l.orgs(r.sym.sec.id), c.pc + l.orgs(c.sec.id);
    PatchSum(r, l, pc);
    assert Displacement(r.sym, c, p) == BaseAddress(r.sym, c, p) == org;
    if r.kind.Abs? {
      BaseRelocates(e, c, p);
    } else if IsTarget(r, e, c) {
      BaseRelocates(e, c, p);
      InnerSum(val, -past, org - (pc + r.field.at), r.addend);
      InnerSum(val, org, -(pc + r.field.at + past), Linked(e, c, p));
    } else {
      PcRelativeRelocates(e, c, p);
      InnerSum(val, r.field.at, org - (pc + r.field.at), r.addend);
    }
  }

  lemma PatchSum(r: Reloc, l: Linkage, pc: int)
    requires r.sym.Label?
    ensures PatchValue(r, l, pc) == Wrap(r.addend + l.orgs(r.sym.sec.id) - if r.kind.Pc? then pc + r.field.at else 0)
  {
    AddendValue(r.addend, l.labels(r.sym.name), l.orgs(r.sym.sec.id), if r.kind.Pc? then pc + r.field.at else 0);
  }

  // ---------- patching ----------

  /** The fields lie within so many bytes. */
  predicate Inside(size: nat, relocs: seq<Reloc>) {
    forall k :: 0 <= k < |relocs| ==> relocs[k].field.at + Span(relocs[k].field) <= size && Span(relocs[k].field) <= 8
  }

  /** A relocation that cannot be executed leaves its field alone. */
  predicate Executed(r: Reloc, l: Linkage, pc: int) {
    !r.kind.Unsupported? && !Overflow(r.range, r.field.size, PatchValue(r, l, pc))
  }

  /** The bytes of an atom after its first n relocations. */
  function PatchedBytes(be: bool, m: seq<Byte>, relocs: seq<Reloc>, n: nat, l: Linkage, pc: int): (r: seq<Byte>)
    requires n <= |relocs| && Inside(|m|, relocs)
    ensures |r| == |m|
  {
    if n == 0 then m
    else
      var was := PatchedBytes(be, m, relocs, n - 1, l, pc);
      var r := relocs[n - 1];
      if Executed(r, l, pc) then WithField(be, was, r.field, PatchValue(r, l, pc)) else was
  }

  /** Errors reported: unsupported kinds, undefined symbols, overflows. */
  function Faults(relocs: seq<Reloc>, n: nat, l: Linkage, pc: int): nat
    requires n <= |relocs|
  {
    if n == 0 then 0
    else
      var r := relocs[n - 1];
      Faults(relocs, n - 1, l, pc) + (if Executed(r, l, pc) then 0 else 1)
                                   + (if !r.kind.Unsupported? && ExtRef(r.sym) then 1 else 0)
  }

  /** Executing the relocations of one atom. */
  method PatchAtom(be: bool, m: array<Byte>, relocs: seq<Reloc>, l: Linkage, pc: int) returns (errors: nat)
    requires Inside(m.Length, relocs)
    modifies m
    ensures m[..] == PatchedBytes(be, old(m[..]), relocs, |relocs|, l, pc) && errors == Faults(relocs, |relocs|, l, pc)
  {
    errors := 0;
    var k := 0;
    while k < |relocs|
      invariant k <= |relocs|
      invariant m[..] == PatchedBytes(be, old(m[..]), relocs, k, l, pc) && errors == Faults(relocs, k, l, pc)
    {
      var r := relocs[k];
      if r.kind.Unsupported? {
        errors := errors + 1;
      } else {
        if ExtRef(r.sym) {
          errors := errors + 1;
        }
        var v := PatchValue(r, l, pc);
        if Overflow(r.range, r.field.size, v) {
          errors := errors + 1;
        } else {
          SetBits(be, m, r.field, v);
        }
      }
      k := k + 1;
    }
  }

  /** No two fields share a bit. */
  ghost predicate Disjoint(be: bool, relocs: seq<Reloc>) {
    forall j, k :: 0 <= j < k < |relocs| ==> Apart(be, relocs[j].field, relocs[k].field)
  }

  predicate InSome(be: bool, relocs: seq<Reloc>, n: nat, i: nat, j: nat)
    requires n <= |relocs|
  {
    exists k :: 0 <= k < n && InField(be, relocs[k].field, i, j)
  }

  lemma {:induction false} PatchedFields(be: bool, m: seq<Byte>, relocs: seq<Reloc>, n: nat, l: Linkage, pc: int,
                                         k: nat)
    requires k < n <= |relocs| && Inside(|m|, relocs) && Disjoint(be, relocs) && Faults(relocs, n, l, pc) == 0
    ensures Holds(be, PatchedBytes(be, m, relocs, n, l, pc), relocs[k].field, PatchValue(relocs[k], l, pc))
    decreases n
  {
    var was, r := PatchedBytes(be, m, relocs, n - 1, l, pc), relocs[n - 1];
    FieldWritten(be, was, r.field, PatchValue(r, l, pc));
    if k < n - 1 {
      PatchedFields(be, m, relocs, n - 1, l, pc, k);
      HoldsStill(be, was, WithField(be, was, r.field, PatchValue(r, l, pc)), relocs[k].field, r.field,
                 PatchValue(relocs[k], l, pc));
    }
  }

  lemma {:induction false} PatchedElsewhere(be: bool, m: seq<Byte>, relocs: seq<Reloc>, n: nat, l: Linkage, pc: int,
                                            i: nat, j: nat)
    requires n <= |relocs| && Inside(|m|, relocs) && i < |m| && j < 8 && !InSome(be, relocs, n, i, j)
    ensures BitOf(PatchedBytes(be, m, relocs, n, l, pc)[i], j) == BitOf(m[i], j)
    decreases n
  {
    if n > 0 {
      PatchedElsewhere(be, m, relocs, n - 1, l, pc, i, j);
      var was, r := PatchedBytes(be, m, relocs, n - 1, l, pc), relocs[n - 1];
      FieldWritten(be, was, r.field, PatchValue(r, l, pc));
    }
  }

  // ---------- sections ----------

  /** An atom at link time: its bytes with relocations. */
  datatype Piece = Piece(align: nat, bytes: array<Byte>, relocs: seq<Reloc>)

  function PieceStart(align: nat, pc: int): int {
    Wrap(pc + Layout.Padding(pc, align))
  }

  /** The address of piece i in a section that begins at org. */
  function PieceAt(pieces: seq<Piece>, org: int, i: nat): int
    requires i < |pieces|
  {
    PieceStart(pieces[i].align, if i == 0 then org else Wrap(PieceAt(pieces, org, i - 1) + pieces[i - 1].bytes.Length))
  }

  /** No atom asks for alignment. */
  predicate Unaligned(pieces: seq<Piece>) {
    forall i :: 0 <= i < |pieces| ==> pieces[i].align <= 1
  }

  lemma {:induction false} RestOfOne(x: int)
    ensures Layout.Rest(x, 1) == 0
    decreases AbsOf(x)
  {
    if x >= 1 {
      RestOfOne(x - 1);
    } else if x <= -1 {
      RestOfOne(x + 1);
    }
  }

  lemma StartUnaligned(align: nat, pc: int)
    requires align <= 1
    ensures PieceStart(align, pc) == Wrap(pc)
  {
    RestOfOne(pc);
  }

  function Previous(pieces: seq<Piece>, org: int, i: nat): int
    requires i < |pieces|
  {
    if i == 0 then org else Wrap(PieceAt(pieces, org, i - 1) + pieces[i - 1].bytes.Length)
  }

  /** Addresses without any padding. */
  function Packed(pieces: seq<Piece>, org: int, i: nat): int
    requires i < |pieces|
  {
    if i == 0 then Wrap(org) else Wrap(Wrap(Packed(pieces, org, i - 1) + pieces[i - 1].bytes.Length))
  }

  lemma {:induction false} PieceIsPacked(pieces: seq<Piece>, org: int, i: nat)
    requires i < |pieces| && Unaligned(pieces)
    ensures PieceAt(pieces, org, i) == Packed(pieces, org, i)
  {
    StartUnaligned(pieces[i].align, Previous(pieces, org, i));
    if i > 0 {
      PieceIsPacked(pieces, org, i - 1);
    }
  }

  lemma {:induction false} PackedMoves(pieces: seq<Piece>, org: int, i: nat)
    requires i < |pieces|
    ensures Packed(pieces, org, i) == Wrap(Packed(pieces, 0, i) + org)
  {
    if i == 0 {
      WrapInner(0, org);
    } else {
      PackedMoves(pieces, org, i - 1);
      MovesOn(Packed(pieces, 0, i - 1), Packed(pieces, org, i - 1), pieces[i - 1].bytes.Length, org);
    }
  }

  lemma MovesOn(x: int, x': int, size: nat, org: int)
    requires x' == Wrap(x + org)
    ensures Wrap(Wrap(x' + size)) == Wrap(Wrap(Wrap(x + size)) + org)
  {
    MoveLeft(x, size, org);
    WrapTwice(x + size);
    WrapTwice(x' + size);
  }

  lemma WrapTwice(x: int)
    ensures Wrap(Wrap(x)) == Wrap(x)
  {}

  /** Without alignment, a section moves as a whole. */
  lemma PieceMoves(pieces: seq<Piece>, org: int, i: nat)
    requires i < |pieces| && Unaligned(pieces)
    ensures PieceAt(pieces, org, i) == Wrap(PieceAt(pieces, 0, i) + org)
  {
    PieceIsPacked(pieces, org, i);
    PieceIsPacked(pieces, 0, i);
    PackedMoves(pieces, org, i);
  }

  predicate Linkable(pieces: seq<Piece>) {
    forall i :: 0 <= i < |pieces| ==> Inside(pieces[i].bytes.Length, pieces[i].relocs)
  }

  function Memory(pieces: seq<Piece>): set<object> {
    set i | 0 <= i < |pieces| :: pieces[i].bytes
  }

  ghost predicate OwnMemory(pieces: seq<Piece>) {
    forall i, j :: 0 <= i < j < |pieces| ==> pieces[i].bytes != pieces[j].bytes
  }

  /** What linking makes of piece i, which was the given bytes. */
  function LinkedBytes(be: bool, was: seq<Byte>, pieces: seq<Piece>, l: Linkage, org: int, i: nat): seq<Byte>
    requires i < |pieces| && Linkable(pieces) && |was| == pieces[i].bytes.Length
  {
    PatchedBytes(be, was, pieces[i].relocs, |pieces[i].relocs|, l, PieceAt(pieces, org, i))
  }

  function FaultsTo(pieces: seq<Piece>, l: Linkage, org: int, n: nat): nat
    requires n <= |pieces|
  {
    if n == 0 then 0
    else FaultsTo(pieces, l, org, n - 1)
         + Faults(pieces[n - 1].relocs, |pieces[n - 1].relocs|, l, PieceAt(pieces, org, n - 1))
  }

  /** The bytes of the first n pieces are linked. */
  predicate AllLinked(be: bool, was: seq<seq<Byte>>, now: seq<seq<Byte>>, pieces: seq<Piece>, l: Linkage, org: int,
                      n: nat)
    requires n <= |pieces| == |was| == |now| && Linkable(pieces)
  {
    n == 0 || (&& AllLinked(be, was, now, pieces, l, org, n - 1)
               && |was[n - 1]| == pieces[n - 1].bytes.Length
               && now[n - 1] == LinkedBytes(be, was[n - 1], pieces, l, org, n - 1))
  }

  lemma {:induction false} AllLinkedDepends(be: bool, was: seq<seq<Byte>>, now: seq<seq<Byte>>, other: seq<seq<Byte>>,
                                            pieces: seq<Piece>, l: Linkage, org: int, n: nat)
    requires n <= |pieces| == |was| == |now| == |other| && Linkable(pieces)
    requires AllLinked(be, was, now, pieces, l, org, n) && forall j :: 0 <= j < n ==> other[j] == now[j]
    ensures AllLinked(be, was, other, pieces, l, org, n)
  {
    if n > 0 {
      AllLinkedDepends(be, was, now, other, pieces, l, org, n - 1);
    }
  }

  lemma {:induction false} LinkedAt(be: bool, was: seq<seq<Byte>>, now: seq<seq<Byte>>, pieces: seq<Piece>, l: Linkage,
                                    org: int, n: nat, i: nat)
    requires i < n <= |pieces| == |was| == |now| && Linkable(pieces) && AllLinked(be, was, now, pieces, l, org, n)
    ensures |was[i]| == pieces[i].bytes.Length && now[i] == LinkedBytes(be, was[i], pieces, l, org, i)
    decreases n
  {
    if i < n - 1 {
      LinkedAt(be, was, now, pieces, l, org, n - 1, i);
    }
  }

  ghost function Image(pieces: seq<Piece>): (m: seq<seq<Byte>>)
    reads Memory(pieces)
    ensures |m| == |pieces| && forall i :: 0 <= i < |pieces| ==> m[i] == pieces[i].bytes[..]
  {
    seq(|pieces|, i requires 0 <= i < |pieces| reads Memory(pieces) => pieces[i].bytes[..])
  }

  /** Executing the relocations of piece i. */
  method PatchPiece(be: bool, pieces: seq<Piece>, l: Linkage, org: int, i: nat, pc: int)
    returns (errors: nat, next: int)
    requires Linkable(pieces) && i < |pieces| && pc == Previous(pieces, org, i)
    modifies pieces[i].bytes
    ensures errors == Faults(pieces[i].relocs, |pieces[i].relocs|, l, PieceAt(pieces, org, i))
    ensures pieces[i].bytes[..] == LinkedBytes(be, old(pieces[i].bytes[..]), pieces, l, org, i)
    ensures next == Wrap(PieceAt(pieces, org, i) + pieces[i].bytes.Length)
  {
    var at := PieceStart(pieces[i].align, pc);
    errors := PatchAtom(be, pieces[i].bytes, pieces[i].relocs, l, at);
    next := Wrap(at + pieces[i].bytes.Length);
  }

  /** The first i pieces are linked, the others as before; pc is where piece i may begin. */
  ghost predicate Patching(be: bool, was: seq<seq<Byte>>, pieces: seq<Piece>, l: Linkage, org: int, i: nat, pc: int,
                           errors: nat)
    requires Linkable(pieces) && i <= |pieces|
    reads Memory(pieces)
  {
    && |was| == |pieces| && (i < |pieces| ==> pc == Previous(pieces, org, i))
    && errors == FaultsTo(pieces, l, org, i) && AllLinked(be, was, Image(pieces), pieces, l, org, i)
    && forall j :: i <= j < |pieces| ==> was[j] == pieces[j].bytes[..]
  }

  method PatchNext(be: bool, pieces: seq<Piece>, l: Linkage, org: int, i: nat, pc: int, errors: nat,
                   ghost was: seq<seq<Byte>>)
    returns (next: int, sum: nat)
    requires Linkable(pieces) && OwnMemory(pieces) && i < |pieces| && Patching(be, was, pieces, l, org, i, pc, errors)
    modifies pieces[i].bytes
    ensures Patching(be, was, pieces, l, org, i + 1, next, sum)
  {
    ghost var before := Image(pieces);
    var bad;
    bad, next := PatchPiece(be, pieces, l, org, i, pc);
    sum := errors + bad;
    AllLinkedDepends(be, was, before, Image(pieces), pieces, l, org, i);
  }

  /** PatchNext in the frame of the loop. */
  method PatchStep(be: bool, pieces: seq<Piece>, l: Linkage, org: int, i: nat, pc: int, errors: nat,
                   ghost was: seq<seq<Byte>>)
    returns (next: int, sum: nat)
    requires Linkable(pieces) && OwnMemory(pieces) && i < |pieces| && Patching(be, was, pieces, l, org, i, pc, errors)
    modifies Memory(pieces)
    ensures Patching(be, was, pieces, l, org, i + 1, next, sum)
  {
    next, sum := PatchNext(be, pieces, l, org, i, pc, errors, was);
  }

  lemma PatchingBegins(be: bool, was: seq<seq<Byte>>, pieces: seq<Piece>, l: Linkage, org: int)
    requires Linkable(pieces) && was == Image(pieces)
    ensures Patching(be, was, pieces, l, org, 0, org, 0)
  {}

  method PatchAll(be: bool, pieces: seq<Piece>, l: Linkage, org: int, ghost was: seq<seq<Byte>>)
    returns (errors: nat, pc: int)
    requires Linkable(pieces) && OwnMemory(pieces) && Patching(be, was, pieces, l, org, 0, org, 0)
    modifies Memory(pieces)
    ensures Patching(be, was, pieces, l, org, |pieces|, pc, errors)
  {
    errors, pc := 0, org;
    for i := 0 to |pieces|
      invariant Patching(be, was, pieces, l, org, i, pc, errors)
    {
      pc, errors := PatchStep(be, pieces, l, org, i, pc, errors, was);
    }
  }

  /** Executing the relocations of a section. */
  method PatchPieces(be: bool, pieces: seq<Piece>, l: Linkage, org: int, ghost was: seq<seq<Byte>>)
    returns (errors: nat, pc: int)
    requires Linkable(pieces) && OwnMemory(pieces) && was == Image(pieces)
    modifies Memory(pieces)
    ensures errors == FaultsTo(pieces, l, org, |pieces|)
    ensures AllLinked(be, was, Image(pieces), pieces, l, org, |pieces|)
  {
    PatchingBegins(be, was, pieces, l, org);
    errors, pc := PatchAll(be, pieces, l, org, was);
  }

  lemma PatchWrapped(r: Reloc, l: Linkage, pc: int)
    ensures PatchValue(r, l, Wrap(pc)) == PatchValue(r, l, pc)
  {
    if r.kind.Pc? {
      var v := SymValue(r.sym, l) + RealAddend(r, l);
      var k := WrapRemoves(pc);
      WrapSame(v - (Wrap(pc) + r.field.at), v - (pc + r.field.at), -k);
    }
  }

  lemma LinkedValue(pieces: seq<Piece>, l: Linkage, i: nat, j: nat,
                    e: Expr, c: Ctx, past: int, p: Placement)
    requires Unaligned(pieces) && i < |pieces| && j < |pieces[i].relocs| && MadeFor(pieces[i].relocs[j], e, c, past)
    requires c.pc == PieceAt(pieces, 0, i)
    requires Places(l, p, pieces[i].relocs[j].sym.sec.id) && Places(l, p, c.sec.id)
    ensures PatchValue(pieces[i].relocs[j], l, PieceAt(pieces, l.orgs(c.sec.id), i))
            == FieldNumber(pieces[i].relocs[j], e, c, past, p)
  {
    PieceMoves(pieces, l.orgs(c.sec.id), i);
    PatchedAt(pieces[i].relocs[j], e, c, past, l, p, PieceAt(pieces, l.orgs(c.sec.id), i));
  }

  lemma PatchedAt(r: Reloc, e: Expr, c: Ctx, past: int, l: Linkage, p: Placement, at: int)
    requires MadeFor(r, e, c, past) && Places(l, p, r.sym.sec.id) && Places(l, p, c.sec.id)
    requires at == Wrap(c.pc + l.orgs(c.sec.id))
    ensures PatchValue(r, l, at) == FieldNumber(r, e, c, past, p)
  {
    PatchWrapped(r, l, c.pc + l.orgs(c.sec.id));
    PatchIsLinked(r, e, c, past, l, p);
  }

  /** Linking is correct: without errors, a field whose relocation was made for an expression
      holds the linked value of that expression, or the distance to it, cut to its size. */
  lemma LinkedField(be: bool, was: seq<Byte>, pieces: seq<Piece>, l: Linkage, i: nat, j: nat,
                    e: Expr, c: Ctx, past: int, p: Placement)
    requires Linkable(pieces) && Unaligned(pieces) && i < |pieces| && |was| == pieces[i].bytes.Length
    requires Disjoint(be, pieces[i].relocs) && FaultsTo(pieces, l, l.orgs(c.sec.id), |pieces|) == 0
    requires j < |pieces[i].relocs| && MadeFor(pieces[i].relocs[j], e, c, past) && c.pc == PieceAt(pieces, 0, i)
    requires Places(l, p, pieces[i].relocs[j].sym.sec.id) && Places(l, p, c.sec.id)
    ensures Holds(be, LinkedBytes(be, was, pieces, l, l.orgs(c.sec.id), i), pieces[i].relocs[j].field,
                  FieldNumber(pieces[i].relocs[j], e, c, past, p))
    ensures !Overflow(pieces[i].relocs[j].range, pieces[i].relocs[j].field.size,
                      FieldNumber(pieces[i].relocs[j], e, c, past, p))
  {
    LinkedValue(pieces, l, i, j, e, c, past, p);
    NoFaults(pieces, l, l.orgs(c.sec.id), |pieces|, i);
    NoFault(pieces[i].relocs, |pieces[i].relocs|, l, PieceAt(pieces, l.orgs(c.sec.id), i), j);
    PatchedFields(be, was, pieces[i].relocs, |pieces[i].relocs|, l, PieceAt(pieces, l.orgs(c.sec.id), i), j);
  }

  lemma {:induction false} NoFaults(pieces: seq<Piece>, l: Linkage, org: int, n: nat, i: nat)
    requires i < n <= |pieces| && FaultsTo(pieces, l, org, n) == 0
    ensures Faults(pieces[i].relocs, |pieces[i].relocs|, l, PieceAt(pieces, org, i)) == 0
    decreases n
  {
    if i < n - 1 {
      NoFaults(pieces, l, org, n - 1, i);
    }
  }

  lemma {:induction false} NoFault(relocs: seq<Reloc>, n: nat, l: Linkage, pc: int, j: nat)
    requires j < n <= |relocs| && Faults(relocs, n, l, pc) == 0
    ensures Executed(relocs[j], l, pc)
    decreases n
  {
    if j < n - 1 {
      NoFault(relocs, n - 1, l, pc, j);
    }
  }

  /** All bits outside the fields are as they were, errors or not. */
  lemma OtherBitsStay(be: bool, was: seq<Byte>, pieces: seq<Piece>, l: Linkage, org: int, i: nat, b: nat, j: nat)
    requires Linkable(pieces) && i < |pieces| && b < |was| == pieces[i].bytes.Length && j < 8
    requires !InSome(be, pieces[i].relocs, |pieces[i].relocs|, b, j)
    ensures BitOf(LinkedBytes(be, was, pieces, l, org, i)[b], j) == BitOf(was[b], j)
  {
    PatchedElsewhere(be, was, pieces[i].relocs, |pieces[i].relocs|, l, PieceAt(pieces, org, i), b, j);
  }

  // ---------- origins ----------

  function Total(pieces: seq<Piece>): nat {
    if pieces == [] then 0 else Total(pieces[..|pieces| - 1]) + pieces[|pieces| - 1].bytes.Length
  }

  /** A section at link time. */
  class Part {
    const id: nat
    const align: nat
    const pieces: seq<Piece>
    var org: int
    var pc: int
    var absolute: bool

    constructor (id: nat, align: nat, pieces: seq<Piece>, org: int, absolute: bool)
      ensures this.id == id && this.align == align && this.pieces == pieces && this.org == org
              && this.absolute == absolute
    {
      this.id, this.align, this.pieces, this.org, pc, this.absolute := id, align, pieces, org, org, absolute;
    }

    /** Takes the section to the next aligned address. */
    method Settle(at: int) returns (next: int)
      modifies this`org, this`pc
      ensures org == PieceStart(align, at) && next == pc == Wrap(org + Total(pieces))
    {
      org := PieceStart(align, at);
      var n := 0;
      for i := 0 to |pieces|
        invariant n == Total(pieces[..i])
      {
        assert pieces[..i + 1][..i] == pieces[..i];
        n := n + pieces[i].bytes.Length;
      }
      assert pieces[..|pieces|] == pieces;
      pc := Wrap(org + n);
      next := pc;
    }
  }

  /** What the addresses of the sections depend on. */
  datatype Lot = Lot(align: nat, size: nat, fixed: bool)

  function LotOf(p: Part): Lot
    reads p`absolute
  {
    Lot(p.align, Total(p.pieces), p.absolute)
  }

  /** The address reached in front of section k. */
  function Cursor(lots: seq<Lot>, start: int, k: nat): int
    requires k <= |lots|
    decreases k, 0
  {
    if k == 0 then start
    else if lots[k - 1].fixed then Cursor(lots, start, k - 1)
    else Wrap(Origin(lots, start, k - 1) + lots[k - 1].size)
  }

  function Origin(lots: seq<Lot>, start: int, k: nat): int
    requires k < |lots|
    decreases k, 1
  {
    PieceStart(lots[k].align, Cursor(lots, start, k))
  }

  /** An address as an unsigned number. */
  function Unsigned(x: int): int {
    if x < 0 then x + TADDR else x
  }

  lemma UnsignedSum(x: int, d: int)
    requires -TADDR / 2 <= x < TADDR / 2 && 0 <= d && Unsigned(x) + d < TADDR
    ensures Unsigned(Wrap(x + d)) == Unsigned(x) + d
  {}

  /** The sections up to k fit into the address space. */
  predicate Fit(lots: seq<Lot>, start: int, k: nat)
    requires k <= |lots|
  {
    if k == 0 then -TADDR / 2 <= start < TADDR / 2
    else
      var at := Cursor(lots, start, k - 1);
      Fit(lots, start, k - 1)
      && (lots[k - 1].fixed || Unsigned(at) + Layout.Padding(at, lots[k - 1].align) + lots[k - 1].size < TADDR)
  }

  lemma {:induction false} CursorRises(lots: seq<Lot>, start: int, j: nat, k: nat)
    requires j <= k <= |lots| && Fit(lots, start, k)
    ensures Unsigned(Cursor(lots, start, j)) <= Unsigned(Cursor(lots, start, k))
    decreases k
  {
    if j < k {
      CursorRises(lots, start, j, k - 1);
      if !lots[k - 1].fixed {
        PlainOrigin(lots, start, k - 1, k);
      }
    }
  }

  lemma {:induction false} CursorSigned(lots: seq<Lot>, start: int, k: nat)
    requires k <= |lots| && Fit(lots, start, k)
    ensures -TADDR / 2 <= Cursor(lots, start, k) < TADDR / 2
    decreases k
  {
    if k > 0 {
      CursorSigned(lots, start, k - 1);
    }
  }

  /** Origins and ends that fit lie behind the cursor, without going around the address space. */
  lemma PlainOrigin(lots: seq<Lot>, start: int, k: nat, n: nat)
    requires k < n <= |lots| && Fit(lots, start, n) && !lots[k].fixed
    ensures var at := Cursor(lots, start, k);
            && 0 <= Layout.Padding(at, lots[k].align)
            && Unsigned(Origin(lots, start, k)) == Unsigned(at) + Layout.Padding(at, lots[k].align)
            && Unsigned(Cursor(lots, start, k + 1)) == Unsigned(Origin(lots, start, k)) + lots[k].size < TADDR
  {
    var at := Cursor(lots, start, k);
    FitAt(lots, start, k, n);
    NextCursor(lots, start, k, at);
    PlainSteps(at, lots[k].align, lots[k].size);
  }

  lemma FitAt(lots: seq<Lot>, start: int, k: nat, n: nat)
    requires k < n <= |lots| && Fit(lots, start, n) && !lots[k].fixed
    ensures var at := Cursor(lots, start, k);
            && -TADDR / 2 <= at < TADDR / 2 && 0 <= Layout.Padding(at, lots[k].align)
            && Unsigned(at) + Layout.Padding(at, lots[k].align) + lots[k].size < TADDR
  {
    FitBefore(lots, start, k + 1, n);
    CursorSigned(lots, start, k);
    Layout.PaddingAligns(Cursor(lots, start, k), lots[k].align);
  }

  lemma PlainSteps(at: int, align: nat, size: nat)
    requires -TADDR / 2 <= at < TADDR / 2 && 0 <= Layout.Padding(at, align)
    requires Unsigned(at) + Layout.Padding(at, align) + size < TADDR
    ensures Unsigned(PieceStart(align, at)) == Unsigned(at) + Layout.Padding(at, align)
    ensures Unsigned(Wrap(PieceStart(align, at) + size)) == Unsigned(PieceStart(align, at)) + size
  {
    var gap := Layout.Padding(at, align);
    UnsignedSum(at, gap);
    UnsignedSum(Wrap(at + gap), size);
  }

  /** Origins are aligned (modulo 2^32), and so far apart as the sizes without padding inside need. */
  lemma {:induction false} OriginsApart(lots: seq<Lot>, start: int, j: nat, k: nat)
    requires j < k < |lots| && Fit(lots, start, |lots|) && !lots[j].fixed && !lots[k].fixed
    ensures Unsigned(Origin(lots, start, j)) + lots[j].size <= Unsigned(Origin(lots, start, k))
    ensures AlignedTo(Origin(lots, start, k), lots[k].align)
  {
    PlainOrigin(lots, start, j, |lots|);
    PlainOrigin(lots, start, k, |lots|);
    FitBefore(lots, start, k, |lots|);
    CursorRises(lots, start, j + 1, k);
    OriginAligned(Cursor(lots, start, k), lots[k].align);
  }

  /** x stands for a multiple of n modulo 2^32. */
  ghost predicate AlignedTo(x: int, n: nat) {
    exists y :: Layout.MultipleOf(y, n) && Wrap(y) == x
  }

  lemma OriginAligned(at: int, align: nat)
    ensures AlignedTo(PieceStart(align, at), align)
  {
    Layout.PaddingAligns(at, align);
  }

  lemma {:induction false} FitBefore(lots: seq<Lot>, start: int, j: nat, k: nat)
    requires j <= k <= |lots| && Fit(lots, start, k)
    ensures Fit(lots, start, j)
    decreases k
  {
    if j < k {
      FitBefore(lots, start, j, k - 1);
    }
  }

  ghost function Lots(parts: seq<Part>): (l: seq<Lot>)
    reads parts
    ensures |l| == |parts| && forall k :: 0 <= k < |parts| ==> l[k] == LotOf(parts[k])
  {
    seq(|parts|, k requires 0 <= k < |parts| reads parts => LotOf(parts[k]))
  }

  ghost function Orgs(parts: seq<Part>): (o: seq<int>)
    reads parts
    ensures |o| == |parts| && forall k :: 0 <= k < |parts| ==> o[k] == parts[k].org
  {
    seq(|parts|, k requires 0 <= k < |parts| reads parts => parts[k].org)
  }

  /** The first n sections have got their origins, unless they had one before. */
  predicate Assigned(lots: seq<Lot>, start: int, was: seq<int>, now: seq<int>, n: nat)
    requires n <= |lots| == |was| == |now|
  {
    n == 0 || (Assigned(lots, start, was, now, n - 1)
               && now[n - 1] == if lots[n - 1].fixed then was[n - 1] else Origin(lots, start, n - 1))
  }

  lemma {:induction false} AssignedDepends(lots: seq<Lot>, start: int, was: seq<int>, now: seq<int>, other: seq<int>,
                                           n: nat)
    requires n <= |lots| == |was| == |now| == |other| && Assigned(lots, start, was, now, n)
    requires forall j :: 0 <= j < n ==> other[j] == now[j]
    ensures Assigned(lots, start, was, other, n)
  {
    if n > 0 {
      AssignedDepends(lots, start, was, now, other, n - 1);
    }
  }

  lemma {:induction false} AssignedAt(lots: seq<Lot>, start: int, was: seq<int>, now: seq<int>, n: nat, k: nat)
    requires k < n <= |lots| == |was| == |now| && Assigned(lots, start, was, now, n)
    ensures now[k] == if lots[k].fixed then was[k] else Origin(lots, start, k)
    decreases n
  {
    if k < n - 1 {
      AssignedAt(lots, start, was, now, n - 1, k);
    }
  }

  ghost predicate DistinctParts(parts: seq<Part>) {
    forall j, k :: 0 <= j < k < |parts| ==> parts[j] != parts[k]
  }

  /** One section gets its origin, the others keep theirs. */
  method SettlePart(parts: seq<Part>, i: nat, at: int) returns (next: int)
    requires DistinctParts(parts) && i < |parts|
    modifies parts[i]
    ensures Lots(parts) == old(Lots(parts))
    ensures Orgs(parts) == old(Orgs(parts))[i := if parts[i].absolute then old(parts[i].org)
                                            else PieceStart(parts[i].align, at)]
    ensures next == if parts[i].absolute then at else Wrap(PieceStart(parts[i].align, at) + Total(parts[i].pieces))
  {
    ghost var orgs, lots := Orgs(parts), Lots(parts);
    next := at;
    if !parts[i].absolute {
      next := parts[i].Settle(at);
    }
    assert forall k :: 0 <= k < |parts| && k != i ==> parts[k].org == orgs[k] && LotOf(parts[k]) == lots[k];
    assert Orgs(parts) == orgs[i := parts[i].org];
    assert Lots(parts) == lots;
  }

  lemma AssignedNext(lots: seq<Lot>, start: int, was: seq<int>, now: seq<int>, i: nat, org: int)
    requires i < |lots| == |was| == |now| && Assigned(lots, start, was, now, i)
    requires org == if lots[i].fixed then was[i] else Origin(lots, start, i)
    ensures Assigned(lots, start, was, now[i := org], i + 1)
  {
    AssignedDepends(lots, start, was, now, now[i := org], i);
  }

  lemma NextCursor(lots: seq<Lot>, start: int, i: nat, at: int)
    requires i < |lots| && at == Cursor(lots, start, i)
    ensures Origin(lots, start, i) == PieceStart(lots[i].align, at)
    ensures Cursor(lots, start, i + 1)
            == if lots[i].fixed then at else Wrap(PieceStart(lots[i].align, at) + lots[i].size)
  {}

  /** The first i sections have their origins, and at is the address reached. */
  ghost predicate Assigning(parts: seq<Part>, lots: seq<Lot>, start: int, was: seq<int>, i: nat, at: int)
    reads parts
  {
    && i <= |parts| == |was| && lots == Lots(parts) && at == Cursor(lots, start, i)
    && Assigned(lots, start, was, Orgs(parts), i) && forall k :: i <= k < |parts| ==> parts[k].org == was[k]
  }

  method AssignNext(parts: seq<Part>, i: nat, at: int, ghost lots: seq<Lot>, start: int, ghost was: seq<int>)
    returns (next: int)
    requires DistinctParts(parts) && i < |parts| && Assigning(parts, lots, start, was, i, at)
    modifies parts[i]
    ensures Assigning(parts, lots, start, was, i + 1, next)
  {
    ghost var now := Orgs(parts);
    assert lots[i] == LotOf(parts[i]);
    NextCursor(lots, start, i, at);
    next := SettlePart(parts, i, at);
    ghost var org := if lots[i].fixed then was[i] else PieceStart(lots[i].align, at);
    AssignedNext(lots, start, was, now, i, org);
    assert Orgs(parts) == now[i := org];
  }

  /** AssignNext in the frame of the loop. */
  method AssignStep(parts: seq<Part>, i: nat, at: int, ghost lots: seq<Lot>, start: int, ghost was: seq<int>)
    returns (next: int)
    requires DistinctParts(parts) && i < |parts| && Assigning(parts, lots, start, was, i, at)
    modifies parts
    ensures Assigning(parts, lots, start, was, i + 1, next)
  {
    next := AssignNext(parts, i, at, lots, start, was);
  }

  lemma AssigningBegins(parts: seq<Part>, lots: seq<Lot>, start: int)
    requires lots == Lots(parts)
    ensures Assigning(parts, lots, start, Orgs(parts), 0, start)
  {}

  lemma AssigningEnds(parts: seq<Part>, lots: seq<Lot>, start: int, was: seq<int>, at: int)
    requires Assigning(parts, lots, start, was, |parts|, at)
    ensures |was| == |lots| == |parts| && lots == Lots(parts) && Assigned(lots, start, was, Orgs(parts), |parts|)
  {}

  method AssignAll(parts: seq<Part>, ghost lots: seq<Lot>, start: int, ghost was: seq<int>) returns (at: int)
    requires DistinctParts(parts) && Assigning(parts, lots, start, was, 0, start)
    modifies parts
    ensures Assigning(parts, lots, start, was, |parts|, at)
  {
    at := start;
    for i := 0 to |parts|
      invariant Assigning(parts, lots, start, was, i, at)
    {
      at := AssignStep(parts, i, at, lots, start, was);
    }
  }

  /** The first phase: addresses for the sections that have none. */
  method AssignOrigins(parts: seq<Part>, ghost lots: seq<Lot>, start: int)
    requires DistinctParts(parts) && lots == Lots(parts)
    modifies parts
    ensures Assigned(lots, start, old(Orgs(parts)), Orgs(parts), |parts|) && lots == Lots(parts)
  {
    ghost var was := Orgs(parts);
    AssigningBegins(parts, lots, start);
    var at := AssignAll(parts, lots, start, was);
    AssigningEnds(parts, lots, start, was, at);
  }

  // ---------- what a section really spans ----------

  /** The padding in front of the first n pieces, which the size of the section leaves out. */
  function Gaps(pieces: seq<Piece>, org: int, n: nat): int
    requires n <= |pieces|
  {
    if n == 0 then 0 else Gaps(pieces, org, n - 1) + Layout.Padding(Previous(pieces, org, n - 1), pieces[n - 1].align)
  }

  /** The bytes of a section with the padding inside. */
  function Length(pieces: seq<Piece>, org: int): int {
    Total(pieces) + Gaps(pieces, org, |pieces|)
  }

  lemma {:induction false} RealEndTo(pieces: seq<Piece>, org: int, n: nat)
    requires 0 < n <= |pieces|
    ensures Wrap(PieceAt(pieces, org, n - 1) + pieces[n - 1].bytes.Length)
            == Wrap(org + Total(pieces[..n]) + Gaps(pieces, org, n))
  {
    if n == 1 {
      EndOfNext(pieces, org, 0, org);
    } else {
      RealEndTo(pieces, org, n - 1);
      EndOfNext(pieces, org, n - 1, Previous(pieces, org, n - 1));
    }
  }

  lemma {:induction false} EndOfNext(pieces: seq<Piece>, org: int, n: nat, at: int)
    requires n < |pieces| && at == Previous(pieces, org, n)
    requires var sum := org + Total(pieces[..n]) + Gaps(pieces, org, n); at == sum || at == Wrap(sum)
    ensures Wrap(PieceAt(pieces, org, n) + pieces[n].bytes.Length)
            == Wrap(org + Total(pieces[..n + 1]) + Gaps(pieces, org, n + 1))
  {
    TotalNext(pieces, n);
    var sum := org + Total(pieces[..n]) + Gaps(pieces, org, n);
    var gap, size := Layout.Padding(at, pieces[n].align), pieces[n].bytes.Length;
    PastPiece(at, sum, gap, size, PieceAt(pieces, org, n), org + Total(pieces[..n + 1]) + Gaps(pieces, org, n + 1));
  }

  lemma TotalNext(pieces: seq<Piece>, n: nat)
    requires n < |pieces|
    ensures Total(pieces[..n + 1]) == Total(pieces[..n]) + pieces[n].bytes.Length
  {
    assert pieces[..n + 1][..n] == pieces[..n];
  }

  lemma PastPiece(at: int, sum: int, gap: int, size: nat, start: int, end: int)
    requires (at == sum || at == Wrap(sum)) && start == Wrap(at + gap) && end == sum + size + gap
    ensures Wrap(start + size) == Wrap(end)
  {
    var i := WrapRemoves(sum);
    var j := WrapRemoves(at + gap);
    WrapSame(start + size, end, if at == sum then j else i + j);
  }

  /** The walk over the pieces ends where they end with the padding inside. */
  lemma WalkEnds(pieces: seq<Piece>, org: int)
    requires pieces != []
    ensures Wrap(PieceAt(pieces, org, |pieces| - 1) + pieces[|pieces| - 1].bytes.Length)
            == Wrap(org + Length(pieces, org))
  {
    RealEndTo(pieces, org, |pieces|);
    assert pieces[..|pieces|] == pieces;
  }

  /** Section k is the next one behind j that gets its origin here. */
  predicate Follows(lots: seq<Lot>, j: nat, k: nat)
    requires k < |lots|
  {
    j < k && !lots[j].fixed && !lots[k].fixed && forall i :: j < i < k ==> lots[i].fixed
  }

  ghost predicate SizedAs(lots: seq<Lot>, sections: seq<seq<Piece>>) {
    |lots| == |sections| && forall k :: 0 <= k < |lots| ==> lots[k].size == Total(sections[k])
  }

  /** Section j really ends before section k begins. */
  predicate Clear(lots: seq<Lot>, sections: seq<seq<Piece>>, start: int, j: nat, k: nat)
    requires j < k < |lots| == |sections|
  {
    var org := Origin(lots, start, j);
    Unsigned(org) + Length(sections[j], org) <= Unsigned(Origin(lots, start, k))
  }

  /** The padding inside section j is no more than that in front of section k. */
  predicate GapsFit(lots: seq<Lot>, sections: seq<seq<Piece>>, start: int, j: nat, k: nat)
    requires j < k < |lots| == |sections|
  {
    Gaps(sections[j], Origin(lots, start, j), |sections[j]|)
    <= Layout.Padding(Wrap(Origin(lots, start, j) + Total(sections[j])), lots[k].align)
  }

  lemma {:induction false} CursorStays(lots: seq<Lot>, start: int, j: nat, k: nat)
    requires j <= k <= |lots| && forall i :: j <= i < k ==> lots[i].fixed
    ensures Cursor(lots, start, k) == Cursor(lots, start, j)
    decreases k
  {
    if j < k {
      CursorStays(lots, start, j, k - 1);
    }
  }

  /** The first section that gets its origin here lies behind the start address. */
  lemma FirstOrigin(lots: seq<Lot>, start: int, k: nat)
    requires k < |lots| && forall i :: 0 <= i < k ==> lots[i].fixed
    ensures Origin(lots, start, k) == Wrap(start + Layout.Padding(start, lots[k].align))
  {
    CursorStays(lots, start, 0, k);
  }

  lemma NextClear(lots: seq<Lot>, sections: seq<seq<Piece>>, start: int, j: nat, k: nat)
    requires k < |lots| && Follows(lots, j, k) && SizedAs(lots, sections) && Fit(lots, start, |lots|)
    ensures Clear(lots, sections, start, j, k) <==> GapsFit(lots, sections, start, j, k)
  {
    NextRoom(lots, start, j, k);
    CursorStays(lots, start, j + 1, k);
    NextCursor(lots, start, j, Cursor(lots, start, j));
    assert Cursor(lots, start, k) == Wrap(Origin(lots, start, j) + Total(sections[j]));
  }

  /** Between the ends without padding inside and the next origin is just the padding there. */
  lemma {:induction false} NextRoom(lots: seq<Lot>, start: int, j: nat, k: nat)
    requires k < |lots| && Follows(lots, j, k) && Fit(lots, start, |lots|)
    ensures Unsigned(Origin(lots, start, k))
            == Unsigned(Origin(lots, start, j)) + lots[j].size + Layout.Padding(Cursor(lots, start, k), lots[k].align)
  {
    CursorStays(lots, start, j + 1, k);
    PlainOrigin(lots, start, j, |lots|);
    PlainOrigin(lots, start, k, |lots|);
  }

  lemma NextPart(lots: seq<Lot>, j: nat, k: nat) returns (i: nat)
    requires j < k < |lots| && !lots[j].fixed && !lots[k].fixed
    ensures j < i <= k && Follows(lots, j, i)
  {
    i := j + 1;
    while lots[i].fixed
      decreases k - i
      invariant j < i <= k && forall m :: j < m < i ==> lots[m].fixed
    {
      i := i + 1;
    }
  }

  lemma LaterClear(lots: seq<Lot>, sections: seq<seq<Piece>>, start: int, j: nat, k: nat)
    requires j < k < |lots| && !lots[j].fixed && !lots[k].fixed && SizedAs(lots, sections) && Fit(lots, start, |lots|)
    requires forall i :: j < i <= k && Follows(lots, j, i) ==> GapsFit(lots, sections, start, j, i)
    ensures Clear(lots, sections, start, j, k)
  {
    var i := NextPart(lots, j, k);
    NextClear(lots, sections, start, j, i);
    if i < k {
      OriginsApart(lots, start, i, k);
    }
  }

  /** The sections are apart with all their padding if and only if the padding inside each of
      them is no more than that in front of the next one. */
  lemma SectionsApart(lots: seq<Lot>, sections: seq<seq<Piece>>, start: int)
    requires SizedAs(lots, sections) && Fit(lots, start, |lots|)
    ensures (forall j, k :: 0 <= j < k < |lots| && !lots[j].fixed && !lots[k].fixed
                            ==> Clear(lots, sections, start, j, k))
            <==> (forall j, k :: 0 <= j < k < |lots| && Follows(lots, j, k) ==> GapsFit(lots, sections, start, j, k))
  {
    forall j, k | 0 <= j < k < |lots| && Follows(lots, j, k)
      ensures Clear(lots, sections, start, j, k) <==> GapsFit(lots, sections, start, j, k)
    {
      NextClear(lots, sections, start, j, k);
    }
    if forall j, k :: 0 <= j < k < |lots| && Follows(lots, j, k) ==> GapsFit(lots, sections, start, j, k) {
      forall j, k | 0 <= j < k < |lots| && !lots[j].fixed && !lots[k].fixed ensures Clear(lots, sections, start, j, k) {
        LaterClear(lots, sections, start, j, k);
      }
    }
  }

  /** Alignment gaps are not counted: after a gap of three bytes, the second of these sections
      begins before the first one ends. */
  lemma GapNotCounted(a: array<Byte>, b: array<Byte>)
    requires a.Length == 1 && b.Length == 4
    ensures var pieces := [Piece(1, a, []), Piece(4, b, [])];
            var lots := [Lot(4, Total(pieces), false), Lot(1, 1, false)];
            Origin(lots, 0, 0) == 0 && Origin(lots, 0, 1) < PieceAt(pieces, 0, 1) + b.Length
  {
    var pieces := [Piece(1, a, []), Piece(4, b, [])];
    TotalOfTwo(pieces);
    assert PieceAt(pieces, 0, 1) == 4 by {
      assert PieceAt(pieces, 0, 0) == 0;
      assert PieceStart(4, 1) == 4;
    }
    var lots := [Lot(4, 5, false), Lot(1, 1, false)];
    assert Cursor(lots, 0, 1) == 5;
    StartUnaligned(1, 5);
  }

  lemma TotalOfTwo(pieces: seq<Piece>)
    requires |pieces| == 2
    ensures Total(pieces) == pieces[0].bytes.Length + pieces[1].bytes.Length
  {
    assert pieces[..1][..0] == [];
    assert Total(pieces[..1]) == pieces[0].bytes.Length;
  }

  // ---------- labels ----------

  function Lookup(m: map<nat, int>, k: nat): int {
    if k in m then m[k] else 0
  }

  function LinkageOf(labels: map<nat, int>, orgs: map<nat, int>): Linkage {
    Linkage((n: nat) => Lookup(labels, n), (k: nat) => Lookup(orgs, k))
  }

  /** Every label that was not absolute has moved with its section. */
  predicate Moved(syms: seq<Symbol>, labels: map<nat, int>, l: Linkage) {
    forall k :: 0 <= k < |syms| && syms[k].Label? ==>
      l.labels(syms[k].name)
      == if syms[k].abs then Lookup(labels, syms[k].name)
         else Wrap(Lookup(labels, syms[k].name) + l.orgs(syms[k].sec.id))
  }

  /** The second phase: labels move with their sections, and are absolute from then on. */
  method MoveLabels(syms: seq<Symbol>, labels: map<nat, int>, orgs: map<nat, int>) returns (moved: map<nat, int>)
    requires forall j :: 0 <= j < |syms| ==> syms[j].Label?
    requires forall j, k :: 0 <= j < k < |syms| ==> syms[j].name != syms[k].name
    ensures Moved(syms, labels, LinkageOf(moved, orgs))
  {
    moved := labels;
    for i := 0 to |syms|
      invariant forall k :: i <= k < |syms| ==> Lookup(moved, syms[k].name) == Lookup(labels, syms[k].name)
      invariant forall k :: 0 <= k < i ==>
        Lookup(moved, syms[k].name)
        == if syms[k].abs then Lookup(labels, syms[k].name)
           else Wrap(Lookup(labels, syms[k].name) + Lookup(orgs, syms[k].sec.id))
    {
      if !syms[i].abs {
        moved := moved[syms[i].name := Wrap(Lookup(moved, syms[i].name) + Lookup(orgs, syms[i].sec.id))];
      }
    }
  }

  /** So the address of a label is its linked value. */
  lemma LabelsLinked(syms: seq<Symbol>, labels: map<nat, int>, k: nat, c: Ctx, l: Linkage, p: Placement)
    requires Moved(syms, labels, l) && k < |syms| && syms[k].Label? && !syms[k].weak
             && (syms[k].abs || !syms[k].sec.unallocated)
    requires c.labels(syms[k].name) == Lookup(labels, syms[k].name) && Places(l, p, syms[k].sec.id)
    ensures Wrap(l.labels(syms[k].name)) == Linked(Sym(syms[k]), c, p)
  {
    WrapInner(c.labels(syms[k].name) + (if syms[k].abs then 0 else l.orgs(syms[k].sec.id)), 0);
  }

  // ---------- the whole of it ----------

  /** The third phase for section k. */
  method FixPart(be: bool, part: Part, l: Linkage, ghost was: seq<seq<Byte>>) returns (errors: nat)
    requires Linkable(part.pieces) && OwnMemory(part.pieces) && was == Image(part.pieces)
    modifies part`pc, part`absolute, Memory(part.pieces)
    ensures part.absolute && errors == FaultsTo(part.pieces, l, part.org, |part.pieces|)
    ensures AllLinked(be, was, Image(part.pieces), part.pieces, l, part.org, |part.pieces|)
  {
    var pc;
    errors, pc := PatchPieces(be, part.pieces, l, part.org, was);
    part.pc := pc;
    part.absolute := true;
  }

  ghost predicate Separate(parts: seq<Part>) {
    && DistinctParts(parts)
    && (forall k :: 0 <= k < |parts| ==> Linkable(parts[k].pieces) && OwnMemory(parts[k].pieces))
    && (forall j, k :: 0 <= j < k < |parts| ==> Memory(parts[j].pieces) !! Memory(parts[k].pieces))
  }

  function AllMemory(parts: seq<Part>): set<object> {
    set k, o | 0 <= k < |parts| && o in Memory(parts[k].pieces) :: o
  }

  /** The changing part of a section: its bytes, its origin, and whether it is absolute. */
  datatype Content = Content(image: seq<seq<Byte>>, org: int, absolute: bool)

  ghost function ContentOf(parts: seq<Part>, k: nat): (c: Content)
    requires k < |parts|
    reads parts, AllMemory(parts)
    ensures c == Content(Image(parts[k].pieces), parts[k].org, parts[k].absolute)
  {
    assert Memory(parts[k].pieces) <= AllMemory(parts);
    Content(Image(parts[k].pieces), parts[k].org, parts[k].absolute)
  }

  ghost function Contents(parts: seq<Part>): (c: seq<Content>)
    reads parts, AllMemory(parts)
    ensures |c| == |parts| && forall k :: 0 <= k < |parts| ==> c[k] == ContentOf(parts, k)
  {
    seq(|parts|, k requires 0 <= k < |parts| reads parts, AllMemory(parts) => ContentOf(parts, k))
  }

  /** The relocations of a section are executed, or it was absolute from the beginning and has not
      changed. */
  ghost predicate PartLinked(be: bool, part: Part, was: Content, now: Content, l: Linkage) {
    Linkable(part.pieces) &&
    if was.absolute then now == was
    else
      && |was.image| == |now.image| == |part.pieces| && now.absolute && now.org == was.org
      && AllLinked(be, was.image, now.image, part.pieces, l, now.org, |part.pieces|)
  }

  ghost predicate PartsLinked(be: bool, parts: seq<Part>, was: seq<Content>, now: seq<Content>, l: Linkage, n: nat)
    requires n <= |parts| == |was| == |now|
  {
    n == 0 || (PartsLinked(be, parts, was, now, l, n - 1) && PartLinked(be, parts[n - 1], was[n - 1], now[n - 1], l))
  }

  lemma {:induction false} PartsLinkedDepends(be: bool, parts: seq<Part>, was: seq<Content>, now: seq<Content>,
                                              other: seq<Content>, l: Linkage, n: nat)
    requires n <= |parts| == |was| == |now| == |other| && PartsLinked(be, parts, was, now, l, n)
    requires forall k :: 0 <= k < n ==> other[k] == now[k]
    ensures PartsLinked(be, parts, was, other, l, n)
  {
    if n > 0 {
      PartsLinkedDepends(be, parts, was, now, other, l, n - 1);
    }
  }

  lemma {:induction false} PartsLinkedAt(be: bool, parts: seq<Part>, was: seq<Content>, now: seq<Content>, l: Linkage,
                                         n: nat, k: nat)
    requires k < n <= |parts| == |was| == |now| && PartsLinked(be, parts, was, now, l, n)
    ensures PartLinked(be, parts[k], was[k], now[k], l)
    decreases n
  {
    if k < n - 1 {
      PartsLinkedAt(be, parts, was, now, l, n - 1, k);
    }
  }

  /** From section i on nothing has changed. */
  predicate SameFrom(was: seq<Content>, now: seq<Content>, i: nat) {
    |was| == |now| && forall k :: i <= k < |was| ==> was[k] == now[k]
  }

  /** All errors in the first n sections, of those that were not absolute. */
  function AllFaults(parts: seq<Part>, was: seq<Content>, l: Linkage, n: nat): nat
    requires n <= |parts| == |was|
  {
    if n == 0 then 0 else AllFaults(parts, was, l, n - 1) + PartFaults(parts[n - 1], was[n - 1], l)
  }

  function PartFaults(part: Part, was: Content, l: Linkage): nat {
    if was.absolute then 0 else FaultsTo(part.pieces, l, was.org, |part.pieces|)
  }

  predicate Counted(parts: seq<Part>, was: seq<Content>, l: Linkage, n: nat, errors: nat) {
    n <= |parts| == |was| && errors == AllFaults(parts, was, l, n)
  }

  /** One section of the third phase. */
  method FixOne(be: bool, parts: seq<Part>, l: Linkage, i: nat) returns (errors: nat)
    requires Separate(parts) && i < |parts|
    modifies parts[i], Memory(parts[i].pieces)
    ensures errors == PartFaults(parts[i], old(ContentOf(parts, i)), l)
    ensures PartLinked(be, parts[i], old(ContentOf(parts, i)), ContentOf(parts, i), l)
    ensures parts[i].org == old(parts[i].org)
  {
    errors := 0;
    if !parts[i].absolute {
      errors := FixPart(be, parts[i], l, Image(parts[i].pieces));
    }
  }

  ghost predicate SameOrgs(parts: seq<Part>, orgs: seq<int>)
    reads parts
  {
    |orgs| == |parts| && forall k :: 0 <= k < |parts| ==> parts[k].org == orgs[k]
  }

  /** The first i sections are done, the others as before; no origin changes. */
  ghost predicate Fixing(be: bool, parts: seq<Part>, l: Linkage, was: seq<Content>, orgs: seq<int>, i: nat, errors: nat)
    reads parts, AllMemory(parts)
  {
    && i <= |parts| == |was| && SameFrom(was, Contents(parts), i) && SameOrgs(parts, orgs)
    && PartsLinked(be, parts, was, Contents(parts), l, i)
  }

  method FixNext(be: bool, parts: seq<Part>, l: Linkage, ghost was: seq<Content>, ghost orgs: seq<int>, i: nat,
                 errors: nat)
    returns (sum: nat)
    requires Separate(parts) && i < |parts| && Fixing(be, parts, l, was, orgs, i, errors)
    requires Counted(parts, was, l, i, errors)
    modifies parts[i], Memory(parts[i].pieces)
    ensures Fixing(be, parts, l, was, orgs, i + 1, sum) && Counted(parts, was, l, i + 1, sum)
  {
    ghost var before := Contents(parts);
    var bad := FixOne(be, parts, l, i);
    ghost var now := Contents(parts);
    forall k | 0 <= k < |parts| && k != i ensures now[k] == before[k] {
      assert Memory(parts[k].pieces) !! Memory(parts[i].pieces);
    }
    sum := errors + bad;
    PartsLinkedDepends(be, parts, was, before, now, l, i);
  }

  /** Both, for the loop. */
  ghost predicate Progress(be: bool, parts: seq<Part>, l: Linkage, was: seq<Content>, orgs: seq<int>, i: nat,
                           errors: nat)
    reads parts, AllMemory(parts)
  {
    Fixing(be, parts, l, was, orgs, i, errors) && Counted(parts, was, l, i, errors)
  }

  /** FixNext in the frame of the loop. */
  method FixStep(be: bool, parts: seq<Part>, l: Linkage, ghost was: seq<Content>, ghost orgs: seq<int>, i: nat,
                 errors: nat)
    returns (sum: nat)
    requires Separate(parts) && i < |parts| && Progress(be, parts, l, was, orgs, i, errors)
    modifies parts, AllMemory(parts)
    ensures Progress(be, parts, l, was, orgs, i + 1, sum)
  {
    assert Memory(parts[i].pieces) <= AllMemory(parts);
    sum := FixNext(be, parts, l, was, orgs, i, errors);
  }

  lemma FixingBegins(be: bool, parts: seq<Part>, l: Linkage)
    ensures Progress(be, parts, l, Contents(parts), Orgs(parts), 0, 0)
  {}

  /** The third phase. */
  method FixParts(be: bool, parts: seq<Part>, l: Linkage, ghost was: seq<Content>, ghost orgs: seq<int>)
    returns (errors: nat)
    requires Separate(parts) && Progress(be, parts, l, was, orgs, 0, 0)
    modifies parts, AllMemory(parts)
    ensures Progress(be, parts, l, was, orgs, |parts|, errors)
  {
    errors := 0;
    for i := 0 to |parts|
      invariant Progress(be, parts, l, was, orgs, i, errors)
    {
      errors := FixStep(be, parts, l, was, orgs, i, errors);
    }
  }

  function OrgMap(orgs: seq<int>): (m: map<nat, int>)
    ensures forall k :: 0 <= k < |orgs| ==> Lookup(m, k) == orgs[k]
  {
    map k: nat | k < |orgs| :: orgs[k]
  }

  /** The linker knows the origins of all sections. */
  ghost predicate KnowsOrigins(l: Linkage, parts: seq<Part>)
    reads parts
  {
    forall k :: 0 <= k < |parts| ==> l.orgs(k) == parts[k].org
  }

  function Origins(content: seq<Content>): (o: seq<int>)
    ensures |o| == |content| && forall k :: 0 <= k < |content| ==> o[k] == content[k].org
  {
    seq(|content|, k requires 0 <= k < |content| => content[k].org)
  }

  /** The first two phases. */
  method Place(parts: seq<Part>, syms: seq<Symbol>, labels: map<nat, int>, start: int, ghost lots: seq<Lot>)
    returns (l: Linkage)
    requires DistinctParts(parts) && lots == Lots(parts)
    requires forall j :: 0 <= j < |syms| ==> syms[j].Label?
    requires forall j, k :: 0 <= j < k < |syms| ==> syms[j].name != syms[k].name
    modifies parts
    ensures Assigned(lots, start, old(Orgs(parts)), Orgs(parts), |parts|) && lots == Lots(parts)
    ensures KnowsOrigins(l, parts) && Moved(syms, labels, l)
  {
    AssignOrigins(parts, lots, start);
    var orgs := OrgMap(seq(|parts|, k requires 0 <= k < |parts| reads parts => parts[k].org));
    var moved := MoveLabels(syms, labels, orgs);
    l := LinkageOf(moved, orgs);
  }

  lemma FixingEnds(be: bool, parts: seq<Part>, l: Linkage, was: seq<Content>, orgs: seq<int>, errors: nat)
    requires Progress(be, parts, l, was, orgs, |parts|, errors) && orgs == Origins(was)
    requires |orgs| == |parts| && forall k :: 0 <= k < |parts| ==> l.orgs(k) == orgs[k]
    ensures errors == AllFaults(parts, was, l, |parts|) && Orgs(parts) == orgs && KnowsOrigins(l, parts)
    ensures Joined(be, parts, was, Contents(parts), l)
  {
    assert Orgs(parts) == orgs;
  }

  /** `join_sections`: the sections are placed one behind the other, labels move with them, and the
      relocations are executed, with the errors counted. */
  method JoinSections(be: bool, parts: seq<Part>, syms: seq<Symbol>, labels: map<nat, int>, start: int,
                      ghost lots: seq<Lot>)
    returns (errors: nat, l: Linkage, ghost placed: seq<Content>)
    requires Separate(parts) && lots == Lots(parts)
    requires forall j :: 0 <= j < |syms| ==> syms[j].Label?
    requires forall j, k :: 0 <= j < k < |syms| ==> syms[j].name != syms[k].name
    modifies parts, AllMemory(parts)
    ensures Assigned(lots, start, old(Orgs(parts)), Orgs(parts), |parts|)
    ensures KnowsOrigins(l, parts) && Moved(syms, labels, l)
    ensures |placed| == |parts| && forall k :: 0 <= k < |parts| ==> placed[k].image == old(Image(parts[k].pieces))
    ensures errors == AllFaults(parts, placed, l, |parts|) && Orgs(parts) == Origins(placed)
    ensures Joined(be, parts, placed, Contents(parts), l)
  {
    l := Place(parts, syms, labels, start, lots);
    placed := Contents(parts);
    ghost var orgs := Orgs(parts);
    FixingBegins(be, parts, l);
    errors := FixParts(be, parts, l, placed, orgs);
    FixingEnds(be, parts, l, placed, orgs, errors);
  }

  // ---------- what has been linked ----------

  /** What `join_sections` leaves, errors or not. */
  ghost predicate Joined(be: bool, parts: seq<Part>, placed: seq<Content>, now: seq<Content>, l: Linkage) {
    && |placed| == |now| == |parts| && PartsLinked(be, parts, placed, now, l, |parts|)
    && forall k :: 0 <= k < |parts| ==> l.orgs(k) == now[k].org
  }

  lemma {:induction false} NoPartFaults(parts: seq<Part>, was: seq<Content>, l: Linkage, n: nat, k: nat)
    requires k < n <= |parts| == |was|
    ensures PartFaults(parts[k], was[k], l) <= AllFaults(parts, was, l, n)
    decreases n
  {
    if k < n - 1 {
      NoPartFaults(parts, was, l, n - 1, k);
    }
  }

  /** The first contents are those of section k before linking. */
  lemma PartImage(be: bool, parts: seq<Part>, placed: seq<Content>, now: seq<Content>, l: Linkage, k: nat, i: nat)
    requires Joined(be, parts, placed, now, l) && k < |parts| && !placed[k].absolute && i < |parts[k].pieces|
    ensures Linkable(parts[k].pieces)
    ensures AllFaults(parts, placed, l, |parts|) == 0
            ==> FaultsTo(parts[k].pieces, l, l.orgs(k), |parts[k].pieces|) == 0
    ensures |placed[k].image| == |now[k].image| == |parts[k].pieces|
            && |placed[k].image[i]| == parts[k].pieces[i].bytes.Length
    ensures now[k].image[i] == LinkedBytes(be, placed[k].image[i], parts[k].pieces, l, l.orgs(k), i)
  {
    PartsLinkedAt(be, parts, placed, now, l, |parts|, k);
    NoPartFaults(parts, placed, l, |parts|, k);
    LinkedAt(be, placed[k].image, now[k].image, parts[k].pieces, l, l.orgs(k), |parts[k].pieces|, i);
  }

  /** Relocation j of atom i in section k was made for e, and its field shares no bit with others. */
  ghost predicate Made(be: bool, parts: seq<Part>, k: nat, i: nat, j: nat, e: Expr, c: Ctx, past: int) {
    && k < |parts| && i < |parts[k].pieces| && j < |parts[k].pieces[i].relocs|
    && Unaligned(parts[k].pieces) && Disjoint(be, parts[k].pieces[i].relocs)
    && MadeFor(parts[k].pieces[i].relocs[j], e, c, past) && c.sec.id == k && c.pc == PieceAt(parts[k].pieces, 0, i)
  }

  /** Every field holds the linked value of the expression that its relocation was made for, or the
      distance to it. */
  lemma FieldsLinked(be: bool, parts: seq<Part>, placed: seq<Content>, now: seq<Content>, l: Linkage,
                     k: nat, i: nat, j: nat, e: Expr, c: Ctx, past: int, p: Placement)
    requires Joined(be, parts, placed, now, l) && AllFaults(parts, placed, l, |parts|) == 0
    requires Made(be, parts, k, i, j, e, c, past) && !placed[k].absolute
    requires forall id :: Places(l, p, id)
    ensures var r := parts[k].pieces[i].relocs[j];
            && |now[k].image| == |parts[k].pieces|
            && Holds(be, now[k].image[i], r.field, FieldNumber(r, e, c, past, p))
            && !Overflow(r.range, r.field.size, FieldNumber(r, e, c, past, p))
  {
    PartImage(be, parts, placed, now, l, k, i);
    LinkedField(be, placed[k].image[i], parts[k].pieces, l, i, j, e, c, past, p);
  }

  /** The signed number in the field of a branch leads to the linked target, if it is in the signed
      range of the field. The linker lets larger ones pass where its range is not stated. */
  lemma BranchLinked(be: bool, parts: seq<Part>, placed: seq<Content>, now: seq<Content>, l: Linkage,
                     k: nat, i: nat, j: nat, e: Expr, c: Ctx, past: int, p: Placement)
    requires Joined(be, parts, placed, now, l) && AllFaults(parts, placed, l, |parts|) == 0
    requires Made(be, parts, k, i, j, e, c, past) && !placed[k].absolute
    requires forall id :: Places(l, p, id)
    requires var r := parts[k].pieces[i].relocs[j]; IsTarget(r, e, c) && 0 < r.field.size < 32
    ensures var r := parts[k].pieces[i].relocs[j];
            var v := FieldNumber(r, e, c, past, p);
            && |now[k].image| == |parts[k].pieces| && Holds(be, now[k].image[i], r.field, v)
            && (Wrap(c.pc + p.move(k) + r.field.at + past + LowSigned(v, r.field.size)) == Linked(e, c, p)
                <==> v < Double(1, r.field.size - 1))
  {
    var r := parts[k].pieces[i].relocs[j];
    var v := FieldNumber(r, e, c, past, p);
    FieldsLinked(be, parts, placed, now, l, k, i, j, e, c, past, p);
    FieldReaches(r, e, c, past, p, v);
  }

  lemma FieldReaches(r: Reloc, e: Expr, c: Ctx, past: int, p: Placement, v: int)
    requires MadeFor(r, e, c, past) && IsTarget(r, e, c) && 0 < r.field.size < 32
    requires v == FieldNumber(r, e, c, past, p) && !Overflow(r.range, r.field.size, v)
    ensures Wrap(c.pc + p.move(c.sec.id) + r.field.at + past + LowSigned(v, r.field.size)) == Linked(e, c, p)
            <==> v < Double(1, r.field.size - 1)
  {
    OverflowIsRange(r.range, r.field.size, v);
    BaseRelocates(e, c, p);
    BranchReaches(Linked(e, c, p), c.pc + p.move(c.sec.id) + r.field.at + past, v, r.field.size);
  }

  lemma BranchReaches(target: int, place: int, v: int, n: nat)
    requires v == Wrap(target - place) && target == Wrap(target) && 0 < n < 32
    requires -Double(1, n - 1) <= v < Double(1, n)
    ensures Wrap(place + LowSigned(v, n)) == target <==> v < Double(1, n - 1)
  {
    LowSignedOf(v, n);
    DoubleBelow(n);
    DistanceBack(target, place, v, Double(1, n));
  }

  lemma DistanceBack(target: int, place: int, v: int, d: int)
    requires v == Wrap(target - place) && target == Wrap(target) && 0 < d < TADDR
    ensures Wrap(place + v) == target && Wrap(place + v - d) != target
  {
    var k := WrapRemoves(target - place);
    WrapSame(place + v, target, k);
    WrapSame(place + v - d, target - d, k);
    var i := WrapRemoves(target - d);
  }

  lemma {:induction false} DoubleBelow(n: nat)
    requires n < 32
    ensures 0 < Double(1, n) && (n < 8 ==> Double(1, n) < 0x100) && (n < 16 ==> Double(1, n) < 0x1_0000)
    ensures (n < 24 ==> Double(1, n) < 0x100_0000) && Double(1, n) < TADDR
    decreases n
  {
    if n >= 8 {
      DoubleBelow(n - 8);
      DoubleMore(1, n - 8);
    } else {
      assert Double(1, 0) == 1 && Double(1, 1) == 2 && Double(1, 2) == 4 && Double(1, 3) == 8;
      assert Double(1, 4) == 16 && Double(1, 5) == 32 && Double(1, 6) == 64 && Double(1, 7) == 128;
    }
  }

  /** Every bit outside all fields is as it was, and so is a section that was absolute. */
  lemma RestUntouched(be: bool, parts: seq<Part>, placed: seq<Content>, now: seq<Content>, l: Linkage, k: nat, i: nat,
                      b: nat, j: nat)
    requires Joined(be, parts, placed, now, l) && k < |parts|
    ensures placed[k].absolute ==> now[k] == placed[k]
    ensures |placed[k].image| == |now[k].image|
    ensures !placed[k].absolute && i < |parts[k].pieces| == |placed[k].image| && b < |placed[k].image[i]| && j < 8
            && !InSome(be, parts[k].pieces[i].relocs, |parts[k].pieces[i].relocs|, b, j)
            ==> |now[k].image[i]| == |placed[k].image[i]|
                && BitOf(now[k].image[i][b], j) == BitOf(placed[k].image[i][b], j)
  {
    PartsLinkedAt(be, parts, placed, now, l, |parts|, k);
    if !placed[k].absolute && i < |parts[k].pieces| {
      PartImage(be, parts, placed, now, l, k, i);
      if b < |placed[k].image[i]| && j < 8
         && !InSome(be, parts[k].pieces[i].relocs, |parts[k].pieces[i].relocs|, b, j) {
        OtherBitsStay(be, placed[k].image[i], parts[k].pieces, l, l.orgs(k), i, b, j);
      }
    }
  }

  /** Where the sections are. */
  lemma PartsPlaced(lots: seq<Lot>, start: int, was: seq<int>, now: seq<int>, sections: seq<seq<Piece>>, j: nat, k: nat)
    requires |lots| == |was| == |now| && Assigned(lots, start, was, now, |lots|)
    requires SizedAs(lots, sections) && Fit(lots, start, |lots|) && k < |lots| && Follows(lots, j, k)
    ensures Unsigned(now[j]) + Length(sections[j], now[j]) <= Unsigned(now[k]) <==> GapsFit(lots, sections, start, j, k)
  {
    AssignedAt(lots, start, was, now, |lots|, j);
    AssignedAt(lots, start, was, now, |lots|, k);
    NextClear(lots, sections, start, j, k);
  }

  // ---------- when linking succeeds ----------

  /** A relocation that raises no error: supported, against a label, and with room for its value. */
  predicate Faultless(r: Reloc, l: Linkage, pc: int) {
    Executed(r, l, pc) && !ExtRef(r.sym)
  }

  lemma {:induction false} AtomFaultless(relocs: seq<Reloc>, n: nat, l: Linkage, pc: int)
    requires n <= |relocs|
    ensures Faults(relocs, n, l, pc) == 0 <==> forall j :: 0 <= j < n ==> Faultless(relocs[j], l, pc)
  {
    if n > 0 {
      AtomFaultless(relocs, n - 1, l, pc);
    }
  }

  predicate PieceFaultless(pieces: seq<Piece>, l: Linkage, org: int, i: nat)
    requires i < |pieces|
  {
    forall j :: 0 <= j < |pieces[i].relocs| ==> Faultless(pieces[i].relocs[j], l, PieceAt(pieces, org, i))
  }

  lemma {:induction false} PiecesFaultless(pieces: seq<Piece>, l: Linkage, org: int, n: nat)
    requires n <= |pieces|
    ensures FaultsTo(pieces, l, org, n) == 0 <==> forall i :: 0 <= i < n ==> PieceFaultless(pieces, l, org, i)
  {
    if n > 0 {
      var relocs, pc := pieces[n - 1].relocs, PieceAt(pieces, org, n - 1);
      PiecesFaultless(pieces, l, org, n - 1);
      AtomFaultless(relocs, |relocs|, l, pc);
      assert FaultsTo(pieces, l, org, n) == FaultsTo(pieces, l, org, n - 1) + Faults(relocs, |relocs|, l, pc);
      assert PieceFaultless(pieces, l, org, n - 1) <==> Faults(relocs, |relocs|, l, pc) == 0;
    }
  }

  predicate PartFaultless(part: Part, was: Content, l: Linkage) {
    !was.absolute ==> forall i :: 0 <= i < |part.pieces| ==> PieceFaultless(part.pieces, l, was.org, i)
  }

  /** There are no errors if and only if no relocation raises one. */
  lemma {:induction false} AllFaultless(parts: seq<Part>, was: seq<Content>, l: Linkage, n: nat)
    requires n <= |parts| == |was|
    ensures AllFaults(parts, was, l, n) == 0 <==> forall k :: 0 <= k < n ==> PartFaultless(parts[k], was[k], l)
  {
    if n > 0 {
      AllFaultless(parts, was, l, n - 1);
      PiecesFaultless(parts[n - 1].pieces, l, was[n - 1].org, |parts[n - 1].pieces|);
    }
  }

  /** What a relocation was made for. */
  datatype Source = Source(e: Expr, c: Ctx, past: int)

  predicate MadeAt(part: Part, k: nat, i: nat, j: nat, o: Source)
    requires i < |part.pieces| && j < |part.pieces[i].relocs|
  {
    MadeFor(part.pieces[i].relocs[j], o.e, o.c, o.past) && o.c.sec.id == k && o.c.pc == PieceAt(part.pieces, 0, i)
  }

  /** The number that belongs into a field is in the range of the field. */
  predicate HasRoom(r: Reloc, o: Source, p: Placement) {
    !Overflow(r.range, r.field.size, FieldNumber(r, o.e, o.c, o.past, p))
  }

  /** All relocations of a section were made for expressions. */
  ghost predicate AllMade(part: Part, k: nat, made: nat -> nat -> Source) {
    Unaligned(part.pieces)
    && forall i, j :: 0 <= i < |part.pieces| && 0 <= j < |part.pieces[i].relocs| ==> MadeAt(part, k, i, j, made(i)(j))
  }

  predicate PieceRoom(piece: Piece, made: nat -> Source, p: Placement) {
    forall j :: 0 <= j < |piece.relocs| ==> HasRoom(piece.relocs[j], made(j), p)
  }

  /** All numbers that belong into the fields of a section are in their ranges. */
  predicate AllRoom(part: Part, made: nat -> nat -> Source, p: Placement) {
    forall i :: 0 <= i < |part.pieces| ==> PieceRoom(part.pieces[i], made(i), p)
  }

  lemma RoomIsFaultless(part: Part, k: nat, i: nat, j: nat, o: Source, l: Linkage, p: Placement)
    requires i < |part.pieces| && j < |part.pieces[i].relocs| && MadeAt(part, k, i, j, o) && Unaligned(part.pieces)
    requires forall id :: Places(l, p, id)
    ensures Faultless(part.pieces[i].relocs[j], l, PieceAt(part.pieces, l.orgs(k), i))
            <==> HasRoom(part.pieces[i].relocs[j], o, p)
  {
    LinkedValue(part.pieces, l, i, j, o.e, o.c, o.past, p);
  }

  lemma PieceRoomIsFaultless(part: Part, k: nat, i: nat, made: nat -> nat -> Source, l: Linkage, p: Placement)
    requires AllMade(part, k, made) && i < |part.pieces| && forall id :: Places(l, p, id)
    ensures PieceFaultless(part.pieces, l, l.orgs(k), i) <==> PieceRoom(part.pieces[i], made(i), p)
  {
    var relocs := part.pieces[i].relocs;
    if PieceFaultless(part.pieces, l, l.orgs(k), i) {
      forall j | 0 <= j < |relocs| ensures HasRoom(relocs[j], made(i)(j), p) {
        RoomIsFaultless(part, k, i, j, made(i)(j), l, p);
      }
    }
    if PieceRoom(part.pieces[i], made(i), p) {
      forall j | 0 <= j < |relocs| ensures Faultless(relocs[j], l, PieceAt(part.pieces, l.orgs(k), i)) {
        RoomIsFaultless(part, k, i, j, made(i)(j), l, p);
      }
    }
  }

  lemma PartRoom(part: Part, k: nat, was: Content, made: nat -> nat -> Source, l: Linkage, p: Placement)
    requires AllMade(part, k, made) && !was.absolute && l.orgs(k) == was.org && forall id :: Places(l, p, id)
    ensures PartFaultless(part, was, l) <==> AllRoom(part, made, p)
  {
    forall i | 0 <= i < |part.pieces|
      ensures PieceFaultless(part.pieces, l, was.org, i) <==> PieceRoom(part.pieces[i], made(i), p)
    {
      PieceRoomIsFaultless(part, k, i, made, l, p);
    }
  }

  /** Linking a program whose relocations were made for its expressions reports no error if and only
      if all the numbers that belong into the fields are in their ranges. */
  lemma LinksCleanly(parts: seq<Part>, placed: seq<Content>, l: Linkage, p: Placement,
                     made: nat -> nat -> nat -> Source, errors: nat)
    requires |placed| == |parts| && errors == AllFaults(parts, placed, l, |parts|)
    requires forall k :: 0 <= k < |parts| ==> l.orgs(k) == placed[k].org
    requires forall id :: Places(l, p, id)
    requires forall k :: 0 <= k < |parts| && !placed[k].absolute ==> AllMade(parts[k], k, made(k))
    ensures errors == 0 <==> forall k :: 0 <= k < |parts| && !placed[k].absolute ==> AllRoom(parts[k], made(k), p)
  {
    AllFaultless(parts, placed, l, |parts|);
    forall k | 0 <= k < |parts| && !placed[k].absolute
      ensures PartFaultless(parts[k], placed[k], l) <==> AllRoom(parts[k], made(k), p)
    {
      PartRoom(parts[k], k, placed[k], made(k), l, p);
    }
  }
}
