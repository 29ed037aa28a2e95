/** Where the atoms of a section lie: sums of the sizes and paddings before them, whatever relocated
    org blocks lie between; and within a block, counted from its own address. */
module Addresses {
  import opened Expressions
  import opened Layout

  /** The padding in front of atom i. A space is not aligned if that takes more than its limit. */
  function Gap(s: Sec, sizes: seq<nat>, i: nat): int
    requires i < |s.atoms| == |sizes|
  {
    var a, n := s.atoms[i], Padding(Before(s, sizes, i).pc, s.atoms[i].align);
    if a.kind.Space? && 0 < a.kind.maxAlign < n then 0 else n
  }

  /** The bytes of the atoms from j up to i with the padding in front of each. */
  function Span(s: Sec, sizes: seq<nat>, j: nat, i: nat): int
    requires j <= i <= |s.atoms| == |sizes|
    decreases i
  {
    if i == j then 0 else Span(s, sizes, j, i - 1) + Gap(s, sizes, i - 1) + sizes[i - 1]
  }

  /** The atom that opened the block in which atom i would come to lie, or -1. */
  function OpenBlock(s: Sec, i: nat): (k: int)
    requires i <= |s.atoms|
    ensures -1 <= k < i && (k >= 0 ==> s.atoms[k].kind.Rorg?)
  {
    if i == 0 then -1
    else
      match s.atoms[i - 1].kind
      case Rorg(_) => i - 1
      case RorgEnd => -1
      case _ => OpenBlock(s, i - 1)
  }

  /** No block is opened within another one, which is an error. */
  predicate Separate(s: Sec) {
    forall i :: 0 <= i < |s.atoms| && s.atoms[i].kind.Rorg? ==> OpenBlock(s, i) < 0
  }

  /** Two addresses are the same modulo 2^32. */
  predicate Same(x: int, y: int) {
    Wrap(x) == Wrap(y)
  }

  /** The walk is at the address at, in a block with the address addr that was opened at the address
      saved, or in none. */
  predicate Stands(w: Walk, open: bool, addr: int, saved: int, at: int) {
    && Same(w.pc, at)
    && if open then w.block.Open? && w.block.start == addr && Same(w.block.saved, saved) else w.block.Closed?
  }

  // ---------- one atom ----------

  lemma SameStep(x: int, y: int, gap: int, size: int)
    requires Same(x, y)
    ensures Wrap(x + gap) == Wrap(y + gap) && Same(Wrap(Wrap(x + gap) + size), y + gap + size)
  {
    var i := WrapRemoves(x);
    var j := WrapRemoves(y);
    WrapSame(x + gap, y + gap, j - i);
    WrapPlus(y + gap, size);
  }

  lemma WrapPlus(x: int, size: int)
    ensures Same(Wrap(x), x) && Same(Wrap(Wrap(x) + size), x + size)
  {
    var i := WrapRemoves(x);
    var j := WrapRemoves(Wrap(x) + size);
    WrapSame(Wrap(x), x, i);
    WrapSame(Wrap(Wrap(x) + size), x + size, i + j);
  }

  /** What a block holds counts from where it was opened. */
  lemma SameEnd(saved: int, before: int, pc: int, at: int, addr: int)
    requires Same(saved, before) && Same(pc, at)
    ensures Wrap(saved + (pc - addr)) == Wrap(before + (at - addr))
  {
    var i := WrapRemoves(saved);
    var j := WrapRemoves(before);
    var h := WrapRemoves(pc);
    var k := WrapRemoves(at);
    WrapSame(saved + (pc - addr), before + (at - addr), j - i + k - h);
  }

  lemma GoesOn(a: Atom, w: Walk, gap: int, size: nat, open: bool, addr: int, saved: int, at: int)
    requires Stands(w, open, addr, saved, at) && Aligned(a, w.pc) == Wrap(w.pc + gap)
    requires !a.kind.Rorg? && !a.kind.RorgEnd?
    ensures Enter(a, w).pc == Wrap(at + gap) && Stands(Leave(Enter(a, w), size), open, addr, saved, at + gap + size)
  {
    SameStep(w.pc, at, gap, size);
  }

  lemma Opens(a: Atom, w: Walk, gap: int, size: nat, at: int)
    requires Stands(w, false, 0, 0, at) && Aligned(a, w.pc) == Wrap(w.pc + gap) && a.kind.Rorg?
    ensures Stands(Leave(Enter(a, w), size), true, a.kind.addr, at + gap, a.kind.addr + size)
  {
    SameStep(w.pc, at, gap, 0);
    WrapPlus(a.kind.addr + size, 0);
    WrapPlus(at + gap, 0);
  }

  lemma Ends(a: Atom, w: Walk, gap: int, size: nat, open: bool, addr: int, saved: int, at: int, end: int)
    requires Stands(w, open, addr, saved, at) && Aligned(a, w.pc) == Wrap(w.pc + gap) && a.kind.RorgEnd?
    requires end == if open then saved + (at + gap - addr) else at + gap
    ensures Enter(a, w).pc == Wrap(end) && Stands(Leave(Enter(a, w), size), false, 0, 0, end + size)
  {
    SameStep(w.pc, at, gap, size);
    if open {
      WrapPlus(at + gap, 0);
      SameEnd(w.block.saved, saved, Wrap(w.pc + gap), at + gap, addr);
      WrapPlus(saved + (at + gap - addr), size);
    }
  }

  // ---------- all atoms ----------

  lemma {:induction false} SpanSplits(s: Sec, sizes: seq<nat>, k: nat, i: nat)
    requires k < i <= |s.atoms| == |sizes|
    ensures Span(s, sizes, 0, i) == Span(s, sizes, 0, k) + Gap(s, sizes, k) + sizes[k] + Span(s, sizes, k + 1, i)
    decreases i
  {
    if k < i - 1 {
      SpanSplits(s, sizes, k, i - 1);
    }
  }

  lemma AlignedGap(s: Sec, sizes: seq<nat>, i: nat)
    requires i < |s.atoms| == |sizes|
    ensures Aligned(s.atoms[i], Before(s, sizes, i).pc) == Wrap(Before(s, sizes, i).pc + Gap(s, sizes, i))
  {}

  /** The address of the block that is open in front of atom i, and the address where it was opened. */
  function BlockAddress(s: Sec, i: nat): int
    requires i <= |s.atoms|
  {
    if OpenBlock(s, i) < 0 then 0 else s.atoms[OpenBlock(s, i)].kind.addr
  }

  function OpenedAt(s: Sec, sizes: seq<nat>, i: nat): int
    requires i <= |s.atoms| == |sizes|
  {
    var k := OpenBlock(s, i);
    if k < 0 then 0 else s.org + Span(s, sizes, 0, k) + Gap(s, sizes, k)
  }

  /** The address in front of atom i: the origin, or the address of the block, and all that lies
      between. */
  function Reached(s: Sec, sizes: seq<nat>, i: nat): int
    requires i <= |s.atoms| == |sizes|
  {
    var k := OpenBlock(s, i);
    if k < 0 then s.org + Span(s, sizes, 0, i) else s.atoms[k].kind.addr + sizes[k] + Span(s, sizes, k + 1, i)
  }

  ghost predicate Located(s: Sec, sizes: seq<nat>, i: nat)
    requires i <= |s.atoms| == |sizes|
  {
    Stands(Before(s, sizes, i), OpenBlock(s, i) >= 0, BlockAddress(s, i), OpenedAt(s, sizes, i), Reached(s, sizes, i))
  }

  lemma {:induction false} WalkLocated(s: Sec, sizes: seq<nat>, i: nat)
    requires i <= |s.atoms| == |sizes| && Separate(s)
    ensures Located(s, sizes, i)
  {
    if i > 0 {
      WalkLocated(s, sizes, i - 1);
      NextLocated(s, sizes, i - 1);
    }
  }

  lemma NextLocated(s: Sec, sizes: seq<nat>, i: nat)
    requires i < |s.atoms| == |sizes| && Separate(s) && Located(s, sizes, i)
    ensures Located(s, sizes, i + 1)
    ensures At(s, sizes, i).pc == AddressOfAtom(s, sizes, i)
  {
    match s.atoms[i].kind
    case Rorg(_) => NextOpens(s, sizes, i);
    case RorgEnd => NextEnds(s, sizes, i);
    case _ => NextGoesOn(s, sizes, i);
  }

  lemma {:induction false} NextGoesOn(s: Sec, sizes: seq<nat>, i: nat)
    requires i < |s.atoms| == |sizes| && Separate(s) && Located(s, sizes, i)
    requires !s.atoms[i].kind.Rorg? && !s.atoms[i].kind.RorgEnd?
    ensures Located(s, sizes, i + 1) && At(s, sizes, i).pc == AddressOfAtom(s, sizes, i)
  {
    AlignedGap(s, sizes, i);
    ReachedNext(s, sizes, i);
    GoesOn(s.atoms[i], Before(s, sizes, i), Gap(s, sizes, i), sizes[i], OpenBlock(s, i) >= 0, BlockAddress(s, i),
           OpenedAt(s, sizes, i), Reached(s, sizes, i));
  }

  lemma {:induction false} NextOpens(s: Sec, sizes: seq<nat>, i: nat)
    requires i < |s.atoms| == |sizes| && Separate(s) && Located(s, sizes, i) && s.atoms[i].kind.Rorg?
    ensures Located(s, sizes, i + 1) && At(s, sizes, i).pc == AddressOfAtom(s, sizes, i)
  {
    AlignedGap(s, sizes, i);
    ReachedNext(s, sizes, i);
    Opens(s.atoms[i], Before(s, sizes, i), Gap(s, sizes, i), sizes[i], Reached(s, sizes, i));
  }

  lemma {:induction false} NextEnds(s: Sec, sizes: seq<nat>, i: nat)
    requires i < |s.atoms| == |sizes| && Separate(s) && Located(s, sizes, i) && s.atoms[i].kind.RorgEnd?
    ensures Located(s, sizes, i + 1) && At(s, sizes, i).pc == AddressOfAtom(s, sizes, i)
  {
    var gap, addr, start, at := Gap(s, sizes, i), BlockAddress(s, i), OpenedAt(s, sizes, i), Reached(s, sizes, i);
    AlignedGap(s, sizes, i);
    ReachedNext(s, sizes, i);
    Ends(s.atoms[i], Before(s, sizes, i), gap, sizes[i], OpenBlock(s, i) >= 0, addr, start, at,
         s.org + Span(s, sizes, 0, i) + gap);
  }

  lemma {:induction false} ReachedNext(s: Sec, sizes: seq<nat>, i: nat)
    requires i < |s.atoms| == |sizes| && Separate(s)
    ensures var k, gap := s.atoms[i].kind, Gap(s, sizes, i);
            && Reached(s, sizes, i + 1)
               == (if k.Rorg? then k.addr
                   else if k.RorgEnd? then s.org + Span(s, sizes, 0, i) + gap
                   else Reached(s, sizes, i) + gap) + sizes[i]
            && (k.RorgEnd? && OpenBlock(s, i) >= 0
                ==> s.org + Span(s, sizes, 0, i) == OpenedAt(s, sizes, i) + (Reached(s, sizes, i) - BlockAddress(s, i)))
            && (k.Rorg? ==> OpenedAt(s, sizes, i + 1) == Reached(s, sizes, i) + gap)
  {
    if OpenBlock(s, i) >= 0 {
      SpanSplits(s, sizes, OpenBlock(s, i), i);
    }
  }

  /** Where atom i lies: at the address of a block that it opens; otherwise behind its padding. The
      end of a block lies outside of it. */
  function AddressOfAtom(s: Sec, sizes: seq<nat>, i: nat): int
    requires i < |s.atoms| == |sizes|
  {
    match s.atoms[i].kind
    case Rorg(addr) => addr
    case RorgEnd => Wrap(s.org + Span(s, sizes, 0, i) + Gap(s, sizes, i))
    case _ => Wrap(Reached(s, sizes, i) + Gap(s, sizes, i))
  }

  /** The address of an atom: the address of its block and what lies between, or outside of blocks
      the origin of the section and all that lies before it. */
  lemma AtomAddress(s: Sec, sizes: seq<nat>, i: nat)
    requires i < |s.atoms| == |sizes| && Separate(s)
    ensures Address(s, sizes, i) == AddressOfAtom(s, sizes, i)
  {
    WalkLocated(s, sizes, i);
    NextLocated(s, sizes, i);
  }

  /** So this is where a resolved label lies. */
  lemma LabelAddress(s: Sec, labels: map<nat, int>, sizes: seq<nat>, i: nat)
    requires i < |s.atoms| == |sizes| && Separate(s) && Laid(s, labels, sizes) && s.atoms[i].kind.LabelAtom?
    ensures Lies(labels, s.atoms[i].kind.name, Wrap(Reached(s, sizes, i) + Gap(s, sizes, i)))
  {
    AtomAddress(s, sizes, i);
    assert LabelFits(s, labels, sizes, i);
  }

  /** And the section ends behind all its bytes, even if its last block is left open. */
  lemma {:induction false} SectionEnd(s: Sec, sizes: seq<nat>)
    requires |s.atoms| == |sizes| && Separate(s)
    ensures Same(Close(Before(s, sizes, |s.atoms|)).pc, s.org + Span(s, sizes, 0, |s.atoms|))
  {
    WalkLocated(s, sizes, |s.atoms|);
    EndOfWalk(s, sizes, |s.atoms|, Before(s, sizes, |s.atoms|));
  }

  lemma {:induction false} EndOfWalk(s: Sec, sizes: seq<nat>, n: nat, w: Walk)
    requires n <= |s.atoms| == |sizes|
    requires Stands(w, OpenBlock(s, n) >= 0, BlockAddress(s, n), OpenedAt(s, sizes, n), Reached(s, sizes, n))
    ensures Same(Close(w).pc, s.org + Span(s, sizes, 0, n))
  {
    var k := OpenBlock(s, n);
    if k >= 0 {
      SpanSplits(s, sizes, k, n);
      LeftOpen(w, BlockAddress(s, n), OpenedAt(s, sizes, n), Reached(s, sizes, n), s.org + Span(s, sizes, 0, n));
    }
  }

  lemma {:induction false} LeftOpen(w: Walk, addr: int, saved: int, at: int, end: int)
    requires Stands(w, true, addr, saved, at) && end == saved + (at - addr)
    ensures Same(Close(w).pc, end)
  {
    SameEnd(w.block.saved, saved, w.pc, at, addr);
    WrapPlus(saved + (at - addr), 0);
  }
}
