/** The layout of a section: where each atom comes to lie, given the sizes of the atoms, and one
    pass of the resolver over the atoms. */
module Layout {
  import opened Bits
  import opened Expressions

  /** The kinds of atoms that the resolver treats differently. */
  datatype Kind = LabelAtom(name: nat) | Instruction | Rorg(addr: int) | RorgEnd | Space(maxAlign: nat) | Other

  datatype Atom = Atom(kind: Kind, align: nat)

  /** Where an atom is sized: its index (which fixes the cpu options in force), the address,
      whether a relocated org block is open, and whether a resolve warning is due. */
  datatype Place = Place(atom: nat, pc: int, rorg: bool, warn: bool)

  /** What sizing an atom yields: the size, the errors it raised, and the sections whose labels
      it read and recorded. */
  datatype Sized = Sized(bytes: nat, errors: nat, used: set<nat>)

  /** A section as the parser leaves it. `size` is the size function of the cpu and the
      directives: it may look at the place of the atom and at the addresses of all labels. */
  datatype Sec = Sec(id: nat, org: int, atoms: seq<Atom>, size: (Place, map<nat, int>) -> Sized)

  /** Atoms that changed size more often than this are sized with a warning. */
  const MAX_SIZE_CHANGES := 5

  // ---------- addresses ----------

  /** The remainder of C, which has the sign of x. */
  function Rest(x: int, n: nat): int
    requires n > 0
    decreases AbsOf(x)
  {
    if x >= n then Rest(x - n, n) else if -x >= n then Rest(x + n, n) else x
  }

  /** Bytes up to the next multiple of align. */
  function Padding(addr: int, align: nat): int {
    if align == 0 then 0
    else if Rest(addr, align) == 0 then 0
    else align - Rest(addr, align)
  }

  /** x is a multiple of n, unless n is 0. */
  predicate MultipleOf(x: int, n: nat)
    decreases AbsOf(x)
  {
    n == 0 || x == 0 || (x >= n && MultipleOf(x - n, n)) || (-x >= n && MultipleOf(x + n, n))
  }

  /** Padding leads to a multiple; for an address that is not negative to the next one, for others to
      the one behind that. */
  lemma {:induction false} PaddingAligns(at: int, align: nat)
    ensures 0 <= Padding(at, align) && MultipleOf(at + Padding(at, align), align)
    ensures align > 0 && at >= 0 ==> Padding(at, align) < align
    ensures align > 0 && at < 0 && Padding(at, align) != 0 ==> align < Padding(at, align) < 2 * align
    decreases AbsOf(at)
  {
    if align > 0 && at >= align {
      PaddingAligns(at - align, align);
    } else if align > 0 && -at >= align {
      PaddingAligns(at + align, align);
    }
  }

  function Aligned(a: Atom, pc: int): int {
    var n := Padding(pc, a.align);
    Wrap(if a.kind.Space? && a.kind.maxAlign != 0 && n > a.kind.maxAlign then pc else pc + n)
  }

  /** An open relocated org block: the address where it was opened, and its org. */
  datatype Block = Closed | Open(saved: int, start: int)

  datatype Walk = Walk(pc: int, block: Block)

  function Close(w: Walk): Walk {
    if w.block.Open? then Walk(Wrap(w.block.saved + (w.pc - w.block.start)), Closed) else w
  }

  /** Moving on to an atom. */
  function Enter(a: Atom, w: Walk): Walk {
    var here := w.(pc := Aligned(a, w.pc));
    match a.kind
    case Rorg(addr) => Walk(addr, Open(here.pc, addr))
    case RorgEnd => Close(here)
    case _ => here
  }

  /** Moving past it. */
  function Leave(w: Walk, size: nat): Walk {
    w.(pc := Wrap(w.pc + size))
  }

  /** The state of the walk in front of atom i when the atoms have the given sizes. */
  function Before(s: Sec, sizes: seq<nat>, i: nat): Walk
    requires i <= |s.atoms| == |sizes|
  {
    if i == 0 then Walk(s.org, Closed) else Leave(Enter(s.atoms[i - 1], Before(s, sizes, i - 1)), sizes[i - 1])
  }

  function At(s: Sec, sizes: seq<nat>, i: nat): Walk
    requires i < |s.atoms| == |sizes|
  {
    Enter(s.atoms[i], Before(s, sizes, i))
  }

  /** The address of atom i. */
  function Address(s: Sec, sizes: seq<nat>, i: nat): int
    requires i < |s.atoms| == |sizes|
  {
    At(s, sizes, i).pc
  }

  /** Only the sizes of earlier atoms count. */
  lemma {:induction false} BeforeDepends(s: Sec, sizes: seq<nat>, other: seq<nat>, i: nat)
    requires i <= |s.atoms| == |sizes| == |other|
    requires forall j :: 0 <= j < i ==> sizes[j] == other[j]
    ensures Before(s, sizes, i) == Before(s, other, i)
  {
    if i > 0 {
      BeforeDepends(s, sizes, other, i - 1);
    }
  }

  // ---------- consistency ----------

  function PlaceOf(s: Sec, sizes: seq<nat>, changes: seq<nat>, i: nat): Place
    requires i < |s.atoms| == |sizes| == |changes|
  {
    var w := At(s, sizes, i);
    Place(i, w.pc, w.block.Open?, changes[i] > MAX_SIZE_CHANGES)
  }

  /** Atom i agrees with the layout: a label has the address where it lies, and the stored size
      is the one that the size function gives there. */
  predicate Fits(s: Sec, labels: map<nat, int>, sizes: seq<nat>, changes: seq<nat>, i: nat)
    requires i < |s.atoms| == |sizes| == |changes|
  {
    && LabelFits(s, labels, sizes, i)
    && s.size(PlaceOf(s, sizes, changes, i), labels).bytes == sizes[i]
  }

  predicate LabelFits(s: Sec, labels: map<nat, int>, sizes: seq<nat>, i: nat)
    requires i < |s.atoms| == |sizes|
  {
    s.atoms[i].kind.LabelAtom? ==> Lies(labels, s.atoms[i].kind.name, Address(s, sizes, i))
  }

  predicate Lies(labels: map<nat, int>, name: nat, pc: int) {
    name in labels && labels[name] == pc
  }

  predicate Consistent(s: Sec, labels: map<nat, int>, sizes: seq<nat>, changes: seq<nat>)
    requires |s.atoms| == |sizes| == |changes|
  {
    forall i :: 0 <= i < |s.atoms| ==> Fits(s, labels, sizes, changes, i)
  }

  /** All labels lie where the stored sizes put them. */
  predicate Laid(s: Sec, labels: map<nat, int>, sizes: seq<nat>)
    requires |s.atoms| == |sizes|
  {
    forall i :: 0 <= i < |s.atoms| ==> LabelFits(s, labels, sizes, i)
  }

  // ---------- one pass ----------

  /** The state within a pass. `grew` says that an atom became larger, `used` collects the
      sections that were read. */
  datatype Pass = Pass(walk: Walk, labels: map<nat, int>, sizes: seq<nat>, changes: seq<nat>, errors: nat,
                       done: bool, grew: bool, used: set<nat>)

  predicate Proper(s: Sec, p: Pass) {
    |p.sizes| == |p.changes| == |s.atoms|
  }

  /** A label is moved to the current address. */
  function MoveLabel(k: Kind, p: Pass): Pass
  {
    if k.LabelAtom? && !Lies(p.labels, k.name, p.walk.pc) then
      p.(labels := p.labels[k.name := p.walk.pc], done := false)
    else p
  }

  /** The new size is stored. */
  function Resize(p: Pass, i: nat, z: Sized, safe: bool): Pass
    requires i < |p.sizes| == |p.changes|
  {
    var q := p.(errors := p.errors + z.errors, used := p.used + z.used);
    if z.bytes == q.sizes[i] then q
    else
      q.(done := false, sizes := q.sizes[i := z.bytes],
         changes := if safe then q.changes[i := q.changes[i] + 1] else q.changes,
         grew := q.grew || (!safe && z.bytes > q.sizes[i]))
  }

  /** Entering atom i: a relocated org inside another is an error. */
  function Reach(s: Sec, p: Pass, i: nat): Pass
    requires Proper(s, p) && i < |s.atoms|
  {
    var a := s.atoms[i];
    MoveLabel(a.kind, p.(walk := Enter(a, p.walk),
                         errors := p.errors + if a.kind.Rorg? && p.walk.block.Open? then 1 else 0))
  }

  function Measure(s: Sec, p: Pass, i: nat): Sized
    requires i < |p.changes|
  {
    s.size(Place(i, p.walk.pc, p.walk.block.Open?, p.changes[i] > MAX_SIZE_CHANGES), p.labels)
  }

  /** Atom i in a pass: in safe mode an instruction is left alone once anything has changed. */
  function Visit(s: Sec, p: Pass, i: nat, safe: bool): (r: Pass)
    requires Proper(s, p) && i < |s.atoms|
    ensures Proper(s, r)
  {
    var q := Reach(s, p, i);
    var r := if safe && !q.done && s.atoms[i].kind.Instruction? then q else Resize(q, i, Measure(s, q, i), safe);
    r.(walk := Leave(r.walk, r.sizes[i]))
  }

  /** The pass up to atom i. */
  function PassTo(s: Sec, p: Pass, safe: bool, i: nat): (r: Pass)
    requires Proper(s, p) && i <= |s.atoms|
    ensures Proper(s, r)
  {
    if i == 0 then p.(walk := Walk(s.org, Closed), done := true, grew := false)
    else Visit(s, PassTo(s, p, safe, i - 1), i - 1, safe)
  }

  function WholePass(s: Sec, p: Pass, safe: bool): (r: Pass)
    requires Proper(s, p)
    ensures Proper(s, r)
  {
    var r := PassTo(s, p, safe, |s.atoms|);
    r.(walk := Close(r.walk))
  }

  // ---------- one step ----------

  /** What the visit of atom i, leading from p to r, has to do with the sizes. */
  ghost predicate SizeStep(s: Sec, p: Pass, r: Pass, i: nat, safe: bool)
    requires Proper(s, p) && Proper(s, r) && i < |s.atoms|
  {
    && (forall j :: 0 <= j < |s.atoms| && j != i ==> r.sizes[j] == p.sizes[j] && r.changes[j] == p.changes[j])
    && (!p.done || r.sizes[i] != p.sizes[i] ==> !r.done)
    && r.changes[i] == p.changes[i] + (if safe && r.sizes[i] != p.sizes[i] then 1 else 0)
    && r.grew == (p.grew || (!safe && r.sizes[i] > p.sizes[i]))
    && (safe && !p.done && s.atoms[i].kind.Instruction? ==> r.sizes[i] == p.sizes[i])
  }

  /** And with walk and labels. */
  ghost predicate LabelStep(s: Sec, p: Pass, r: Pass, i: nat)
    requires Proper(s, p) && Proper(s, r) && i < |s.atoms|
  {
    var w := Enter(s.atoms[i], p.walk);
    var k := s.atoms[i].kind;
    && r.walk == Leave(w, r.sizes[i])
    && r.labels == (if k.LabelAtom? then p.labels[k.name := w.pc] else p.labels)
    && (p.done && r.sizes == p.sizes && (k.LabelAtom? ==> Lies(p.labels, k.name, w.pc)) ==> r.done)
  }

  /** If nothing is reported, atom i is as the size function wants it. */
  ghost predicate DoneStep(s: Sec, p: Pass, r: Pass, i: nat)
    requires Proper(s, p) && Proper(s, r) && i < |s.atoms|
  {
    var w := Enter(s.atoms[i], p.walk);
    var z := s.size(Place(i, w.pc, w.block.Open?, p.changes[i] > MAX_SIZE_CHANGES), p.labels);
    r.done ==> && Unchanged(r, p) && z.bytes == p.sizes[i] && r.used == p.used + z.used
               && (s.atoms[i].kind.LabelAtom? ==> Lies(p.labels, s.atoms[i].kind.name, w.pc))
  }

  predicate Unchanged(p: Pass, q: Pass) {
    p.labels == q.labels && p.sizes == q.sizes && p.changes == q.changes
  }

  ghost predicate Step(s: Sec, p: Pass, r: Pass, i: nat, safe: bool) {
    && Proper(s, p) && Proper(s, r) && i < |s.atoms|
    && SizeStep(s, p, r, i, safe) && LabelStep(s, p, r, i) && DoneStep(s, p, r, i)
  }

  lemma VisitSteps(s: Sec, p: Pass, i: nat, safe: bool)
    requires Proper(s, p) && i < |s.atoms|
    ensures Step(s, p, Visit(s, p, i, safe), i, safe)
  {
    VisitSizes(s, p, i, safe);
    VisitLabels(s, p, i, safe);
    VisitDone(s, p, i, safe);
  }

  lemma VisitSizes(s: Sec, p: Pass, i: nat, safe: bool)
    requires Proper(s, p) && i < |s.atoms|
    ensures SizeStep(s, p, Visit(s, p, i, safe), i, safe)
  {}

  lemma VisitLabels(s: Sec, p: Pass, i: nat, safe: bool)
    requires Proper(s, p) && i < |s.atoms|
    ensures LabelStep(s, p, Visit(s, p, i, safe), i)
  {}

  lemma VisitDone(s: Sec, p: Pass, i: nat, safe: bool)
    requires Proper(s, p) && i < |s.atoms|
    ensures DoneStep(s, p, Visit(s, p, i, safe), i)
  {}

  // ---------- a whole pass ----------

  /** The states of a pass, as a sequence. */
  ghost predicate Steps(s: Sec, t: seq<Pass>, safe: bool) {
    && |t| == |s.atoms| + 1 && Proper(s, t[0])
    && t[0].walk == Walk(s.org, Closed) && t[0].done && !t[0].grew
    && forall i :: 0 <= i < |s.atoms| ==> Step(s, t[i], t[i + 1], i, safe)
  }

  /** The states of the pass that starts with p. */
  lemma Trace(s: Sec, p: Pass, safe: bool) returns (t: seq<Pass>)
    requires Proper(s, p)
    ensures Steps(s, t, safe) && Unchanged(t[0], p)
    ensures t[|s.atoms|].(walk := Close(t[|s.atoms|].walk)) == WholePass(s, p, safe)
  {
    t := seq(|s.atoms| + 1, i requires 0 <= i <= |s.atoms| => PassTo(s, p, safe, i));
    forall i | 0 <= i < |s.atoms| ensures Step(s, t[i], t[i + 1], i, safe) {
      VisitSteps(s, t[i], i, safe);
    }
  }

  /** An atom is touched by no step but its own. */
  lemma {:induction false} VisitedOnce(s: Sec, t: seq<Pass>, safe: bool, i: nat, k: nat, j: nat)
    requires Steps(s, t, safe) && k <= i <= |s.atoms| && j < |s.atoms| && !(k <= j < i)
    ensures Proper(s, t[i]) && Proper(s, t[k])
    ensures t[i].sizes[j] == t[k].sizes[j] && t[i].changes[j] == t[k].changes[j]
    decreases i
  {
    if i > k {
      VisitedOnce(s, t, safe, i - 1, k, j);
      assert Step(s, t[i - 1], t[i - 1 + 1], i - 1, safe);
    } else if i > 0 {
      assert Step(s, t[i - 1], t[i - 1 + 1], i - 1, safe);
    }
  }

  /** What a whole pass does to atom i is what step i does. */
  lemma PassVisits(s: Sec, t: seq<Pass>, safe: bool, i: nat)
    requires Steps(s, t, safe) && i < |s.atoms|
    ensures Step(s, t[i], t[i + 1], i, safe) && Proper(s, t[|s.atoms|])
    ensures t[i].sizes[i] == t[0].sizes[i] && t[i].changes[i] == t[0].changes[i]
    ensures t[i + 1].sizes[i] == t[|s.atoms|].sizes[i] && t[i + 1].changes[i] == t[|s.atoms|].changes[i]
  {
    assert Step(s, t[i], t[i + 1], i, safe);
    VisitedOnce(s, t, safe, i, 0, i);
    VisitedOnce(s, t, safe, |s.atoms|, i + 1, i);
  }

  /** The walk of a pass is the layout of the sizes it has stored so far. */
  lemma {:induction false} WalkIsLayout(s: Sec, t: seq<Pass>, safe: bool, i: nat)
    requires Steps(s, t, safe) && i <= |s.atoms|
    ensures Proper(s, t[i]) && t[i].walk == Before(s, t[i].sizes, i)
  {
    if i > 0 {
      WalkIsLayout(s, t, safe, i - 1);
      assert Step(s, t[i - 1], t[i - 1 + 1], i - 1, safe);
      BeforeDepends(s, t[i - 1].sizes, t[i].sizes, i - 1);
    }
  }

  /** The label called name stands in section s. */
  ghost predicate Owns(s: Sec, name: nat) {
    exists i :: 0 <= i < |s.atoms| && s.atoms[i].kind.LabelAtom? && s.atoms[i].kind.name == name
  }

  /** Only labels of section s differ. */
  ghost predicate SameElsewhere(s: Sec, a: map<nat, int>, b: map<nat, int>) {
    forall name :: !Owns(s, name) ==> (name in a <==> name in b) && (name in a ==> a[name] == b[name])
  }

  lemma {:induction false} OwnLabelsOnly(s: Sec, t: seq<Pass>, safe: bool, i: nat)
    requires Steps(s, t, safe) && i <= |s.atoms|
    ensures SameElsewhere(s, t[0].labels, t[i].labels)
  {
    if i > 0 {
      OwnLabelsOnly(s, t, safe, i - 1);
      assert Step(s, t[i - 1], t[i - 1 + 1], i - 1, safe);
    }
  }

  /** A pass moves no labels but those of its section. */
  lemma PassMovesOwn(s: Sec, p: Pass, safe: bool)
    requires Proper(s, p)
    ensures SameElsewhere(s, p.labels, WholePass(s, p, safe).labels)
  {
    var t := Trace(s, p, safe);
    OwnLabelsOnly(s, t, safe, |s.atoms|);
  }

  // ---------- a pass that changes nothing ----------

  function SizedAt(s: Sec, labels: map<nat, int>, sizes: seq<nat>, changes: seq<nat>, i: nat): Sized
    requires i < |s.atoms| == |sizes| == |changes|
  {
    s.size(PlaceOf(s, sizes, changes, i), labels)
  }

  /** As long as nothing is reported as changed, nothing has changed, and atoms visited fit. */
  lemma {:induction false} DoneFits(s: Sec, t: seq<Pass>, safe: bool, i: nat, j: nat)
    requires Steps(s, t, safe) && j <= i <= |s.atoms| && t[i].done
    ensures Proper(s, t[i]) && Unchanged(t[i], t[0])
    ensures j < i ==> Fits(s, t[0].labels, t[0].sizes, t[0].changes, j)
    ensures j < i ==> SizedAt(s, t[0].labels, t[0].sizes, t[0].changes, j).used <= t[i].used
    decreases i
  {
    if i > 0 {
      var p := t[i - 1];
      assert Step(s, p, t[i - 1 + 1], i - 1, safe);
      WalkIsLayout(s, t, safe, i - 1);
      DoneFits(s, t, safe, i - 1, if j < i then j else 0);
    }
  }

  /** A finished pass leaves a consistent layout behind, and has collected all that was read. */
  lemma FinishedPass(s: Sec, p: Pass, safe: bool)
    requires Proper(s, p) && WholePass(s, p, safe).done
    ensures Unchanged(WholePass(s, p, safe), p)
    ensures Consistent(s, p.labels, p.sizes, p.changes)
    ensures forall j :: 0 <= j < |s.atoms|
              ==> SizedAt(s, p.labels, p.sizes, p.changes, j).used <= WholePass(s, p, safe).used
  {
    var t := Trace(s, p, safe);
    DoneFits(s, t, safe, |s.atoms|, 0);
    forall j | 0 <= j < |s.atoms|
      ensures Fits(s, p.labels, p.sizes, p.changes, j)
      ensures SizedAt(s, p.labels, p.sizes, p.changes, j).used <= WholePass(s, p, safe).used
    {
      DoneFits(s, t, safe, |s.atoms|, j);
    }
  }

  // ---------- a pass that changes something ----------

  predicate DistinctLabels(s: Sec) {
    forall i, j :: 0 <= i < j < |s.atoms| && s.atoms[i].kind.LabelAtom? && s.atoms[j].kind.LabelAtom?
                   ==> s.atoms[i].kind.name != s.atoms[j].kind.name
  }

  /** Labels already passed lie where the sizes stored in this pass put them. */
  lemma {:induction false} LabelsFollow(s: Sec, t: seq<Pass>, safe: bool, i: nat, j: nat)
    requires Steps(s, t, safe) && DistinctLabels(s) && j < i <= |s.atoms|
    ensures Proper(s, t[i]) && LabelFits(s, t[i].labels, t[i].sizes, j)
    decreases i
  {
    assert Step(s, t[i - 1], t[i - 1 + 1], i - 1, safe);
    WalkIsLayout(s, t, safe, i - 1);
    BeforeDepends(s, t[i - 1].sizes, t[i].sizes, j);
    if j < i - 1 {
      LabelsFollow(s, t, safe, i - 1, j);
    }
  }

  /** After any pass, all labels lie where the stored sizes put them. */
  lemma PassLays(s: Sec, p: Pass, safe: bool)
    requires Proper(s, p) && DistinctLabels(s)
    ensures Laid(s, WholePass(s, p, safe).labels, WholePass(s, p, safe).sizes)
  {
    var t := Trace(s, p, safe);
    forall j | 0 <= j < |s.atoms|
      ensures LabelFits(s, WholePass(s, p, safe).labels, WholePass(s, p, safe).sizes, j)
    {
      LabelsFollow(s, t, safe, |s.atoms|, j);
    }
  }

  lemma {:induction false} NothingMoves(s: Sec, t: seq<Pass>, safe: bool, i: nat)
    requires Steps(s, t, safe) && i <= |s.atoms| && Laid(s, t[0].labels, t[0].sizes)
    requires t[|s.atoms|].sizes == t[0].sizes
    ensures Proper(s, t[i]) && t[i].sizes == t[0].sizes && t[i].done && t[i].labels == t[0].labels
  {
    if i > 0 {
      NothingMoves(s, t, safe, i - 1);
      WalkIsLayout(s, t, safe, i - 1);
      PassVisits(s, t, safe, i - 1);
      assert LabelFits(s, t[0].labels, t[0].sizes, i - 1);
    }
  }

  /** So a later pass that is not the last one changes the size of an atom. */
  lemma UnfinishedResizes(s: Sec, p: Pass, safe: bool)
    requires Proper(s, p) && Laid(s, p.labels, p.sizes) && !WholePass(s, p, safe).done
    ensures WholePass(s, p, safe).sizes != p.sizes
  {
    var t := Trace(s, p, safe);
    if WholePass(s, p, safe).sizes == p.sizes {
      NothingMoves(s, t, safe, |s.atoms|);
    }
  }

  // ---------- safe mode ----------

  /** Once something has changed it stays reported. */
  lemma {:induction false} StaysUndone(s: Sec, t: seq<Pass>, safe: bool, i: nat, j: nat)
    requires Steps(s, t, safe) && i <= j <= |s.atoms| && !t[i].done
    ensures !t[j].done
    decreases j
  {
    if i < j {
      StaysUndone(s, t, safe, i, j - 1);
      assert Step(s, t[j - 1], t[j - 1 + 1], j - 1, safe);
    }
  }

  /** In a safe pass at most one instruction changes its size. */
  lemma OneInstruction(s: Sec, p: Pass, i: nat, j: nat)
    requires Proper(s, p) && i < j < |s.atoms|
    requires s.atoms[i].kind.Instruction? && s.atoms[j].kind.Instruction?
    ensures WholePass(s, p, true).sizes[i] == p.sizes[i] || WholePass(s, p, true).sizes[j] == p.sizes[j]
  {
    var t := Trace(s, p, true);
    PassVisits(s, t, true, i);
    PassVisits(s, t, true, j);
    if !t[i + 1].done {
      StaysUndone(s, t, true, i + 1, j);
    }
  }

  /** Only size changes in safe mode are counted, each once. */
  lemma ChangesCounted(s: Sec, p: Pass, safe: bool, i: nat)
    requires Proper(s, p) && i < |s.atoms|
    ensures WholePass(s, p, safe).changes[i]
            == p.changes[i] + if safe && WholePass(s, p, safe).sizes[i] != p.sizes[i] then 1 else 0
  {
    var t := Trace(s, p, safe);
    PassVisits(s, t, safe, i);
  }

  /** Some atom is larger in t than in s. */
  ghost predicate Larger(s: seq<nat>, t: seq<nat>)
    requires |s| == |t|
  {
    exists j :: 0 <= j < |s| && s[j] < t[j]
  }

  /** In a fast pass, `grew` reports exactly that some atom became larger. */
  lemma {:induction false} GrewSoFar(s: Sec, t: seq<Pass>, i: nat)
    requires Steps(s, t, false) && i <= |s.atoms|
    ensures Proper(s, t[i]) && Proper(s, t[0]) && (t[i].grew <==> Larger(t[0].sizes, t[i].sizes))
  {
    if i > 0 {
      GrewSoFar(s, t, i - 1);
      VisitedOnce(s, t, false, i - 1, 0, i - 1);
      assert Step(s, t[i - 1], t[i - 1 + 1], i - 1, false);
      LargerStep(t[0].sizes, t[i - 1].sizes, t[i].sizes, i - 1);
    }
  }

  lemma LargerStep(s: seq<nat>, q: seq<nat>, r: seq<nat>, i: nat)
    requires i < |s| == |q| == |r| && q[i] == s[i] && forall j :: 0 <= j < |s| && j != i ==> r[j] == q[j]
    ensures Larger(s, r) <==> Larger(s, q) || s[i] < r[i]
  {
    if Larger(s, q) {
      var j :| 0 <= j < |s| && s[j] < q[j];
      assert s[j] < r[j];
    }
  }

  lemma GrewMeans(s: Sec, p: Pass)
    requires Proper(s, p)
    ensures WholePass(s, p, false).grew <==> Larger(p.sizes, WholePass(s, p, false).sizes)
  {
    var t := Trace(s, p, false);
    GrewSoFar(s, t, |s.atoms|);
  }
}
