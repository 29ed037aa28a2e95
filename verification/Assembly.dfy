/** The state that resolving updates in place: label addresses, dependencies between sections,
    and the sizes of the atoms of each section. */
module Assembly {
  import opened BitVectors
  import Expressions
  import opened Layout
  import opened Resolver

  /** From d0 to d1 the sections in `used` other than id have got id into their dependents. */
  ghost predicate Recorded(d0: seq<seq<Word>>, d1: seq<seq<Word>>, used: set<nat>, id: nat) {
    |d0| == |d1| &&
    forall t: nat, k: nat :: t < |d0| ==> (Has(d1[t], k) <==> Has(d0[t], k) || (k == id && t in used && t != id))
  }

  /** Section s has a consistent layout, and it is a dependent of all other sections used. */
  ghost predicate SettledIn(s: Sec, labels: map<nat, int>, deps: seq<seq<Word>>, sizes: seq<nat>, changes: seq<nat>)
    requires |s.atoms| == |sizes| == |changes|
  {
    Consistent(s, labels, sizes, changes) && Covered(s, labels, deps, sizes, changes)
  }

  ghost predicate Covered(s: Sec, labels: map<nat, int>, deps: seq<seq<Word>>, sizes: seq<nat>, changes: seq<nat>)
    requires |s.atoms| == |sizes| == |changes|
  {
    forall j, t :: (0 <= j < |s.atoms| && 0 <= t < |deps| && t != s.id
                    && t in SizedAt(s, labels, sizes, changes, j).used) ==> Has(deps[t], s.id)
  }

  /** Each bit vector is missing or has room for all sections. */
  predicate Roomy(deps: seq<seq<Word>>) {
    forall t :: 0 <= t < |deps| ==> deps[t] == [] || |deps[t]| == Words(|deps|)
  }

  /** What all sections share. `deps[t]` has the sections to look at again when labels of
      section t have moved; it is empty until the first one is recorded. */
  class Shared {
    var labels: map<nat, int>
    var errors: nat
    var deps: seq<seq<Word>>

    constructor (labels: map<nat, int>, sections: nat)
      ensures this.labels == labels && errors == 0 && |deps| == sections && Roomy(deps)
      ensures forall t, k :: 0 <= t < sections ==> !Has(deps[t], k)
    {
      this.labels, errors, deps := labels, 0, seq(sections, _ => []);
    }

    /** `add_dep`: a value in section src depends on an address in section dest. */
    method AddDep(src: nat, dest: nat)
      requires Roomy(deps) && src < |deps| && dest < |deps|
      modifies this`deps
      ensures Roomy(deps) && Recorded(old(deps), deps, {dest}, src)
    {
      if src != dest {
        var bv := deps[dest];
        if bv == [] {
          bv := Empty(|deps|);
        }
        deps := deps[dest := WithBit(bv, src, true)];
      }
    }

    method AddDeps(src: nat, used: set<nat>)
      requires Roomy(deps) && src < |deps|
      modifies this`deps
      ensures Roomy(deps) && Recorded(old(deps), deps, used, src)
    {
      ghost var seen: set<nat> := {};
      for t := 0 to |deps|
        invariant Roomy(deps) && |deps| == old(|deps|)
        invariant Recorded(old(deps), deps, seen, src)
        invariant forall u :: u in seen <==> u in used && 0 <= u < t
      {
        if t in used {
          AddDep(src, t);
          seen := seen + {t};
        }
      }
    }
  }

  /** A section under resolution. The fields of the atoms that change are kept in two sequences. */
  class Section {
    const s: Sec
    var sizes: seq<nat>
    var changes: seq<nat>
    var pc: int
    var savedPc: int
    var rorgPc: int
    var inRorg: bool

    constructor (s: Sec, sizes: seq<nat>)
      requires |sizes| == |s.atoms|
      ensures this.s == s && this.sizes == sizes && this.changes == seq(|sizes|, _ => 0) && Valid()
    {
      this.s, this.sizes, changes := s, sizes, seq(|sizes|, _ => 0);
      pc, savedPc, rorgPc, inRorg := s.org, 0, 0, false;
    }

    predicate Valid()
      reads this
    {
      |sizes| == |changes| == |s.atoms|
    }

    function Position(): Walk
      reads this
    {
      Walk(pc, if inRorg then Open(savedPc, rorgPc) else Closed)
    }

    /** The state of a pass as a value. */
    ghost function Current(a: Shared, done: bool, grew: bool, used: set<nat>): Pass
      reads this, a
    {
      Pass(Position(), a.labels, sizes, changes, a.errors, done, grew, used)
    }

    /** Leaving a relocated org block. */
    method LeaveBlock()
      modifies this`pc, this`inRorg
      ensures Position() == Close(old(Position())) && !inRorg
    {
      if inRorg {
        pc := Expressions.Wrap(savedPc + (pc - rorgPc));
        inRorg := false;
      }
    }

    /** Moving on to an atom, up to the point where it is sized. */
    method ReachAtom(a: Shared, i: nat, done: bool, ghost grew: bool, ghost used: set<nat>) returns (still: bool)
      requires Valid() && i < |s.atoms|
      modifies this`pc, this`savedPc, this`rorgPc, this`inRorg, a`errors, a`labels
      ensures Current(a, still, grew, used) == Reach(s, old(Current(a, done, grew, used)), i)
      ensures a.errors >= old(a.errors)
    {
      var p := s.atoms[i];
      still := done;
      pc := Aligned(p, pc);
      match p.kind
      case Rorg(addr) =>
        if inRorg {
          a.errors := a.errors + 1;
        }
        savedPc, rorgPc, pc, inRorg := pc, addr, addr, true;
      case RorgEnd =>
        LeaveBlock();
      case LabelAtom(name) =>
        if name !in a.labels || a.labels[name] != pc {
          still := false;
          a.labels := a.labels[name := pc];
        }
      case _ =>
    }

    /** What the size functions have used so far is in the dependencies, which were deps before. */
    ghost predicate Noted(a: Shared, deps: seq<seq<Word>>, used: set<nat>)
      reads a
    {
      Roomy(a.deps) && s.id < |a.deps| && Recorded(deps, a.deps, used, s.id)
    }

    method NoteUsed(a: Shared, z: Sized, ghost deps: seq<seq<Word>>, ghost used: set<nat>)
      requires Noted(a, deps, used)
      modifies a`deps
      ensures Noted(a, deps, used + z.used)
    {
      a.AddDeps(s.id, z.used);
    }

    /** Sizing an atom. */
    method SizeAtom(a: Shared, i: nat, safe: bool, done: bool, ghost grew: bool, ghost deps: seq<seq<Word>>,
                    ghost used: set<nat>)
      returns (still: bool, larger: bool, ghost now: set<nat>)
      requires Valid() && i < |s.atoms| && Noted(a, deps, used)
      modifies this`sizes, this`changes, a`errors, a`deps
      ensures Valid() && Noted(a, deps, now)
      ensures var q := old(Current(a, done, grew, used));
              Current(a, still, grew || larger, now) == Resize(q, i, Measure(s, q, i), safe)
      ensures a.errors >= old(a.errors)
    {
      still, larger := done, false;
      var z := s.size(Place(i, pc, inRorg, changes[i] > MAX_SIZE_CHANGES), a.labels);
      NoteUsed(a, z, deps, used);
      now := used + z.used;
      a.errors := a.errors + z.errors;
      if z.bytes != sizes[i] {
        still := false;
        if safe {
          changes := changes[i := changes[i] + 1];
        } else if z.bytes > sizes[i] {
          larger := true;
        }
        sizes := sizes[i := z.bytes];
      }
    }

    /** The body of the loop over the atoms. */
    method VisitAtom(a: Shared, i: nat, safe: bool, done: bool, ghost grew: bool, ghost deps: seq<seq<Word>>,
                     ghost used: set<nat>)
      returns (still: bool, larger: bool, ghost now: set<nat>)
      requires Valid() && i < |s.atoms| && Noted(a, deps, used)
      modifies this, a
      ensures Valid() && Noted(a, deps, now)
      ensures Current(a, still, grew || larger, now) == Visit(s, old(Current(a, done, grew, used)), i, safe)
      ensures a.errors >= old(a.errors)
    {
      still := ReachAtom(a, i, done, grew, used);
      larger, now := false, used;
      if !(safe && !still && s.atoms[i].kind.Instruction?) {
        still, larger, now := SizeAtom(a, i, safe, still, grew, deps, used);
      }
      pc := Expressions.Wrap(pc + sizes[i]);
    }

    /** The pass that began with p stands at atom i. */
    ghost predicate Passing(p: Pass, a: Shared, safe: bool, i: nat, done: bool, grew: bool,
                            deps: seq<seq<Word>>, used: set<nat>)
      reads this, a
    {
      Proper(s, p) && i <= |s.atoms| && Valid() && Noted(a, deps, used)
      && Current(a, done, grew, used) == PassTo(s, p, safe, i)
    }

    method VisitNext(a: Shared, i: nat, safe: bool, done: bool, larger: bool,
                     ghost p: Pass, ghost deps: seq<seq<Word>>, ghost used: set<nat>)
      returns (still: bool, grew: bool, ghost now: set<nat>)
      requires i < |s.atoms| && Passing(p, a, safe, i, done, larger, deps, used)
      modifies this, a
      ensures Passing(p, a, safe, i + 1, still, grew, deps, now) && a.errors >= old(a.errors)
    {
      still, grew, now := VisitAtom(a, i, safe, done, larger, deps, used);
      grew := larger || grew;
    }

    /** One pass over the atoms. */
    method OnePass(a: Shared, safe: bool, ghost d: bool, ghost g: bool, ghost deps: seq<seq<Word>>,
                   ghost used: set<nat>)
      returns (done: bool, larger: bool, ghost now: set<nat>)
      requires Valid() && !inRorg && Noted(a, deps, used)
      modifies this, a
      ensures Valid() && !inRorg && Noted(a, deps, now)
      ensures Current(a, done, larger, now) == WholePass(s, old(Current(a, d, g, used)), safe)
      ensures a.errors >= old(a.errors)
    {
      ghost var p := Current(a, d, g, used);
      done, larger, now := true, false, used;
      pc := s.org;
      for i := 0 to |s.atoms|
        invariant Passing(p, a, safe, i, done, larger, deps, now) && a.errors >= old(a.errors)
      {
        done, larger, now := VisitNext(a, i, safe, done, larger, p, deps, now);
      }
      LeaveBlock();
    }

    /** The layout is consistent, and whatever it depends on will lead back here. */
    ghost predicate Settled(a: Shared)
      reads this, a
    {
      Valid() && SettledIn(s, a.labels, a.deps, sizes, changes)
    }

    /** The run ends in the present labels, sizes and change counts. */
    ghost predicate Reaches(run: seq<Run>, a: Shared, used: set<nat>)
      requires |run| > 0
      reads this, a
    {
      var last := run[|run| - 1].state;
      last.labels == a.labels && last.sizes == sizes && last.changes == changes && last.used == used
    }

    lemma ExtendRun(run: seq<Run>)
      requires IsRun(s, run)
      ensures IsRun(s, run + [NextPass(s, run[|run| - 1])])
    {
      var more := run + [NextPass(s, run[|run| - 1])];
      forall k | 0 <= k < |more| - 1 ensures Follows(s, more[k], more[k + 1]) {
        if k < |run| - 1 {
          assert Follows(s, run[k], run[k + 1]);
        }
      }
    }

    /** Where the loop over the passes stands. */
    ghost predicate Running(run: seq<Run>, first: Pass, a: Shared, pass: nat, fast: nat, used: set<nat>)
      reads this, a
    {
      && Valid() && IsRun(s, run) && run[0].state == first && |run| - 1 == pass
      && run[pass].pass == pass && run[pass].fast == fast
      && run[pass].state == Current(a, run[pass].state.done, run[pass].state.grew, used)
    }

    /** One more pass. */
    method NextRound(a: Shared, pass: nat, fast: nat, ghost first: Pass, ghost deps: seq<seq<Word>>,
                     ghost run: seq<Run>, ghost used: set<nat>)
      returns (done: bool, fastNow: nat, ghost more: seq<Run>, ghost now: set<nat>)
      requires !inRorg && Noted(a, deps, used) && Running(run, first, a, pass, fast, used)
      modifies this, a
      ensures !inRorg && Noted(a, deps, now) && Running(more, first, a, pass + 1, fastNow, now)
      ensures more[pass + 1].state.done == done && a.errors >= old(a.errors)
      ensures |more| == |run| + 1 && forall k :: 0 <= k < |run| ==> more[k] == run[k]
    {
      var safe := pass + 1 > fast;
      ghost var r := run[pass];
      var grew;
      done, grew, now := OnePass(a, safe, r.state.done, r.state.grew, deps, used);
      fastNow := if !safe && !grew then fast + 1 else fast;
      ExtendRun(run);
      more := run + [NextPass(s, r)];
    }

    /** After this pass there is another one. */
    predicate GoesOn(r: Run) {
      !r.state.done && r.state.errors == 0
    }

    /** Why the passes have ended: nothing has changed, there are errors, or the next pass would reach
        the limit, which is one more error. */
    ghost predicate Ended(run: seq<Run>, pass: nat, maxPasses: int, errors: nat) {
      && |run| > 0 && (forall k :: 0 < k < |run| - 1 ==> GoesOn(run[k]))
      && var last := run[|run| - 1];
      if pass < |run| then pass == |run| - 1 && pass > 0 && !GoesOn(last) && errors == last.state.errors
      else pass == |run| && pass >= maxPasses && (|run| > 1 ==> GoesOn(last)) && errors == last.state.errors + 1
    }

    /** `resolve_section`: passes until nothing changes, an error occurs, or the limit is reached.
        It returns the number of the last pass begun. */
    method Resolve(a: Shared, maxPasses: int) returns (pass: nat, ghost run: seq<Run>, ghost used: set<nat>)
      requires Valid() && !inRorg && Roomy(a.deps) && s.id < |a.deps|
      modifies this, a
      ensures Valid() && !inRorg && Noted(a, old(a.deps), used)
      ensures IsRun(s, run) && run[0].state == old(Current(a, true, false, {})) && Reaches(run, a, used)
      ensures a.errors == 0 ==> |run| - 1 == pass > 0 && run[pass].state.done
      ensures Ended(run, pass, maxPasses, a.errors)
      ensures 0 < maxPasses ==> pass <= maxPasses
      ensures a.errors >= old(a.errors) && SameElsewhere(s, old(a.labels), a.labels)
      ensures a.errors == 0 ==> Settled(a) && (pass == 1 ==> a.labels == old(a.labels))
    {
      var fast: nat, done := FAST_OPT_PHASE, false;
      pass, used := 0, {};
      ghost var first := Current(a, true, false, {});
      run := [Start(first)];
      while true
        invariant !inRorg && Noted(a, old(a.deps), used) && Running(run, first, a, pass, fast, used)
        invariant (0 < maxPasses ==> pass < maxPasses) && a.errors >= old(a.errors)
        invariant forall k :: 0 < k <= pass ==> GoesOn(run[k])
        decreases maxPasses - pass
      {
        if pass + 1 >= maxPasses {
          pass := pass + 1;
          a.errors := a.errors + 1;
          break;
        }
        done, fast, run, used := NextRound(a, pass, fast, first, old(a.deps), run, used);
        pass := pass + 1;
        if a.errors != 0 || done {
          break;
        }
      }
      RunMovesOwn(s, run, |run| - 1);
      if a.errors == 0 {
        RunEndsConsistent(s, run);
      }
    }

    /** Moving on to an atom while writing. */
    method PlaceAtom(a: Shared, i: nat)
      requires Valid() && i < |s.atoms|
      modifies this`pc, this`savedPc, this`rorgPc, this`inRorg, a`errors
      ensures Position() == Enter(s.atoms[i], old(Position()))
      ensures a.errors == old(a.errors) + if s.atoms[i].kind.RorgEnd? && !old(inRorg) then 1 else 0
    {
      pc := Aligned(s.atoms[i], pc);
      match s.atoms[i].kind
      case Rorg(addr) =>
        savedPc, rorgPc, pc, inRorg := pc, addr, addr, true;
      case RorgEnd =>
        if inRorg {
          LeaveBlock();
        } else {
          a.errors := a.errors + 1;
        }
      case _ =>
    }

    /** The backend writes as many bytes as it sized, at the places of this layout. */
    ghost predicate WritesAsSized(a: Shared, written: (Place, map<nat, int>) -> nat)
      requires Valid()
      reads this, a
    {
      forall i :: 0 <= i < |s.atoms| ==>
        written(PlaceOf(s, sizes, changes, i), a.labels) == s.size(PlaceOf(s, sizes, changes, i), a.labels).bytes
    }

    /** The address walk of `assemble`: after a consistent layout it meets every atom at the
        address it was resolved to. */
    method Assemble(a: Shared, written: (Place, map<nat, int>) -> nat) returns (addresses: seq<int>)
      requires Valid() && !inRorg && Consistent(s, a.labels, sizes, changes) && WritesAsSized(a, written)
      modifies this`pc, this`savedPc, this`rorgPc, this`inRorg, a`errors
      ensures |addresses| == |s.atoms|
      ensures forall i :: 0 <= i < |s.atoms| ==> addresses[i] == Address(s, sizes, i)
      ensures Position() == Close(Before(s, sizes, |s.atoms|)) && !inRorg
    {
      addresses := [];
      pc := s.org;
      for i := 0 to |s.atoms|
        invariant |addresses| == i && Position() == Before(s, sizes, i)
        invariant Consistent(s, a.labels, sizes, changes) && WritesAsSized(a, written)
        invariant forall j :: 0 <= j < i ==> addresses[j] == Address(s, sizes, j)
      {
        PlaceAtom(a, i);
        addresses := addresses + [pc];
        assert Fits(s, a.labels, sizes, changes, i);
        assert Position() == At(s, sizes, i);
        pc := Expressions.Wrap(pc + written(Place(i, pc, inRorg, changes[i] > MAX_SIZE_CHANGES), a.labels));
      }
      LeaveBlock();
    }
  }
}
