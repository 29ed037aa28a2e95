/** The resolver: passes over one section until nothing changes, and the sections in turn until
    none has to be looked at again. */
module Resolver {
  import opened Layout

  /** All atoms of a section may change size in each of this many first passes. */
  const FAST_OPT_PHASE := 200

  // ---------- runs of passes ----------

  /** Between two passes: the state, the number of passes done, and the last pass of the fast
      phase as it stands. */
  datatype Run = Run(state: Pass, pass: nat, fast: nat)

  /** The next pass will be in safe mode. */
  predicate Safe(r: Run) {
    r.pass + 1 > r.fast
  }

  /** A fast pass in which no atom became larger extends the fast phase. */
  function NextPass(s: Sec, r: Run): (n: Run)
    requires Proper(s, r.state)
    ensures Proper(s, n.state)
  {
    var q := WholePass(s, r.state, Safe(r));
    Run(q, r.pass + 1, if !Safe(r) && !q.grew then r.fast + 1 else r.fast)
  }

  function Start(p: Pass): Run {
    Run(p, 0, FAST_OPT_PHASE)
  }

  /** A run of the resolver over a section, one state more than it has passes. */
  ghost predicate IsRun(s: Sec, r: seq<Run>) {
    && |r| > 0 && r[0] == Start(r[0].state)
    && (forall k :: 0 <= k < |r| ==> Proper(s, r[k].state))
    && forall k :: 0 <= k < |r| - 1 ==> Follows(s, r[k], r[k + 1])
  }

  ghost predicate Follows(s: Sec, p: Run, q: Run) {
    Proper(s, p.state) && Proper(s, q.state) && q == NextPass(s, p)
  }

  /** What is known about one pass. */
  ghost predicate PassStep(s: Sec, p: Run, q: Run) {
    && Proper(s, p.state) && Proper(s, q.state)
    && q.pass == p.pass + 1
    && q.fast == p.fast + (if !Safe(p) && !Larger(p.state.sizes, q.state.sizes) then 1 else 0)
    && (forall i :: 0 <= i < |s.atoms| ==>
          q.state.changes[i] == p.state.changes[i] + if SafelyResized(p, q, i) then 1 else 0)
    && (forall i, j :: 0 <= i < j < |s.atoms| && s.atoms[i].kind.Instruction? && s.atoms[j].kind.Instruction?
                       ==> !(SafelyResized(p, q, i) && SafelyResized(p, q, j)))
    && (DistinctLabels(s) ==> Laid(s, q.state.labels, q.state.sizes))
    && (Laid(s, p.state.labels, p.state.sizes) && p.state.sizes == q.state.sizes ==> q.state.done)
  }

  /** Atom i changes its size in a safe pass. */
  predicate SafelyResized(p: Run, q: Run, i: nat)
    requires i < |p.state.sizes| && i < |q.state.sizes|
  {
    Safe(p) && p.state.sizes[i] != q.state.sizes[i]
  }

  lemma PassSteps(s: Sec, p: Run, q: Run)
    requires Follows(s, p, q)
    ensures PassStep(s, p, q)
  {
    if !Safe(p) {
      GrewMeans(s, p.state);
    }
    forall i | 0 <= i < |s.atoms|
      ensures q.state.changes[i] == p.state.changes[i] + if SafelyResized(p, q, i) then 1 else 0
    {
      ChangesCounted(s, p.state, Safe(p), i);
    }
    forall i, j | 0 <= i < j < |s.atoms| && s.atoms[i].kind.Instruction? && s.atoms[j].kind.Instruction?
      ensures !(SafelyResized(p, q, i) && SafelyResized(p, q, j))
    {
      OneInstruction(s, p.state, i, j);
    }
    if DistinctLabels(s) {
      PassLays(s, p.state, Safe(p));
    }
    if Laid(s, p.state.labels, p.state.sizes) && !q.state.done {
      UnfinishedResizes(s, p.state, Safe(p));
    }
  }

  ghost predicate History(s: Sec, r: seq<Run>) {
    && |r| > 0 && r[0] == Start(r[0].state)
    && (forall k :: 0 <= k < |r| ==> Proper(s, r[k].state))
    && forall k :: 0 <= k < |r| - 1 ==> PassStep(s, r[k], r[k + 1])
  }

  lemma RunHistory(s: Sec, r: seq<Run>)
    requires IsRun(s, r)
    ensures History(s, r)
  {
    forall k | 0 <= k < |r| - 1 ensures PassStep(s, r[k], r[k + 1]) {
      PassSteps(s, r[k], r[k + 1]);
    }
  }

  // ---------- phases ----------

  /** How many of the first k passes were fast passes in which some atom became larger. */
  ghost function Growing(r: seq<Run>, k: nat): nat
    requires k < |r| && forall i, j :: 0 <= i < j < |r| ==> |r[i].state.sizes| == |r[j].state.sizes|
  {
    if k == 0 then 0
    else Growing(r, k - 1) + if !Safe(r[k - 1]) && Larger(r[k - 1].state.sizes, r[k].state.sizes) then 1 else 0
  }

  lemma {:induction false} Phases(s: Sec, r: seq<Run>, k: nat)
    requires History(s, r) && k < |r|
    ensures r[k].pass == k && Growing(r, k) <= FAST_OPT_PHASE
    ensures Safe(r[k]) <==> Growing(r, k) == FAST_OPT_PHASE
    ensures Safe(r[k]) || r[k].fast == FAST_OPT_PHASE + k - Growing(r, k)
  {
    if k > 0 {
      Phases(s, r, k - 1);
      assert PassStep(s, r[k - 1], r[k - 1 + 1]);
    }
  }

  /** Safe mode begins exactly when an atom has grown in 200 fast passes. */
  lemma SafeModeStarts(s: Sec, r: seq<Run>, k: nat)
    requires IsRun(s, r) && k < |r|
    ensures Safe(r[k]) <==> Growing(r, k) == FAST_OPT_PHASE
    ensures Growing(r, k) <= FAST_OPT_PHASE
  {
    RunHistory(s, r);
    Phases(s, r, k);
  }

  /** Safe mode never ends. */
  lemma {:induction false} SafeModeStays(s: Sec, r: seq<Run>, k: nat, m: nat)
    requires IsRun(s, r) && k <= m < |r| && Safe(r[k])
    ensures Safe(r[m])
    decreases m
  {
    if k < m {
      SafeModeStays(s, r, k, m - 1);
      PassSteps(s, r[m - 1], r[m - 1 + 1]);
    }
  }

  /** In how many of the first k passes atom i changed its size in safe mode. */
  function SafeResizes(r: seq<Run>, k: nat, i: nat): nat
    requires k < |r| && forall j :: 0 <= j < |r| ==> i < |r[j].state.sizes|
  {
    if k == 0 then 0 else SafeResizes(r, k - 1, i) + if SafelyResized(r[k - 1], r[k], i) then 1 else 0
  }

  lemma {:induction false} ChangesOf(s: Sec, r: seq<Run>, k: nat, i: nat)
    requires History(s, r) && k < |r| && i < |s.atoms|
    ensures r[k].state.changes[i] == r[0].state.changes[i] + SafeResizes(r, k, i)
  {
    if k > 0 {
      ChangesOf(s, r, k - 1, i);
      assert PassStep(s, r[k - 1], r[k - 1 + 1]);
      ChangeStep(s, r[k - 1], r[k], i);
    }
  }

  lemma ChangeStep(s: Sec, p: Run, q: Run, i: nat)
    requires PassStep(s, p, q) && i < |s.atoms|
    ensures q.state.changes[i] == p.state.changes[i] + if SafelyResized(p, q, i) then 1 else 0
  {}

  /** The change counter of an atom counts exactly its size changes in safe mode. */
  lemma ChangesAccount(s: Sec, r: seq<Run>, k: nat, i: nat)
    requires IsRun(s, r) && k < |r| && i < |s.atoms|
    ensures r[k].state.changes[i] == r[0].state.changes[i] + SafeResizes(r, k, i)
  {
    RunHistory(s, r);
    ChangesOf(s, r, k, i);
  }

  /** In no safe pass of a run two instructions change their sizes. */
  lemma SafePassChangesOne(s: Sec, r: seq<Run>, k: nat, i: nat, j: nat)
    requires IsRun(s, r) && k + 1 < |r| && i < j < |s.atoms|
    requires s.atoms[i].kind.Instruction? && s.atoms[j].kind.Instruction?
    ensures !(SafelyResized(r[k], r[k + 1], i) && SafelyResized(r[k], r[k + 1], j))
  {
    PassSteps(s, r[k], r[k + 1]);
  }

  // ---------- termination ----------

  function Sum(sizes: seq<nat>): nat {
    if sizes == [] then 0 else sizes[0] + Sum(sizes[1..])
  }

  lemma {:induction false} SumFalls(a: seq<nat>, b: seq<nat>)
    requires |a| == |b| && forall i :: 0 <= i < |a| ==> a[i] >= b[i]
    ensures Sum(a) >= Sum(b) && (a != b ==> Sum(a) > Sum(b))
  {
    if a != [] {
      SumFalls(a[1..], b[1..]);
      if a[0] == b[0] && a[1..] == b[1..] {
        assert a == [a[0]] + a[1..] && b == [b[0]] + b[1..];
      }
    }
  }

  /** No pass of the run is the last one, and no atom becomes larger in any of them. */
  ghost predicate Shrinking(s: Sec, r: seq<Run>) {
    forall k :: 0 <= k < |r| - 1 ==> Shrinks(s, r[k], r[k + 1])
  }

  ghost predicate Shrinks(s: Sec, p: Run, q: Run) {
    Proper(s, p.state) && Proper(s, q.state) && !q.state.done && !Larger(p.state.sizes, q.state.sizes)
  }

  /** From the second pass on, every pass costs at least one byte. */
  lemma {:induction false} EachPassShrinks(s: Sec, r: seq<Run>, k: nat)
    requires History(s, r) && DistinctLabels(s) && Shrinking(s, r) && 0 < k < |r|
    ensures Sum(r[k].state.sizes) + k - 1 <= Sum(r[0].state.sizes)
    ensures Laid(s, r[k].state.labels, r[k].state.sizes)
  {
    assert PassStep(s, r[k - 1], r[k - 1 + 1]);
    assert Shrinks(s, r[k - 1], r[k - 1 + 1]);
    SumFalls(r[k - 1].state.sizes, r[k].state.sizes);
    if k > 1 {
      EachPassShrinks(s, r, k - 1);
    }
  }

  /** So while no atom becomes larger, at most sum + 1 passes are not the last one. */
  lemma ShrinkingEnds(s: Sec, r: seq<Run>)
    requires IsRun(s, r) && DistinctLabels(s) && Shrinking(s, r)
    ensures |r| - 1 <= Sum(r[0].state.sizes) + 1
  {
    RunHistory(s, r);
    if |r| > 1 {
      EachPassShrinks(s, r, |r| - 1);
    }
  }

  // ---------- the end of a run ----------

  lemma {:induction false} RunMovesOwn(s: Sec, r: seq<Run>, k: nat)
    requires IsRun(s, r) && k < |r|
    ensures SameElsewhere(s, r[0].state.labels, r[k].state.labels)
  {
    if k > 0 {
      RunMovesOwn(s, r, k - 1);
      assert Follows(s, r[k - 1], r[k - 1 + 1]);
      PassMovesOwn(s, r[k - 1].state, Safe(r[k - 1]));
    }
  }

  /** A run that was not broken off ends in a consistent layout, in fast as in safe mode. If it
      took one pass only, no label has moved. */
  lemma RunEndsConsistent(s: Sec, r: seq<Run>)
    requires IsRun(s, r) && |r| > 1 && r[|r| - 1].state.done
    ensures var q := r[|r| - 1].state;
            && Consistent(s, q.labels, q.sizes, q.changes)
            && (forall j :: 0 <= j < |s.atoms| ==> SizedAt(s, q.labels, q.sizes, q.changes, j).used <= q.used)
            && (|r| == 2 ==> q.labels == r[0].state.labels)
  {
    var k := |r| - 2;
    assert Follows(s, r[k], r[k + 1]);
    FinishedPass(s, r[k].state, Safe(r[k]));
  }
}
