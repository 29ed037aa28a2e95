/** Resolving all sections: a section is looked at again when labels that it depends on may have
    moved, until none is left. */
module Worklist {
  import opened Assembly
  import opened BitVectors
  import opened Layout

  /** The sizes in section s are not influenced by labels of a section that sizing does not
      record as used. */
  ghost predicate ReadsRecorded(s: Sec, secs: seq<Sec>) {
    forall p, a, b, t :: 0 <= t < |secs| && t != s.id && t !in s.size(p, a).used && SameElsewhere(secs[t], a, b)
                         ==> s.size(p, b) == s.size(p, a)
  }

  /** Sections are numbered in order, no label stands in two of them, and all dependencies of
      sizes are recorded. */
  ghost predicate WellFormed(secs: seq<Sec>) {
    && (forall k :: 0 <= k < |secs| ==> secs[k].id == k && ReadsRecorded(secs[k], secs))
    && (forall j, k, name :: 0 <= j < |secs| && 0 <= k < |secs| && j != k && Owns(secs[j], name)
                             ==> !Owns(secs[k], name))
  }

  /** When section t moves its labels, a settled section that is not a dependent of t stays
      settled. */
  lemma SettledStays(secs: seq<Sec>, k: nat, t: nat, labels: map<nat, int>, moved: map<nat, int>,
                     deps: seq<seq<Word>>, more: seq<seq<Word>>, sizes: seq<nat>, changes: seq<nat>)
    requires WellFormed(secs) && k < |secs| && t < |secs| && k != t && |deps| == |more| == |secs|
    requires |secs[k].atoms| == |sizes| == |changes| && SettledIn(secs[k], labels, deps, sizes, changes)
    requires SameElsewhere(secs[t], labels, moved) && !Has(more[t], k)
    requires forall u :: 0 <= u < |deps| && Has(deps[u], k) ==> Has(more[u], k)
    ensures SettledIn(secs[k], moved, more, sizes, changes)
  {
    var s := secs[k];
    forall j | 0 <= j < |s.atoms|
      ensures SizedAt(s, moved, sizes, changes, j) == SizedAt(s, labels, sizes, changes, j)
      ensures Fits(s, moved, sizes, changes, j)
    {
      assert Fits(s, labels, sizes, changes, j);
      assert t !in SizedAt(s, labels, sizes, changes, j).used;
      assert s.atoms[j].kind.LabelAtom? ==> Owns(s, s.atoms[j].kind.name);
    }
  }

  /** Distinct objects for the sections of one program. */
  ghost predicate Ready(secs: seq<Section>, all: seq<Sec>, a: Shared)
    reads secs, a
  {
    && |all| == |secs| == |a.deps| && Roomy(a.deps)
    && (forall k :: 0 <= k < |secs| ==> secs[k].s == all[k] && secs[k].Valid() && !secs[k].inRorg)
    && (forall j, k :: 0 <= j < k < |secs| ==> secs[j] != secs[k])
  }

  /** Every section that is not on the list is settled. */
  ghost predicate Pending(secs: seq<Section>, a: Shared, todo: seq<Word>)
    reads secs, a
  {
    forall k :: 0 <= k < |secs| && !Has(todo, k) ==> secs[k].Settled(a)
  }

  /** One section on the list is resolved. */
  method Step(secs: seq<Section>, ghost all: seq<Sec>, a: Shared, todo: array<Word>, t: nat, maxPasses: int)
    requires WellFormed(all) && Ready(secs, all, a) && t < |secs| && todo.Length == Words(|secs|)
    requires a.errors == 0 ==> Pending(secs, a, todo[..])
    modifies secs, a, todo
    ensures Ready(secs, all, a) && (a.errors == 0 ==> old(a.errors) == 0 && Pending(secs, a, todo[..]))
  {
    ghost var before := todo[..];
    var pass, run, used := secs[t].Resolve(a, maxPasses);
    assert todo[..] == before;
    ClearBit(todo, t);
    if pass > 1 {
      Unite(todo, a.deps[t]);
    }
    if a.errors == 0 {
      forall k | 0 <= k < |secs| && !Has(todo[..], k) ensures secs[k].Settled(a) {
        if k != t {
          assert !Has(before, k) && old(secs[k].Settled(a));
          if pass > 1 {
            SettledStays(all, k, t, old(a.labels), a.labels, old(a.deps), a.deps, secs[k].sizes, secs[k].changes);
          }
        }
      }
    }
  }

  /** No section is on the list. */
  ghost predicate Empty(todo: seq<Word>, n: nat) {
    forall k :: 0 <= k < n ==> !Has(todo, k)
  }

  /** One round over the list; `quiet` if there was nothing to do. */
  method Round(secs: seq<Section>, ghost all: seq<Sec>, a: Shared, todo: array<Word>, maxPasses: int)
    returns (quiet: bool)
    requires WellFormed(all) && Ready(secs, all, a) && todo.Length == Words(|secs|)
    requires a.errors == 0 ==> Pending(secs, a, todo[..])
    modifies secs, a, todo
    ensures Ready(secs, all, a) && (a.errors == 0 ==> Pending(secs, a, todo[..]))
    ensures quiet <==> Empty(old(todo[..]), |secs|)
    ensures quiet ==> todo[..] == old(todo[..])
  {
    quiet := true;
    for t := 0 to |secs|
      invariant Ready(secs, all, a) && (a.errors == 0 ==> Pending(secs, a, todo[..]))
      invariant quiet ==> todo[..] == old(todo[..])
      invariant quiet <==> forall k :: 0 <= k < t ==> !Has(old(todo[..]), k)
    {
      if Has(todo[..], t) {
        quiet := false;
        Step(secs, all, a, todo, t, maxPasses);
      }
    }
  }

  /** The lists with which rounds begin: all of them hold a section but the last one if the end is
      reached, and otherwise the rounds are used up. */
  ghost predicate Rounds(lists: seq<seq<Word>>, n: nat, rounds: nat, finished: bool) {
    && |lists| <= rounds && (!finished ==> |lists| == rounds)
    && (forall k :: 0 <= k < |lists| ==> (Empty(lists[k], n) <==> finished && k == |lists| - 1))
    && (finished ==> lists != [])
  }

  /** `resolve`, for at most the given number of rounds: when it comes to an end without an error,
      all sections have a consistent layout at the same time. It does so as soon as a round finds
      the list empty. */
  method Resolve(secs: seq<Section>, ghost all: seq<Sec>, a: Shared, maxPasses: int, rounds: nat)
    returns (finished: bool, ghost lists: seq<seq<Word>>)
    requires WellFormed(all) && Ready(secs, all, a)
    modifies secs, a
    ensures Rounds(lists, |secs|, rounds, finished)
    ensures Ready(secs, all, a)
    ensures finished && a.errors == 0 ==> forall k :: 0 <= k < |secs| ==> secs[k].Settled(a)
  {
    var todo := Full(|secs|);
    finished, lists := false, [];
    var left := rounds;
    while !finished && left > 0
      invariant Ready(secs, all, a) && (a.errors == 0 ==> Pending(secs, a, todo[..]))
      invariant finished ==> Empty(todo[..], |secs|)
      invariant |lists| + left == rounds && Rounds(lists, |secs|, |lists|, finished)
    {
      lists := lists + [todo[..]];
      finished := Round(secs, all, a, todo, maxPasses);
      left := left - 1;
    }
  }
}
