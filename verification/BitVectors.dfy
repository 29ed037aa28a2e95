/** Sets of section numbers, kept as arrays of machine words. */
module BitVectors {
  import opened Bitfields
  import opened Bits
  import Expressions
  import opened Operators

  /** A word, as a number; only its lowest 32 bits are looked at. */
  type Word = int

  const WORD_BITS := 32

  /** Words needed for n bits. */
  function Words(n: nat): nat {
    (n + WORD_BITS - 1) / WORD_BITS
  }

  /** The set that a bit vector stands for; bits beyond its end are clear. */
  predicate Has(bv: seq<Word>, k: nat) {
    k / WORD_BITS < |bv| && BitOf(bv[k / WORD_BITS], k % WORD_BITS)
  }

  /** A word with bit k set or cleared. */
  function Changed(w: Word, k: nat, on: bool): Word {
    Put(w, k, 1, if on then 1 else 0)
  }

  lemma ChangedBits(w: Word, k: nat, on: bool, j: nat)
    ensures BitOf(Changed(w, k, on), j) == if j == k then on else BitOf(w, j)
  {
    PutBits(w, k, 1, if on then 1 else 0, j);
  }

  /** Setting or clearing a bit adds its number to the set, or takes it out. */
  function WithBit(bv: seq<Word>, k: nat, on: bool): (r: seq<Word>)
    requires k / WORD_BITS < |bv|
    ensures |r| == |bv| && forall j :: Has(r, j) <==> if j == k then on else Has(bv, j)
  {
    var r := bv[k / WORD_BITS := Changed(bv[k / WORD_BITS], k % WORD_BITS, on)];
    assert forall j: nat :: Has(r, j) <==> if j == k then on else Has(bv, j) by {
      forall j: nat ensures Has(r, j) <==> if j == k then on else Has(bv, j) {
        ChangedBits(bv[k / WORD_BITS], k % WORD_BITS, on, j % WORD_BITS);
      }
    }
    r
  }

  /** `BCLR`, in place. */
  method ClearBit(bv: array<Word>, k: nat)
    requires k / WORD_BITS < bv.Length
    modifies bv
    ensures forall j :: Has(bv[..], j) <==> old(Has(bv[..], j)) && j != k
  {
    ghost var r := WithBit(bv[..], k, false);
    bv[k / WORD_BITS] := Changed(bv[k / WORD_BITS], k % WORD_BITS, false);
    assert bv[..] == r;
  }

  function Or(w: Word, v: Word): Word {
    Expressions.Bitwise(Expressions.BOr, w, v, WORD_BITS)
  }

  function Union(d: seq<Word>, s: seq<Word>): (r: seq<Word>)
    requires |s| <= |d|
    ensures |r| == |d| && forall j :: Has(r, j) <==> Has(d, j) || Has(s, j)
  {
    var r := seq(|d|, i requires 0 <= i < |d| => if i < |s| then Or(d[i], s[i]) else d[i]);
    assert forall j: nat :: Has(r, j) <==> Has(d, j) || Has(s, j) by {
      forall j: nat ensures Has(r, j) <==> Has(d, j) || Has(s, j) {
        if j / WORD_BITS < |s| {
          BitwiseBits(Expressions.BOr, d[j / WORD_BITS], s[j / WORD_BITS], WORD_BITS, j % WORD_BITS);
        }
      }
    }
    r
  }

  /** `bvunite`: the destination becomes the union. */
  method Unite(dest: array<Word>, src: seq<Word>)
    requires |src| <= dest.Length
    modifies dest
    ensures forall j :: Has(dest[..], j) <==> old(Has(dest[..], j)) || Has(src, j)
  {
    ghost var u := Union(dest[..], src);
    var i := 0;
    while i < |src|
      invariant i <= |src|
      invariant forall j :: 0 <= j < i ==> dest[j] == u[j]
      invariant forall j :: i <= j < dest.Length ==> dest[j] == old(dest[j])
    {
      assert u[i] == Or(dest[i], src[i]);
      dest[i] := Or(dest[i], src[i]);
      i := i + 1;
    }
    assert dest[..] == u;
  }

  lemma {:induction false} AllOnes(j: nat)
    ensures BitOf(-1, j)
    decreases j
  {
    if j > 0 {
      AllOnes(j - 1);
    }
  }

  /** A vector of all ones has every number up to its end. */
  method Full(n: nat) returns (bv: array<Word>)
    ensures fresh(bv) && bv.Length == Words(n)
    ensures forall j :: 0 <= j < n ==> Has(bv[..], j)
  {
    bv := new Word[Words(n)](_ => -1);
    forall j: nat | j < n ensures Has(bv[..], j) {
      AllOnes(j % WORD_BITS);
    }
  }

  /** A vector of zeros is the empty set. */
  function Empty(n: nat): (bv: seq<Word>)
    ensures |bv| == Words(n) && forall j :: !Has(bv, j)
  {
    var r := seq(Words(n), _ => 0);
    assert forall j: nat :: !Has(r, j) by {
      forall j: nat ensures !Has(r, j) {
        ZeroBits(j % WORD_BITS);
      }
    }
    r
  }
}
