/** Relocation blocks of Amiga hunk files: relocations are sorted out of a list into blocks, and a
    reader finds exactly those. */
module Hunk {
  import opened Bitfields
  import opened Sequences

  const ABSRELOC32: nat := 1004
  const RELRELOC16: nat := 1005
  const RELRELOC8: nat := 1006
  const DREL32: nat := 1015
  const DREL16: nat := 1016
  const RELRELOC32: nat := 1021
  const RELRELOC26: nat := 1260

  datatype Reloc = Reloc(kind: nat, index: nat, offset: nat)

  /** One call of the block writer: which kind, with short offsets or long ones, in a block of an
      executable or of an object file, for so many sections. */
  datatype Block = Block(kind: nat, short: bool, exec: bool, sections: nat)

  // ---------- selection ----------

  predicate Wanted(r: Reloc, b: Block, index: nat) {
    r.kind == b.kind && r.index == index && (!b.short || r.offset < 0x1_0000)
  }

  /** Those among the first n. */
  function PickedTo(l: seq<Reloc>, b: Block, index: nat, n: nat): seq<Reloc>
    requires n <= |l|
  {
    if n == 0 then []
    else if Wanted(l[n - 1], b, index) then PickedTo(l, b, index, n - 1) + [l[n - 1]]
    else PickedTo(l, b, index, n - 1)
  }

  function UnpickedTo(l: seq<Reloc>, b: Block, index: nat, n: nat): seq<Reloc>
    requires n <= |l|
  {
    if n == 0 then []
    else if Wanted(l[n - 1], b, index) then UnpickedTo(l, b, index, n - 1)
    else UnpickedTo(l, b, index, n - 1) + [l[n - 1]]
  }

  function Picked(l: seq<Reloc>, b: Block, index: nat): seq<Reloc> {
    PickedTo(l, b, index, |l|)
  }

  function Unpicked(l: seq<Reloc>, b: Block, index: nat): seq<Reloc> {
    UnpickedTo(l, b, index, |l|)
  }

  /** The list after the relocations against the first n sections are taken out. */
  function Remaining(l: seq<Reloc>, b: Block, n: nat): seq<Reloc> {
    if n == 0 then l else Unpicked(Remaining(l, b, n - 1), b, n - 1)
  }

  /** What is taken out, section by section. */
  function Written(l: seq<Reloc>, b: Block, n: nat): seq<Reloc> {
    if n == 0 then [] else Written(l, b, n - 1) + Picked(Remaining(l, b, n - 1), b, n - 1)
  }

  lemma SplitMore(w: multiset<Reloc>, p: multiset<Reloc>, u: multiset<Reloc>, r: multiset<Reloc>, l: multiset<Reloc>)
    requires w + r == l && p + u == r
    ensures (w + p) + u == l
  {}

  lemma JoinBags(a: seq<Reloc>, b: seq<Reloc>)
    ensures multiset(a + b) == multiset(a) + multiset(b)
  {}

  lemma AddToBags(p: seq<Reloc>, u: seq<Reloc>, l: seq<Reloc>, x: seq<Reloc>)
    requires multiset(p) + multiset(u) == multiset(l)
    ensures multiset(p + x) + multiset(u) == multiset(l + x) && multiset(p) + multiset(u + x) == multiset(l + x)
  {
    JoinBags(l, x);
    JoinBags(p, x);
    JoinBags(u, x);
  }

  lemma {:induction false} PickSplitsTo(l: seq<Reloc>, b: Block, index: nat, n: nat)
    requires n <= |l|
    ensures multiset(PickedTo(l, b, index, n)) + multiset(UnpickedTo(l, b, index, n)) == multiset(l[..n])
  {
    if n > 0 {
      PickSplitsTo(l, b, index, n - 1);
      var p, u, x := PickedTo(l, b, index, n - 1), UnpickedTo(l, b, index, n - 1), [l[n - 1]];
      AddToBags(p, u, l[..n - 1], x);
      assert l[..n] == l[..n - 1] + x;
    } else {
      assert l[..0] == [];
    }
  }

  lemma PickSplits(l: seq<Reloc>, b: Block, index: nat)
    ensures multiset(Picked(l, b, index)) + multiset(Unpicked(l, b, index)) == multiset(l)
  {
    PickSplitsTo(l, b, index, |l|);
    assert l[..|l|] == l;
  }

  /** The list l has been dealt out to two lists. */
  predicate Dealt(w: seq<Reloc>, r: seq<Reloc>, l: seq<Reloc>) {
    multiset(w) + multiset(r) == multiset(l)
  }

  lemma PickDealt(l: seq<Reloc>, b: Block, index: nat)
    ensures Dealt(Picked(l, b, index), Unpicked(l, b, index), l)
  {
    PickSplits(l, b, index);
  }

  lemma DealtMore(w: seq<Reloc>, p: seq<Reloc>, u: seq<Reloc>, r: seq<Reloc>, l: seq<Reloc>)
    requires Dealt(w, r, l) && Dealt(p, u, r)
    ensures Dealt(w + p, u, l)
  {
    JoinBags(w, p);
    SplitMore(multiset(w), multiset(p), multiset(u), multiset(r), multiset(l));
  }

  lemma NothingDealt(l: seq<Reloc>)
    ensures Dealt([], l, l)
  {}

  lemma {:induction false} WrittenDealt(l: seq<Reloc>, b: Block, n: nat)
    ensures Dealt(Written(l, b, n), Remaining(l, b, n), l)
  {
    if n > 0 {
      var w, r := Written(l, b, n - 1), Remaining(l, b, n - 1);
      WrittenDealt(l, b, n - 1);
      PickDealt(r, b, n - 1);
      DealtMore(w, Picked(r, b, n - 1), Unpicked(r, b, n - 1), r, l);
    } else {
      NothingDealt(l);
    }
  }

  /** Nothing is lost, nothing is added. */
  lemma WrittenSplits(l: seq<Reloc>, b: Block, n: nat)
    ensures multiset(Written(l, b, n)) + multiset(Remaining(l, b, n)) == multiset(l)
  {
    WrittenDealt(l, b, n);
  }

  lemma {:induction false} PickPrefix(l: seq<Reloc>, r: Reloc, b: Block, index: nat, n: nat)
    requires n <= |l|
    ensures PickedTo(l + [r], b, index, n) == PickedTo(l, b, index, n)
  {
    if n > 0 {
      PickPrefix(l, r, b, index, n - 1);
    }
  }

  /** Taking out other sections does not disturb a group. */
  lemma {:induction false} PickAfterTo(l: seq<Reloc>, b: Block, other: nat, index: nat, n: nat)
    requires other != index && n <= |l|
    ensures Picked(UnpickedTo(l, b, other, n), b, index) == PickedTo(l, b, index, n)
  {
    if n > 0 {
      PickAfterTo(l, b, other, index, n - 1);
      PickPrefix(UnpickedTo(l, b, other, n - 1), l[n - 1], b, index, |UnpickedTo(l, b, other, n - 1)|);
    }
  }

  /** So each group is written in the order of the list that the call was given. */
  lemma {:induction false} GroupOrder(l: seq<Reloc>, b: Block, n: nat, index: nat)
    requires n <= index
    ensures Picked(Remaining(l, b, n), b, index) == Picked(l, b, index)
  {
    if n > 0 {
      GroupOrder(l, b, n - 1, index);
      PickAfterTo(Remaining(l, b, n - 1), b, n - 1, index, |Remaining(l, b, n - 1)|);
    }
  }

  // ---------- bytes ----------

  function W16(v: nat): (b: seq<Byte>)
    requires v < 0x1_0000
    ensures |b| == 2
  {
    [v / 256, v % 256]
  }

  function W32(v: nat): (b: seq<Byte>)
    requires v < 0x1_0000_0000
    ensures |b| == 4
  {
    W16(v / 0x1_0000) + W16(v % 0x1_0000)
  }

  /** Counts, indices and offsets have 16 or 32 bits. */
  function Limit(short: bool): nat {
    if short then 0x1_0000 else 0x1_0000_0000
  }

  function Word(v: nat, short: bool): (b: seq<Byte>)
    requires v < Limit(short)
    ensures |b| == Width(short)
  {
    if short then W16(v) else W32(v)
  }

  function Width(short: bool): nat {
    if short then 2 else 4
  }

  function Get16(b: seq<Byte>): (v: nat)
    requires |b| == 2
    ensures v < 0x1_0000
  {
    256 * b[0] as int + b[1]
  }

  function GetWord(b: seq<Byte>, short: bool): (v: nat)
    requires |b| >= Width(short)
    ensures v < Limit(short)
  {
    if short then Get16(b[..2]) else 0x1_0000 * Get16(b[..2]) + Get16(b[2..4])
  }

  lemma WordBack(v: nat, short: bool, rest: seq<Byte>)
    requires v < Limit(short)
    ensures GetWord(Word(v, short) + rest, short) == v && (Word(v, short) + rest)[Width(short)..] == rest
  {
    var b := Word(v, short) + rest;
    if short {
      assert b[..2] == W16(v);
    } else {
      assert b[..2] == W16(v / 0x1_0000) && b[2..4] == W16(v % 0x1_0000);
    }
  }

  // ---------- blocks ----------

  function Offsets(l: seq<Reloc>, short: bool): (b: seq<Byte>)
    requires Fits(l, short)
  {
    if l == [] then [] else Word(l[0].offset, short) + Offsets(l[1..], short)
  }

  predicate Fits(l: seq<Reloc>, short: bool) {
    forall k :: 0 <= k < |l| ==> l[k].offset < Limit(short)
  }

  /** Entries of one chunk at most. */
  function ChunkLimit(b: Block, n: nat): nat {
    if b.short && n > 0xffff then 0xffff else if !b.short && b.exec && n > 0x1_0000 then 0x1_0000 else n
  }

  /** The chunks of one section: count, index, offsets. */
  function Chunks(l: seq<Reloc>, b: Block, index: nat): seq<Byte>
    requires Fits(l, b.short) && index < Limit(b.short) && |l| < 0x1_0000_0000
    decreases |l|
  {
    if l == [] then []
    else
      var n := ChunkLimit(b, |l|);
      Word(n, b.short) + (Word(index, b.short) + (Offsets(l[..n], b.short) + Chunks(l[n..], b, index)))
  }

  function Id(b: Block): nat {
    if b.short && b.kind == ABSRELOC32 then DREL32 else b.kind
  }

  /** The chunks of the first n sections; every group is picked from what is left of the list. */
  function AllChunks(l: seq<Reloc>, b: Block, n: nat): seq<Byte>
    requires Writable(l, b) && n <= b.sections
  {
    if n == 0 then []
    else
      RemainingFits(l, b, n - 1);
      PickedFits(Remaining(l, b, n - 1), b, n - 1);
      AllChunks(l, b, n - 1) + Chunks(Picked(Remaining(l, b, n - 1), b, n - 1), b, n - 1)
  }

  /** Offsets and indices have 32 bits, the indices of short relocations 16. */
  predicate Writable(l: seq<Reloc>, b: Block) {
    Fits(l, false) && |l| < 0x1_0000_0000 && b.sections <= Limit(b.short) && Id(b) < 0x1_0000_0000
  }

  lemma {:induction false} PickedFitsTo(l: seq<Reloc>, b: Block, index: nat, n: nat)
    requires n <= |l| && Fits(l, false)
    ensures |PickedTo(l, b, index, n)| <= n && |UnpickedTo(l, b, index, n)| <= n
    ensures Fits(PickedTo(l, b, index, n), b.short) && Fits(UnpickedTo(l, b, index, n), false)
  {
    if n > 0 {
      PickedFitsTo(l, b, index, n - 1);
    }
  }

  lemma PickedFits(l: seq<Reloc>, b: Block, index: nat)
    requires Fits(l, false)
    ensures |Picked(l, b, index)| <= |l| && |Unpicked(l, b, index)| <= |l|
    ensures Fits(Picked(l, b, index), b.short) && Fits(Unpicked(l, b, index), false)
  {
    PickedFitsTo(l, b, index, |l|);
  }

  lemma {:induction false} RemainingFits(l: seq<Reloc>, b: Block, n: nat)
    requires Fits(l, false)
    ensures |Remaining(l, b, n)| <= |l| && Fits(Remaining(l, b, n), false)
  {
    if n > 0 {
      RemainingFits(l, b, n - 1);
      PickedFits(Remaining(l, b, n - 1), b, n - 1);
    }
  }

  /** Zeros up to the next longword, behind a short block with n entries. */
  function Fill(b: Block, n: nat): seq<Byte> {
    if b.short && n % 2 == 0 then [0, 0] else []
  }

  function Tail(b: Block, n: nat): seq<Byte> {
    Word(0, b.short) + Fill(b, n)
  }

  /** What one call writes. */
  function BlockBytes(l: seq<Reloc>, b: Block): seq<Byte>
    requires Writable(l, b)
  {
    var w := Written(l, b, b.sections);
    if w == [] then [] else W32(Id(b)) + (AllChunks(l, b, b.sections) + Tail(b, |w|))
  }

  // ---------- the reader ----------

  datatype Read = Read(relocs: seq<Reloc>, rest: seq<Byte>)

  function ReadOffsets(b: seq<Byte>, n: nat, short: bool, kind: nat, index: nat): Option<Read>
    decreases n
  {
    if n == 0 then Some(Read([], b))
    else if |b| < Width(short) then None
    else
      match ReadOffsets(b[Width(short)..], n - 1, short, kind, index)
      case None => None
      case Some(r) => Some(Read([Reloc(kind, index, GetWord(b, short))] + r.relocs, r.rest))
  }

  /** Chunks up to an empty one. */
  function ReadChunks(b: seq<Byte>, short: bool, kind: nat): Option<Read>
    decreases |b|
  {
    if |b| < Width(short) then None
    else
      var n, b1 := GetWord(b, short), b[Width(short)..];
      if n == 0 then Some(Read([], b1))
      else if |b1| < Width(short) then None
      else
        match ReadOffsets(b1[Width(short)..], n, short, kind, GetWord(b1, short))
        case None => None
        case Some(r) =>
          if |r.rest| >= |b| then None
          else
            match ReadChunks(r.rest, short, kind)
            case None => None
            case Some(more) => Some(Read(r.relocs + more.relocs, more.rest))
  }

  /** In executables two kinds of blocks have short words. */
  predicate ShortId(id: nat, exec: bool) {
    exec && (id == DREL32 || id == RELRELOC32)
  }

  /** A block; short ones are filled up to a longword. */
  function ReadBlock(b: seq<Byte>, exec: bool): Option<Read> {
    if |b| < 4 then None
    else
      var id := GetWord(b, false);
      var short := ShortId(id, exec);
      match ReadChunks(b[4..], short, if short && id == DREL32 then ABSRELOC32 else id)
      case None => None
      case Some(r) =>
        var skip := if short && |r.relocs| % 2 == 0 then 2 else 0;
        if |r.rest| < skip then None else Some(Read(r.relocs, r.rest[skip..]))
  }

  /** The reader can tell the width of the block from its id. */
  predicate Known(b: Block) {
    ShortId(Id(b), b.exec) == b.short && (b.short || Id(b) == b.kind)
    && (b.short && b.kind != ABSRELOC32 ==> b.kind == RELRELOC32)
  }

  // ---------- the reader undoes the writer ----------

  /** All relocations are of one kind and against one section. */
  predicate Group(l: seq<Reloc>, kind: nat, index: nat) {
    forall k :: 0 <= k < |l| ==> l[k].kind == kind && l[k].index == index
  }

  lemma {:induction false} OffsetsBack(l: seq<Reloc>, short: bool, kind: nat, index: nat, rest: seq<Byte>)
    requires Fits(l, short) && Group(l, kind, index)
    ensures ReadOffsets(Offsets(l, short) + rest, |l|, short, kind, index) == Some(Read(l, rest))
  {
    if l == [] {
      assert Offsets(l, short) + rest == rest;
    } else {
      OffsetsBack(l[1..], short, kind, index, rest);
      Associative(Word(l[0].offset, short), Offsets(l[1..], short), rest);
      WordBack(l[0].offset, short, Offsets(l[1..], short) + rest);
      HeadTail(l);
    }
  }

  lemma ChunkBack(l: seq<Reloc>, b: Block, index: nat, rest: seq<Byte>, more: seq<Reloc>, tail: seq<Byte>)
    requires 0 < |l| < Limit(b.short) && Fits(l, b.short) && Group(l, b.kind, index) && index < Limit(b.short)
    requires ReadChunks(rest, b.short, b.kind) == Some(Read(more, tail))
    ensures ReadChunks(Word(|l|, b.short) + (Word(index, b.short) + (Offsets(l, b.short) + rest)), b.short, b.kind)
            == Some(Read(l + more, tail))
  {
    WordBack(|l|, b.short, Word(index, b.short) + (Offsets(l, b.short) + rest));
    WordBack(index, b.short, Offsets(l, b.short) + rest);
    OffsetsBack(l, b.short, b.kind, index, rest);
  }

  lemma SplitAt<T>(l: seq<T>, n: nat, more: seq<T>)
    requires n <= |l|
    ensures l[..n] + (l[n..] + more) == l + more
  {}

  lemma {:induction false} ChunksBack(l: seq<Reloc>, b: Block, index: nat, rest: seq<Byte>, more: seq<Reloc>,
                                      tail: seq<Byte>)
    requires Fits(l, b.short) && Group(l, b.kind, index) && index < Limit(b.short) && |l| < 0x1_0000_0000
    requires ReadChunks(rest, b.short, b.kind) == Some(Read(more, tail))
    ensures ReadChunks(Chunks(l, b, index) + rest, b.short, b.kind) == Some(Read(l + more, tail))
    decreases |l|
  {
    if l == [] {
      assert Chunks(l, b, index) + rest == rest && l + more == more;
    } else {
      var n := ChunkLimit(b, |l|);
      ChunksBack(l[n..], b, index, rest, more, tail);
      ChunkBack(l[..n], b, index, Chunks(l[n..], b, index) + rest, l[n..] + more, tail);
      RegroupFour(Word(n, b.short), Word(index, b.short), Offsets(l[..n], b.short), Chunks(l[n..], b, index), rest);
      SplitAt(l, n, more);
    }
  }

  lemma {:induction false} PickedGroup(l: seq<Reloc>, b: Block, index: nat, n: nat)
    requires n <= |l|
    ensures Group(PickedTo(l, b, index, n), b.kind, index)
  {
    if n > 0 {
      PickedGroup(l, b, index, n - 1);
    }
  }

  /** Reading the chunks in x gives the relocations l and stops in front of tail. */
  predicate Gives(x: seq<Byte>, b: Block, l: seq<Reloc>, tail: seq<Byte>) {
    ReadChunks(x, b.short, b.kind) == Some(Read(l, tail))
  }

  lemma SectionBack(l: seq<Reloc>, b: Block, n: nat, rest: seq<Byte>, more: seq<Reloc>, tail: seq<Byte>)
    requires Writable(l, b) && n < b.sections && Gives(rest, b, more, tail)
    ensures Fits(Remaining(l, b, n), false)
    ensures var p := Picked(Remaining(l, b, n), b, n);
            && Fits(p, b.short) && |p| < 0x1_0000_0000
            && Gives(Chunks(p, b, n) + rest, b, p + more, tail)
  {
    var r := Remaining(l, b, n);
    RemainingFits(l, b, n);
    PickedFits(r, b, n);
    PickedGroup(r, b, n, |r|);
    ChunksBack(Picked(r, b, n), b, n, rest, more, tail);
  }

  lemma {:induction false} AllChunksBack(l: seq<Reloc>, b: Block, n: nat, rest: seq<Byte>, more: seq<Reloc>,
                                         tail: seq<Byte>)
    requires Writable(l, b) && n <= b.sections && Gives(rest, b, more, tail)
    ensures Gives(AllChunks(l, b, n) + rest, b, Written(l, b, n) + more, tail)
    decreases n
  {
    if n == 0 {
      NothingFirst(rest);
      NothingFirst(more);
    } else {
      SectionBack(l, b, n - 1, rest, more, tail);
      var p := Picked(Remaining(l, b, n - 1), b, n - 1);
      var c := Chunks(p, b, n - 1);
      AllChunksBack(l, b, n - 1, c + rest, p + more, tail);
      NextChunks(l, b, n - 1, p, c, rest, more, tail);
    }
  }

  lemma {:induction false} NextChunks(l: seq<Reloc>, b: Block, n: nat, p: seq<Reloc>, c: seq<Byte>,
                                      rest: seq<Byte>, more: seq<Reloc>, tail: seq<Byte>)
    requires Writable(l, b) && n < b.sections && p == Picked(Remaining(l, b, n), b, n)
    requires Fits(p, b.short) && n < Limit(b.short) && |p| < 0x1_0000_0000 && c == Chunks(p, b, n)
    requires Gives(AllChunks(l, b, n) + (c + rest), b, Written(l, b, n) + (p + more), tail)
    ensures Gives(AllChunks(l, b, n + 1) + rest, b, Written(l, b, n + 1) + more, tail)
  {
    OneMoreSection(AllChunks(l, b, n), c, rest, Written(l, b, n), p, more, b, tail);
  }

  lemma OneMoreSection(x: seq<Byte>, c: seq<Byte>, rest: seq<Byte>, w: seq<Reloc>, p: seq<Reloc>, more: seq<Reloc>,
                       b: Block, tail: seq<Byte>)
    requires Gives(x + (c + rest), b, w + (p + more), tail)
    ensures Gives((x + c) + rest, b, (w + p) + more, tail)
  {
    Associative(x, c, rest);
    Associative(w, p, more);
  }

  lemma EndBack(short: bool, kind: nat, rest: seq<Byte>)
    ensures ReadChunks(Word(0, short) + rest, short, kind) == Some(Read([], rest))
  {
    WordBack(0, short, rest);
  }

  /** The body of a block: chunks, an empty chunk, filling. */
  lemma BodyBack(l: seq<Reloc>, b: Block, rest: seq<Byte>)
    requires Writable(l, b)
    ensures var w := Written(l, b, b.sections);
            ReadChunks(AllChunks(l, b, b.sections) + (Word(0, b.short) + (Fill(b, |w|) + rest)), b.short, b.kind)
            == Some(Read(w, Fill(b, |w|) + rest))
  {
    var w := Written(l, b, b.sections);
    EndBack(b.short, b.kind, Fill(b, |w|) + rest);
    AllChunksBack(l, b, b.sections, Word(0, b.short) + (Fill(b, |w|) + rest), [], Fill(b, |w|) + rest);
    assert w + [] == w;
  }

  /** Reading a written block gives its relocations and stops behind it. */
  lemma BlockBack(l: seq<Reloc>, b: Block, rest: seq<Byte>)
    requires Writable(l, b) && Known(b) && Written(l, b, b.sections) != []
    ensures ReadBlock(BlockBytes(l, b) + rest, b.exec) == Some(Read(Written(l, b, b.sections), rest))
  {
    var w, chunks := Written(l, b, b.sections), AllChunks(l, b, b.sections);
    BodyBack(l, b, rest);
    var body := chunks + (Word(0, b.short) + (Fill(b, |w|) + rest));
    WordBack(Id(b), false, body);
    RegroupFour(W32(Id(b)), chunks, Word(0, b.short), Fill(b, |w|), rest);
    DropPrefix(Fill(b, |w|), rest);
  }

  // ---------- sequences of blocks ----------

  function LeftAfter(l: seq<Reloc>, bs: seq<Block>): seq<Reloc> {
    if bs == [] then l else Remaining(LeftAfter(l, bs[..|bs| - 1]), bs[|bs| - 1], bs[|bs| - 1].sections)
  }

  function AllWritten(l: seq<Reloc>, bs: seq<Block>): seq<Reloc> {
    if bs == [] then []
    else AllWritten(l, bs[..|bs| - 1]) + Written(LeftAfter(l, bs[..|bs| - 1]), bs[|bs| - 1], bs[|bs| - 1].sections)
  }

  lemma {:induction false} AllDealt(l: seq<Reloc>, bs: seq<Block>)
    ensures Dealt(AllWritten(l, bs), LeftAfter(l, bs), l)
  {
    if bs != [] {
      var init, b := bs[..|bs| - 1], bs[|bs| - 1];
      var r := LeftAfter(l, init);
      AllDealt(l, init);
      WrittenDealt(r, b, b.sections);
      DealtMore(AllWritten(l, init), Written(r, b, b.sections), Remaining(r, b, b.sections), r, l);
    } else {
      NothingDealt(l);
    }
  }

  /** Over all calls, what is written and what is left to be reported is the whole list. */
  lemma Conserved(l: seq<Reloc>, bs: seq<Block>)
    ensures multiset(AllWritten(l, bs)) + multiset(LeftAfter(l, bs)) == multiset(l)
  {
    AllDealt(l, bs);
  }

  // ---------- order ----------

  /** The relocations of l that satisfy p, in order. */
  function Kept(l: seq<Reloc>, p: Reloc -> bool): seq<Reloc> {
    KeptTo(l, p, |l|)
  }

  function KeptTo(l: seq<Reloc>, p: Reloc -> bool, n: nat): seq<Reloc>
    requires n <= |l|
  {
    if n == 0 then [] else KeptTo(l, p, n - 1) + if p(l[n - 1]) then [l[n - 1]] else []
  }

  lemma {:induction false} KeptSame(l: seq<Reloc>, p: Reloc -> bool, q: Reloc -> bool, n: nat)
    requires n <= |l| && forall r: Reloc :: p(r) == q(r)
    ensures KeptTo(l, p, n) == KeptTo(l, q, n)
  {
    if n > 0 {
      KeptSame(l, p, q, n - 1);
    }
  }

  lemma {:induction false} KeptAll(l: seq<Reloc>, p: Reloc -> bool, n: nat)
    requires n <= |l| && forall r: Reloc :: p(r)
    ensures KeptTo(l, p, n) == l[..n]
  {
    if n > 0 {
      KeptAll(l, p, n - 1);
      assert l[..n] == l[..n - 1] + [l[n - 1]];
    }
  }

  lemma {:induction false} KeptPrefix(l: seq<Reloc>, r: Reloc, p: Reloc -> bool, n: nat)
    requires n <= |l|
    ensures KeptTo(l + [r], p, n) == KeptTo(l, p, n)
  {
    if n > 0 {
      KeptPrefix(l, r, p, n - 1);
    }
  }

  /** Two filters, one after the other. */
  lemma {:induction false} KeptTwice(l: seq<Reloc>, p: Reloc -> bool, q: Reloc -> bool, both: Reloc -> bool, n: nat)
    requires n <= |l| && forall r: Reloc :: both(r) == (p(r) && q(r))
    ensures Kept(KeptTo(l, p, n), q) == KeptTo(l, both, n)
  {
    if n > 0 {
      KeptTwice(l, p, q, both, n - 1);
      var k, r := KeptTo(l, p, n - 1), l[n - 1];
      KeptPrefix(k, r, q, |k|);
      assert k + [] == k && (k + [r])[|k|] == r;
    }
  }

  lemma {:induction false} PickedIsKept(l: seq<Reloc>, b: Block, index: nat, n: nat)
    requires n <= |l|
    ensures PickedTo(l, b, index, n) == KeptTo(l, r => Wanted(r, b, index), n)
    ensures UnpickedTo(l, b, index, n) == KeptTo(l, r => !Wanted(r, b, index), n)
  {
    if n > 0 {
      PickedIsKept(l, b, index, n - 1);
    }
  }

  /** A call writes this relocation in the group of one of its first n sections. */
  predicate Takes(b: Block, r: Reloc, n: nat) {
    r.index < n && Wanted(r, b, r.index)
  }

  lemma {:induction false} RemainingIsKept(l: seq<Reloc>, b: Block, n: nat)
    ensures Remaining(l, b, n) == Kept(l, r => !Takes(b, r, n))
  {
    if n == 0 {
      KeptAll(l, r => !Takes(b, r, 0), |l|);
    } else {
      RemainingIsKept(l, b, n - 1);
      var before, rest := Remaining(l, b, n - 1), (r: Reloc) => !Wanted(r, b, n - 1);
      PickedIsKept(before, b, n - 1, |before|);
      KeptTwice(l, r => !Takes(b, r, n - 1), rest, r => !Takes(b, r, n), |l|);
    }
  }

  /** None of the calls takes this relocation. */
  predicate Free(bs: seq<Block>, r: Reloc) {
    bs == [] || (Free(bs[..|bs| - 1], r) && !Takes(bs[|bs| - 1], r, bs[|bs| - 1].sections))
  }

  /** What is left after some calls: what they do not take, in order. */
  lemma {:induction false} LeftIsKept(l: seq<Reloc>, bs: seq<Block>)
    ensures LeftAfter(l, bs) == Kept(l, r => Free(bs, r))
  {
    if bs == [] {
      KeptAll(l, r => Free(bs, r), |l|);
    } else {
      var init, b := bs[..|bs| - 1], bs[|bs| - 1];
      LeftIsKept(l, init);
      RemainingIsKept(LeftAfter(l, init), b, b.sections);
      KeptTwice(l, r => Free(init, r), r => !Takes(b, r, b.sections), r => Free(bs, r), |l|);
    }
  }

  /** The group of a section, after other groups and after other calls: what is wanted for it and
      not taken by an earlier call, in the order of the original list. */
  lemma RunOrder(l: seq<Reloc>, bs: seq<Block>, b: Block, index: nat)
    ensures Picked(Remaining(LeftAfter(l, bs), b, index), b, index) == Kept(l, r => Free(bs, r) && Wanted(r, b, index))
  {
    var left := LeftAfter(l, bs);
    GroupOrder(left, b, index, index);
    PickedIsKept(left, b, index, |left|);
    LeftIsKept(l, bs);
    KeptTwice(l, r => Free(bs, r), r => Wanted(r, b, index), r => Free(bs, r) && Wanted(r, b, index), |l|);
  }

  /** The groups of the first n sections of a call, after other calls. */
  function Groups(l: seq<Reloc>, before: seq<Block>, b: Block, n: nat): seq<Reloc> {
    if n == 0 then [] else Groups(l, before, b, n - 1) + Kept(l, r => Free(before, r) && Wanted(r, b, n - 1))
  }

  /** The groups of all calls. */
  function AllGroups(l: seq<Reloc>, bs: seq<Block>): seq<Reloc> {
    if bs == [] then []
    else AllGroups(l, bs[..|bs| - 1]) + Groups(l, bs[..|bs| - 1], bs[|bs| - 1], bs[|bs| - 1].sections)
  }

  lemma {:induction false} WrittenIsGroups(l: seq<Reloc>, before: seq<Block>, b: Block, n: nat)
    ensures Written(LeftAfter(l, before), b, n) == Groups(l, before, b, n)
  {
    if n > 0 {
      WrittenIsGroups(l, before, b, n - 1);
      RunOrder(l, before, b, n - 1);
    }
  }

  /** All that is written, group by group, each in the order of the original list. */
  lemma {:induction false} AllWrittenIsGroups(l: seq<Reloc>, bs: seq<Block>)
    ensures AllWritten(l, bs) == AllGroups(l, bs)
  {
    if bs != [] {
      AllWrittenIsGroups(l, bs[..|bs| - 1]);
      WrittenIsGroups(l, bs[..|bs| - 1], bs[|bs| - 1], bs[|bs| - 1].sections);
    }
  }

  // ---------- bytes of all calls ----------

  predicate AllWritable(l: seq<Reloc>, bs: seq<Block>) {
    bs == []
    || (AllWritable(l, bs[..|bs| - 1]) && Writable(LeftAfter(l, bs[..|bs| - 1]), bs[|bs| - 1]) && Known(bs[|bs| - 1]))
  }

  function AllBytes(l: seq<Reloc>, bs: seq<Block>): seq<Byte>
    requires AllWritable(l, bs)
  {
    if bs == [] then [] else AllBytes(l, bs[..|bs| - 1]) + BlockBytes(LeftAfter(l, bs[..|bs| - 1]), bs[|bs| - 1])
  }

  predicate RelocId(id: nat) {
    id == ABSRELOC32 || id == RELRELOC16 || id == RELRELOC8 || id == DREL32 || id == DREL16 || id == RELRELOC32
    || id == RELRELOC26
  }

  /** Reading blocks as long as there are any. */
  function ReadAll(b: seq<Byte>, exec: bool): Option<Read>
    decreases |b|
  {
    if |b| < 4 || !RelocId(GetWord(b, false)) then Some(Read([], b))
    else
      match ReadBlock(b, exec)
      case None => None
      case Some(r) =>
        if |r.rest| >= |b| then None
        else
          match ReadAll(r.rest, exec)
          case None => None
          case Some(more) => Some(Read(r.relocs + more.relocs, more.rest))
  }

  predicate OneFile(bs: seq<Block>, exec: bool) {
    forall k :: 0 <= k < |bs| ==> bs[k].exec == exec && RelocId(Id(bs[k]))
  }

  lemma BlockFirst(l: seq<Reloc>, b: Block, rest: seq<Byte>, more: seq<Reloc>, tail: seq<Byte>)
    requires Writable(l, b) && Known(b) && RelocId(Id(b)) && ReadAll(rest, b.exec) == Some(Read(more, tail))
    ensures ReadAll(BlockBytes(l, b) + rest, b.exec) == Some(Read(Written(l, b, b.sections) + more, tail))
  {
    var w := Written(l, b, b.sections);
    if w == [] {
      assert BlockBytes(l, b) + rest == rest && w + more == more;
    } else {
      BlockBack(l, b, rest);
      var body := AllChunks(l, b, b.sections) + Tail(b, |w|);
      WordBack(Id(b), false, body + rest);
      Associative(W32(Id(b)), body, rest);
    }
  }

  /** Reading the blocks of a whole section gives all that was written, in order. */
  lemma {:induction false} AllBack(l: seq<Reloc>, bs: seq<Block>, exec: bool, rest: seq<Byte>, more: seq<Reloc>,
                                   tail: seq<Byte>)
    requires AllWritable(l, bs) && OneFile(bs, exec) && ReadAll(rest, exec) == Some(Read(more, tail))
    ensures ReadAll(AllBytes(l, bs) + rest, exec) == Some(Read(AllWritten(l, bs) + more, tail))
    decreases |bs|
  {
    if bs == [] {
      assert AllBytes(l, bs) + rest == rest && AllWritten(l, bs) + more == more;
    } else {
      var init, b := bs[..|bs| - 1], bs[|bs| - 1];
      var left := LeftAfter(l, init);
      BlockFirst(left, b, rest, more, tail);
      AllBack(l, init, exec, BlockBytes(left, b) + rest, Written(left, b, b.sections) + more, tail);
      Associative(AllBytes(l, init), BlockBytes(left, b), rest);
      Associative(AllWritten(l, init), Written(left, b, b.sections), more);
    }
  }

  // ---------- the writer ----------

  /** The list of relocations of a section, and the file. */
  class Writer {
    var list: seq<Reloc>
    var out: seq<Byte>

    constructor (list: seq<Reloc>)
      ensures this.list == list && out == []
    {
      this.list, out := list, [];
    }

    /** Moves the relocations of one group out of the list. */
    method MoveGroup(b: Block, index: nat) returns (mine: seq<Reloc>)
      modifies this`list
      ensures mine == Picked(old(list), b, index) && list == Unpicked(old(list), b, index)
    {
      ghost var l, k: nat := list, 0;
      mine := [];
      var i := 0;
      while i < |list|
        invariant k <= |l| && i == |UnpickedTo(l, b, index, k)| && i + |l| - k == |list|
        invariant list[..i] == UnpickedTo(l, b, index, k) && list[i..] == l[k..] && mine == PickedTo(l, b, index, k)
        decreases |l| - k
      {
        var r := list[i];
        assert r == list[i..][0] && l[k..][0] == l[k] && list[i..][1..] == l[k + 1..];
        if r.kind == b.kind && r.index == index && (!b.short || r.offset < 0x1_0000) {
          assert (list[..i] + list[i + 1..])[i..] == list[i..][1..];
          list := list[..i] + list[i + 1..];
          mine := mine + [r];
        } else {
          i := i + 1;
        }
        k := k + 1;
      }
    }

    /** A chunk: count, section, offsets. */
    method WriteChunk(l: seq<Reloc>, b: Block, index: nat)
      requires |l| < Limit(b.short) && index < Limit(b.short) && Fits(l, b.short)
      modifies this`out
      ensures out == old(out) + (Word(|l|, b.short) + (Word(index, b.short) + Offsets(l, b.short)))
    {
      out := out + Word(|l|, b.short);
      out := out + Word(index, b.short);
      var rest := l;
      while rest != []
        invariant Fits(rest, b.short)
        invariant out + Offsets(rest, b.short)
                  == old(out) + (Word(|l|, b.short) + (Word(index, b.short) + Offsets(l, b.short)))
        decreases |rest|
      {
        Associative(out, Word(rest[0].offset, b.short), Offsets(rest[1..], b.short));
        out := out + Word(rest[0].offset, b.short);
        rest := rest[1..];
      }
    }

    method WriteChunks(l: seq<Reloc>, b: Block, index: nat)
      requires |l| < 0x1_0000_0000 && index < Limit(b.short) && Fits(l, b.short)
      modifies this`out
      ensures out == old(out) + Chunks(l, b, index)
    {
      var rest := l;
      while rest != []
        invariant Fits(rest, b.short) && |rest| <= |l| && out + Chunks(rest, b, index) == old(out) + Chunks(l, b, index)
        decreases |rest|
      {
        var n := |rest|;
        if b.short {
          if n > 0xffff {
            n := 0xffff;
          }
        } else if b.exec && n > 0x1_0000 {
          n := 0x1_0000;
        }
        Chunked(out, Word(n, b.short), Word(index, b.short), Offsets(rest[..n], b.short), Chunks(rest[n..], b, index));
        WriteChunk(rest[..n], b, index);
        rest := rest[n..];
      }
    }

    static lemma Chunked<T>(o: seq<T>, a: seq<T>, b: seq<T>, c: seq<T>, d: seq<T>)
      ensures (o + (a + (b + c))) + d == o + (a + (b + (c + d)))
    {}

    /** What has been written of a block for n sections. */
    ghost predicate Begun(l: seq<Reloc>, b: Block, n: nat, was: seq<Byte>, bytes: nat)
      requires Writable(l, b)
      reads this
    {
      var w := Written(l, b, n);
      && n <= b.sections && list == Remaining(l, b, n)
      && out == was + Front(l, b, n)
      && bytes == if w == [] then 0 else if b.short then 4 + 2 * |w| else 4
    }

    /** The id comes in front of the first chunk. */
    method WriteGroup(mine: seq<Reloc>, b: Block, index: nat, bytes: nat) returns (now: nat)
      requires |mine| < 0x1_0000_0000 && index < Limit(b.short) && Fits(mine, b.short) && Id(b) < 0x1_0000_0000
      modifies this`out
      ensures mine == [] ==> out == old(out) && now == bytes
      ensures mine != [] ==> out == old(out) + (if bytes == 0 then W32(Id(b)) else []) + Chunks(mine, b, index)
      ensures mine != [] ==> now == (if bytes == 0 then 4 else bytes) + (if b.short then 2 * |mine| else 0)
    {
      now := bytes;
      if mine != [] {
        if now == 0 {
          out := out + W32(Id(b));
          now := 4;
        } else {
          assert out + [] == out;
        }
        WriteChunks(mine, b, index);
        if b.short {
          now := now + 2 * |mine|;
        }
      }
    }

    /** One section of a block. */
    method WriteSection(ghost l: seq<Reloc>, b: Block, index: nat, ghost was: seq<Byte>, bytes: nat) returns (now: nat)
      requires Writable(l, b) && index < b.sections && Begun(l, b, index, was, bytes)
      modifies this
      ensures Begun(l, b, index + 1, was, now)
    {
      RemainingFits(l, b, index);
      PickedFits(list, b, index);
      var mine := MoveGroup(b, index);
      ghost var before := out;
      now := WriteGroup(mine, b, index, bytes);
      Grown(l, b, index, mine);
      BegunNext(l, b, index, mine, was, before, out);
    }

    /** The bytes after one more section. */
    static lemma BegunNext(l: seq<Reloc>, b: Block, n: nat, mine: seq<Reloc>, was: seq<Byte>, before: seq<Byte>,
                           after: seq<Byte>)
      requires Writable(l, b) && n < b.sections && Fits(mine, b.short) && |mine| < 0x1_0000_0000
      requires before == was + Front(l, b, n)
      requires Written(l, b, n + 1) == Written(l, b, n) + mine
               && AllChunks(l, b, n + 1) == AllChunks(l, b, n) + Chunks(mine, b, n)
      requires Written(l, b, n) == [] ==> AllChunks(l, b, n) == []
      requires after == if mine == [] then before
                        else before + (if Written(l, b, n) == [] then W32(Id(b)) else []) + Chunks(mine, b, n)
      ensures after == was + Front(l, b, n + 1)
    {
      FrontStep(was, W32(Id(b)), AllChunks(l, b, n), Chunks(mine, b, n));
      if mine == [] {
        assert AllChunks(l, b, n + 1) == AllChunks(l, b, n) && Written(l, b, n + 1) == Written(l, b, n);
      } else if Written(l, b, n) == [] {
        assert AllChunks(l, b, n + 1) == Chunks(mine, b, n) && Front(l, b, n) == [];
      }
    }

    static lemma FrontStep<T>(was: seq<T>, id: seq<T>, c: seq<T>, d: seq<T>)
      ensures was + (id + c) + [] + d == was + (id + (c + d)) && was + [] + id + d == was + (id + d)
    {}

    /** The bytes of a block without its tail. */
    static function Front(l: seq<Reloc>, b: Block, n: nat): seq<Byte>
      requires Writable(l, b) && n <= b.sections
    {
      if Written(l, b, n) == [] then [] else W32(Id(b)) + AllChunks(l, b, n)
    }

    /** How the block grows by one section. */
    static lemma Grown(l: seq<Reloc>, b: Block, n: nat, mine: seq<Reloc>)
      requires Writable(l, b) && n < b.sections && mine == Picked(Remaining(l, b, n), b, n)
      requires Fits(mine, b.short) && |mine| < 0x1_0000_0000
      ensures Written(l, b, n + 1) == Written(l, b, n) + mine
      ensures AllChunks(l, b, n + 1) == AllChunks(l, b, n) + Chunks(mine, b, n)
      ensures Written(l, b, n) == [] ==> AllChunks(l, b, n) == []
      decreases n
    {
      if n > 0 && Written(l, b, n) == [] {
        RemainingFits(l, b, n - 1);
        PickedFits(Remaining(l, b, n - 1), b, n - 1);
        Grown(l, b, n - 1, Picked(Remaining(l, b, n - 1), b, n - 1));
      }
    }

    /** `reloc_hunk` */
    method RelocHunk(b: Block)
      requires Writable(list, b)
      modifies this
      ensures out == old(out) + BlockBytes(old(list), b) && list == Remaining(old(list), b, b.sections)
    {
      ghost var l, was := list, out;
      var bytes := 0;
      assert out + [] == out;
      for index := 0 to b.sections
        invariant Begun(l, b, index, was, bytes)
      {
        bytes := WriteSection(l, b, index, was, bytes);
      }
      if bytes != 0 {
        if b.short {
          out := out + W16(0);
          out := out + if (bytes + 2) % 4 == 0 then [] else [0, 0];
        } else {
          out := out + W32(0);
        }
      }
    }

    /** The first i blocks are written. */
    ghost predicate Through(l: seq<Reloc>, bs: seq<Block>, i: nat, was: seq<Byte>)
      reads this
    {
      i <= |bs| && AllWritable(l, bs[..i]) && list == LeftAfter(l, bs[..i]) && out == was + AllBytes(l, bs[..i])
    }

    method NextBlock(bs: seq<Block>, i: nat, ghost l: seq<Reloc>, ghost was: seq<Byte>)
      requires AllWritable(l, bs) && i < |bs| && Through(l, bs, i, was)
      modifies this
      ensures Through(l, bs, i + 1, was)
    {
      WritablePrefix(l, bs, i + 1);
      ghost var init := bs[..i + 1];
      assert init[..|init| - 1] == bs[..i] && init[|init| - 1] == bs[i];
      RelocHunk(bs[i]);
      Associative(was, AllBytes(l, bs[..i]), BlockBytes(LeftAfter(l, bs[..i]), bs[i]));
    }

    /** The blocks of a section, one after the other. */
    method RelocHunks(bs: seq<Block>)
      requires AllWritable(list, bs)
      modifies this
      ensures out == old(out) + AllBytes(old(list), bs) && list == LeftAfter(old(list), bs)
    {
      ghost var l, was := list, out;
      assert bs[..0] == [] && was + [] == was;
      for i := 0 to |bs|
        invariant Through(l, bs, i, was)
      {
        NextBlock(bs, i, l, was);
      }
      assert bs[..|bs|] == bs;
    }

    static lemma WritablePrefix(l: seq<Reloc>, bs: seq<Block>, n: nat)
      requires AllWritable(l, bs) && n <= |bs|
      ensures AllWritable(l, bs[..n])
      decreases |bs|
    {
      if n < |bs| {
        WritablePrefix(l, bs[..|bs| - 1], n);
        assert bs[..|bs| - 1][..n] == bs[..n];
      } else {
        assert bs[..n] == bs;
      }
    }

    /** A whole section: a reader finds the groups of all calls, each in the order of the list, and
        so all relocations but those that are left, in order, to be reported. */
    method Section(exec: bool, kick1: bool, sections: nat, ghost rest: seq<Byte>)
      requires sections <= 0x1_0000 && Fits(list, false) && |list| < 0x1_0000_0000 && out == []
      requires |rest| < 4 || !RelocId(GetWord(rest, false))
      modifies this
      ensures ReadAll(out + rest, exec) == Some(Read(AllGroups(old(list), Blocks(exec, kick1, sections)), rest))
      ensures list == Kept(old(list), r => Free(Blocks(exec, kick1, sections), r))
      ensures multiset(AllGroups(old(list), Blocks(exec, kick1, sections))) + multiset(list) == multiset(old(list))
    {
      ghost var l := list;
      var bs := Blocks(exec, kick1, sections);
      WritableAll(l, bs, exec);
      RelocHunks(bs);
      AllBack(l, bs, exec, rest, [], rest);
      Conserved(l, bs);
      AllWrittenIsGroups(l, bs);
      LeftIsKept(l, bs);
      assert AllWritten(l, bs) + [] == AllWritten(l, bs) && [] + AllBytes(l, bs) == AllBytes(l, bs);
    }
  }

  /** The calls for a section of an executable or of an object file. */
  function Blocks(exec: bool, kick1: bool, sections: nat): seq<Block> {
    if !exec then
      [Block(ABSRELOC32, false, false, sections), Block(RELRELOC8, false, false, sections),
       Block(RELRELOC16, false, false, sections), Block(RELRELOC26, false, false, sections),
       Block(RELRELOC32, false, false, sections), Block(DREL16, false, false, sections)]
    else if kick1 then [Block(ABSRELOC32, false, true, sections)]
    else
      [Block(ABSRELOC32, true, true, sections), Block(ABSRELOC32, false, true, sections),
       Block(RELRELOC32, true, true, sections)]
  }

  /** What is left to be reported: relocations against no section of the file, and kinds that the file
      cannot hold; in an executable, relative ones have to have a short offset. */
  lemma LeftOver(exec: bool, kick1: bool, sections: nat, r: Reloc)
    ensures Free(Blocks(exec, kick1, sections), r)
            <==> r.index >= sections
                 || (if !exec then
                       r.kind !in {ABSRELOC32, RELRELOC8, RELRELOC16, RELRELOC26, RELRELOC32, DREL16}
                     else
                       r.kind != ABSRELOC32 && !(!kick1 && r.kind == RELRELOC32 && r.offset < 0x1_0000))
  {
    var bs := Blocks(exec, kick1, sections);
    FreeIsTaken(bs, r);
    assert Takes(bs[0], r, sections) || !Takes(bs[0], r, sections);
    if !exec || !kick1 {
      assert Takes(bs[1], r, sections) || Takes(bs[2], r, sections) || !Takes(bs[2], r, sections);
    }
    if !exec {
      assert Takes(bs[3], r, sections) || Takes(bs[4], r, sections) || Takes(bs[5], r, sections)
             || !Takes(bs[5], r, sections);
    }
  }

  /** In an executable, short offsets go into the short blocks. */
  lemma ShortTaken(sections: nat, r: Reloc)
    ensures var bs := Blocks(true, false, sections);
            && (Takes(bs[0], r, sections) <==> r.index < sections && r.kind == ABSRELOC32 && r.offset < 0x1_0000)
            && (Takes(bs[1], r, sections) && Free(bs[..1], r)
                <==> r.index < sections && r.kind == ABSRELOC32 && r.offset >= 0x1_0000)
            && (Takes(bs[2], r, sections) <==> r.index < sections && r.kind == RELRELOC32 && r.offset < 0x1_0000)
  {
    FreeIsTaken(Blocks(true, false, sections)[..1], r);
  }

  lemma {:induction false} FreeIsTaken(bs: seq<Block>, r: Reloc)
    ensures Free(bs, r) <==> forall k :: 0 <= k < |bs| ==> !Takes(bs[k], r, bs[k].sections)
  {
    if bs != [] {
      FreeIsTaken(bs[..|bs| - 1], r);
    }
  }

  predicate Usable(b: Block, exec: bool) {
    b.exec == exec && RelocId(Id(b)) && Known(b) && b.sections <= 0x1_0000
  }

  lemma {:induction false} WritableAll(l: seq<Reloc>, bs: seq<Block>, exec: bool)
    requires Fits(l, false) && |l| < 0x1_0000_0000 && forall k :: 0 <= k < |bs| ==> Usable(bs[k], exec)
    ensures AllWritable(l, bs) && OneFile(bs, exec) && Fits(LeftAfter(l, bs), false) && |LeftAfter(l, bs)| <= |l|
    decreases |bs|
  {
    if bs != [] {
      WritableAll(l, bs[..|bs| - 1], exec);
      RemainingFits(LeftAfter(l, bs[..|bs| - 1]), bs[|bs| - 1], bs[|bs| - 1].sections);
      assert forall k :: 0 <= k < |bs| - 1 ==> bs[..|bs| - 1][k] == bs[k];
    }
  }

  /** A short block is a whole number of longwords. */
  lemma ShortBlockAligned(l: seq<Reloc>, b: Block)
    requires Writable(l, b) && b.short
    ensures |BlockBytes(l, b)| % 4 == 0
  {
    if Written(l, b, b.sections) != [] {
      var heads := ChunksSize(l, b, b.sections);
    }
  }

  lemma {:induction false} OffsetsSize(l: seq<Reloc>)
    requires Fits(l, true)
    ensures |Offsets(l, true)| == 2 * |l|
  {
    if l != [] {
      OffsetsSize(l[1..]);
    }
  }

  /** Every chunk has a head of one longword. */
  lemma {:induction false} GroupSize(l: seq<Reloc>, b: Block, index: nat) returns (heads: nat)
    requires b.short && Fits(l, true) && index < Limit(true) && |l| < 0x1_0000_0000
    ensures |Chunks(l, b, index)| == 4 * heads + 2 * |l|
    decreases |l|
  {
    heads := 0;
    if l != [] {
      var n := ChunkLimit(b, |l|);
      OffsetsSize(l[..n]);
      heads := GroupSize(l[n..], b, index);
      heads := heads + 1;
    }
  }

  /** Entries that a chunk can have; in object files there is no limit. */
  function Capacity(b: Block, n: nat): nat {
    if b.short then 65535 else if b.exec then 65536 else n
  }

  /** A group is written in as few chunks as can hold it. */
  lemma {:induction false} ChunkCount(l: seq<Reloc>, b: Block, index: nat) returns (chunks: nat)
    requires Fits(l, b.short) && index < Limit(b.short) && 0 < |l| < 0x1_0000_0000
    ensures |Chunks(l, b, index)| == 2 * Width(b.short) * chunks + Width(b.short) * |l|
    ensures chunks > 0 && (chunks - 1) * Capacity(b, |l|) < |l| <= chunks * Capacity(b, |l|)
    decreases |l|
  {
    var w, n := Width(b.short), 0;
    n := FirstChunk(l, b, index);
    if n < |l| {
      var more := ChunkCount(l[n..], b, index);
      chunks := more + 1;
      MoreChunks(w, more, n, |l|);
    } else {
      chunks := 1;
      assert l[n..] == [];
    }
  }

  lemma {:induction false} FirstChunk(l: seq<Reloc>, b: Block, index: nat) returns (n: nat)
    requires Fits(l, b.short) && index < Limit(b.short) && 0 < |l| < 0x1_0000_0000
    ensures 0 < n <= |l| && (n < |l| ==> n == Capacity(b, |l|) == Capacity(b, |l| - n)) && n <= Capacity(b, |l|)
    ensures |Chunks(l, b, index)| == 2 * Width(b.short) + Width(b.short) * n + |Chunks(l[n..], b, index)|
  {
    n := ChunkLimit(b, |l|);
    OffsetBytes(l[..n], b.short);
  }

  lemma MoreChunks(w: nat, more: nat, n: nat, size: nat)
    requires size > n
    ensures 2 * w + w * n + (2 * w * more + w * (size - n)) == 2 * w * (more + 1) + w * size
    ensures more > 0 && (more - 1) * n < size - n <= more * n ==> more * n < size <= (more + 1) * n
  {
    assert (more - 1) * n == more * n - n && (more + 1) * n == more * n + n;
    assert w * (size - n) == w * size - w * n;
  }

  lemma {:induction false} OffsetBytes(l: seq<Reloc>, short: bool)
    requires Fits(l, short)
    ensures |Offsets(l, short)| == Width(short) * |l|
  {
    if l != [] {
      OffsetBytes(l[1..], short);
    }
  }

  lemma {:induction false} ChunksSize(l: seq<Reloc>, b: Block, n: nat) returns (heads: nat)
    requires Writable(l, b) && b.short && n <= b.sections
    ensures |AllChunks(l, b, n)| == 4 * heads + 2 * |Written(l, b, n)|
    decreases n
  {
    heads := 0;
    if n > 0 {
      RemainingFits(l, b, n - 1);
      PickedFits(Remaining(l, b, n - 1), b, n - 1);
      var mine := Picked(Remaining(l, b, n - 1), b, n - 1);
      var h := ChunksSize(l, b, n - 1);
      var g := GroupSize(mine, b, n - 1);
      Writer.Grown(l, b, n - 1, mine);
      heads := h + g;
    }
  }
}
