/** Relocation lists of o65 files: sorted insertion, the delta encoding, and its reader. */
module O65 {
  import opened Bitfields
  import opened Bits
  import opened Sequences

  const SEG_UND := 0

  /** Kinds of relocation: low byte, high byte, address, segment byte, segment address. */
  predicate RelocType(t: int) {
    t == 0x20 || t == 0x40 || t == 0x80 || t == 0xa0 || t == 0xc0
  }

  datatype Entry = Entry(offset: nat, rtype: nat, segid: nat, imp: nat, addend: int)

  /** Word size in bytes (2 or 4), and whether the file is aligned to pages. */
  datatype Mode = Mode(size: nat, paged: bool)

  predicate Proper(e: Entry, m: Mode) {
    RelocType(e.rtype) && e.segid < 0x20 && Halve(e.imp, 8 * m.size) == 0
  }

  // ---------- sorted insertion ----------

  predicate Sorted(l: seq<Entry>) {
    forall i, j :: 0 <= i < j < |l| ==> l[i].offset <= l[j].offset
  }

  /** Where a new entry goes: behind all that are not beyond it. */
  function Place(l: seq<Entry>, offset: nat): (k: nat)
    ensures k <= |l|
    ensures forall i :: 0 <= i < k ==> l[i].offset <= offset
    ensures k < |l| ==> offset < l[k].offset
  {
    if l == [] || offset < l[0].offset then 0 else 1 + Place(l[1..], offset)
  }

  function Inserted(l: seq<Entry>, e: Entry): seq<Entry> {
    var k := Place(l, e.offset);
    l[..k] + [e] + l[k..]
  }

  lemma InsertedSorted(l: seq<Entry>, e: Entry)
    requires Sorted(l)
    ensures Sorted(Inserted(l, e))
  {}

  /** The entries with one offset, in order. */
  function SameOffset(l: seq<Entry>, offset: nat): seq<Entry> {
    if l == [] then []
    else (if l[0].offset == offset then [l[0]] else []) + SameOffset(l[1..], offset)
  }

  lemma {:induction false} SameOffsetJoin(a: seq<Entry>, b: seq<Entry>, offset: nat)
    ensures SameOffset(a + b, offset) == SameOffset(a, offset) + SameOffset(b, offset)
  {
    if a == [] {
      assert a + b == b;
    } else {
      SameOffsetJoin(a[1..], b, offset);
      assert (a + b)[1..] == a[1..] + b;
      Associative(if a[0].offset == offset then [a[0]] else [], SameOffset(a[1..], offset), SameOffset(b, offset));
    }
  }

  lemma {:induction false} NoneBeyond(l: seq<Entry>, offset: nat)
    requires forall i :: 0 <= i < |l| ==> l[i].offset > offset
    ensures SameOffset(l, offset) == []
  {
    if l != [] {
      NoneBeyond(l[1..], offset);
    }
  }

  /** An entry with the offset goes behind all others with it, when what follows lies beyond. */
  lemma SameOffsetHere(a: seq<Entry>, e: Entry, b: seq<Entry>)
    requires forall i :: 0 <= i < |b| ==> b[i].offset > e.offset
    ensures SameOffset(a + [e] + b, e.offset) == SameOffset(a + b, e.offset) + [e]
  {
    NoneBeyond(b, e.offset);
    SameOffsetJoin(a + [e], b, e.offset);
    SameOffsetJoin(a, [e], e.offset);
    SameOffsetJoin(a, b, e.offset);
    OneSame(e, e.offset);
  }

  lemma SameOffsetElsewhere(a: seq<Entry>, e: Entry, b: seq<Entry>, offset: nat)
    requires offset != e.offset
    ensures SameOffset(a + [e] + b, offset) == SameOffset(a + b, offset)
  {
    SameOffsetJoin(a + [e], b, offset);
    SameOffsetJoin(a, [e], offset);
    SameOffsetJoin(a, b, offset);
    OneSame(e, offset);
  }

  /** Entries with equal offsets stay in the order in which they came. */
  lemma InsertedStable(l: seq<Entry>, e: Entry, offset: nat)
    requires Sorted(l)
    ensures SameOffset(Inserted(l, e), offset) == SameOffset(l, offset) + if offset == e.offset then [e] else []
  {
    StableAt(l, e, offset, Place(l, e.offset));
  }

  lemma StableAt(l: seq<Entry>, e: Entry, offset: nat, k: nat)
    requires k <= |l| && forall i :: k <= i < |l| ==> l[i].offset > e.offset
    ensures SameOffset(l[..k] + [e] + l[k..], offset) == SameOffset(l, offset) + if offset == e.offset then [e] else []
  {
    assert l[..k] + l[k..] == l;
    if offset == e.offset {
      SameOffsetHere(l[..k], e, l[k..]);
    } else {
      SameOffsetElsewhere(l[..k], e, l[k..], offset);
    }
  }

  lemma OneSame(e: Entry, offset: nat)
    ensures SameOffset([e], offset) == if offset == e.offset then [e] else []
  {
    assert [e][1..] == [];
  }

  lemma NothingLost(l: seq<Entry>, e: Entry, k: nat)
    requires k <= |l|
    ensures multiset(l[..k] + [e] + l[k..]) == multiset(l) + multiset{e}
  {
    assert l == l[..k] + l[k..];
  }

  /** The relocation list of a section. */
  class RelocList {
    var entries: seq<Entry>

    constructor ()
      ensures entries == []
    {
      entries := [];
    }

    /** `add_o65reloc` */
    method Add(e: Entry)
      modifies this
      ensures entries == Inserted(old(entries), e)
      ensures old(Sorted(entries)) ==> Sorted(entries)
      ensures multiset(entries) == multiset(old(entries)) + multiset{e}
    {
      var link := 0;
      while link < |entries| && !(e.offset < entries[link].offset)
        invariant link <= Place(entries, e.offset)
        invariant link == Place(entries, e.offset)
                  || Place(entries, e.offset) == link + Place(entries[link..], e.offset)
      {
        link := link + 1;
      }
      assert link == Place(entries, e.offset);
      if Sorted(entries) {
        InsertedSorted(entries, e);
      }
      NothingLost(entries, e, link);
      entries := entries[..link] + [e] + entries[link..];
    }
  }

  // ---------- the encoding ----------

  /** A distance, with escapes for every 254. */
  function Delta(d: nat): seq<Byte>
    requires d > 0
  {
    if d > 254 then [255] + Delta(d - 254) else [d]
  }

  /** No byte of a delta ends the table, and only the last one is no escape. */
  lemma {:induction false} DeltaBytes(d: nat, k: nat)
    requires d > 0 && k < |Delta(d)|
    ensures Delta(d)[k] != 0 && (Delta(d)[k] == 255 <==> k < |Delta(d)| - 1)
    decreases d
  {
    if d > 254 && k > 0 {
      DeltaBytes(d - 254, k - 1);
    }
  }

  /** What follows the type byte. */
  function Trailer(e: Entry, m: Mode): seq<Byte> {
    if e.rtype == 0x40 && !m.paged then Bytes(e.addend, 1)
    else if e.rtype == 0xa0 then Bytes(e.addend, 2)
    else []
  }

  function EntryBytes(e: Entry, m: Mode): seq<Byte>
    requires Proper(e, m)
  {
    [e.rtype + e.segid] + ((if e.segid == SEG_UND then Bytes(e.imp, m.size) else []) + Trailer(e, m))
  }

  /** Offsets rise strictly, and the entries can be encoded. */
  predicate Writable(l: seq<Entry>, last: int, m: Mode) {
    l == [] || (l[0].offset > last && Proper(l[0], m) && Writable(l[1..], l[0].offset, m))
  }

  function Table(l: seq<Entry>, last: int, m: Mode): seq<Byte>
    requires Writable(l, last, m)
  {
    if l == [] then [0]
    else Delta(l[0].offset - last) + (EntryBytes(l[0], m) + Table(l[1..], l[0].offset, m))
  }

  method WriteDelta(d: nat) returns (out: seq<Byte>)
    requires d > 0
    ensures out == Delta(d)
  {
    out := [];
    var diff: nat := d;
    while diff > 254
      invariant diff > 0 && out + Delta(diff) == Delta(d)
      decreases diff
    {
      Associative(out, [255], Delta(diff - 254));
      out := out + [255];
      diff := diff - 254;
    }
    out := out + [diff];
  }

  method WriteEntry(e: Entry, m: Mode) returns (out: seq<Byte>)
    requires Proper(e, m)
    ensures out == EntryBytes(e, m)
  {
    assert RelocType(e.rtype);
    var head: int := e.rtype + e.segid;
    out := [head];
    if e.segid == SEG_UND {
      out := out + Bytes(e.imp, m.size);
    }
    if e.rtype == 0x40 {
      if !m.paged {
        out := out + Bytes(e.addend, 1);
      }
    } else if e.rtype == 0xa0 {
      out := out + Bytes(e.addend, 2);
    }
  }

  /** `o65_writerelocs` */
  method WriteRelocs(l: seq<Entry>, m: Mode) returns (out: seq<Byte>)
    requires Writable(l, -1, m)
    ensures out == Table(l, -1, m)
  {
    out := [];
    var last: int, rest := -1, l;
    while rest != []
      invariant Writable(rest, last, m) && out + Table(rest, last, m) == Table(l, -1, m)
      decreases |rest|
    {
      var delta := WriteDelta(rest[0].offset - last);
      var entry := WriteEntry(rest[0], m);
      Escape(out, delta, entry, Table(rest[1..], rest[0].offset, m));
      out := out + (delta + entry);
      last := rest[0].offset;
      rest := rest[1..];
    }
    out := out + [0];
  }

  lemma Escape<T>(a: seq<T>, b: seq<T>, c: seq<T>, d: seq<T>)
    ensures a + (b + (c + d)) == (a + (b + c)) + d
  {}

  // ---------- the reader ----------

  /** An entry as far as the file has it: the import of an undefined symbol, the low byte that the
      relocation of a high byte needs unless the file is aligned to pages, and the low word that the
      relocation of a segment byte needs. */
  function Visible(e: Entry, m: Mode): Entry {
    Entry(e.offset, e.rtype, e.segid, if e.segid == SEG_UND then e.imp else 0,
          if e.rtype == 0x40 && !m.paged then e.addend % 0x100 else if e.rtype == 0xa0 then e.addend % 0x1_0000 else 0)
  }

  lemma TrailerNumber(e: Entry, m: Mode)
    ensures Number(Trailer(e, m)) == Visible(e, m).addend
  {
    LowNumber(e.addend);
  }

  lemma LowNumber(v: int)
    ensures Number(Bytes(v, 1)) == v % 0x100 && Number(Bytes(v, 2)) == v % 0x1_0000
  {
    OneNumber(v);
    OneNumber(v / 256);
    assert Bytes(v, 2) == [v % 256] + Bytes(v / 256, 1);
    TwoDigits(v, v / 256);
  }

  lemma OneNumber(v: int)
    ensures Number(Bytes(v, 1)) == v % 256
  {
    assert Bytes(v, 1) == [v % 256] + Bytes(v / 256, 0);
  }

  lemma TwoDigits(v: int, q: int)
    requires q == v / 256
    ensures v % 256 + 256 * (q % 256) == v % 0x1_0000
  {}

  datatype Read<T> = Read(val: T, rest: seq<Byte>)

  /** The distance to the next relocation; 0 ends the table. */
  function ReadDelta(b: seq<Byte>): Option<Read<nat>> {
    if b == [] then None
    else if b[0] < 255 then Some(Read(b[0], b[1..]))
    else
      match ReadDelta(b[1..])
      case None => None
      case Some(r) => Some(Read(254 + r.val, r.rest))
  }

  /** The fields behind the distance. */
  function ReadEntry(offset: nat, b: seq<Byte>, m: Mode): Option<Read<Entry>> {
    if b == [] then None
    else
      var rtype, segid := b[0] / 0x20 * 0x20, b[0] % 0x20;
      var imp := if segid == SEG_UND then m.size else 0;
      var trailer := if rtype == 0x40 && !m.paged then 1 else if rtype == 0xa0 then 2 else 0;
      if |b| < 1 + imp + trailer then None
      else Some(Read(Entry(offset, rtype, segid, Number(b[1..1 + imp]), Number(b[1 + imp..1 + imp + trailer])),
                     b[1 + imp + trailer..]))
  }

  /** Reading a table up to its end; one with more than n entries is given up. */
  function ReadTable(b: seq<Byte>, last: int, m: Mode, n: nat): Option<Read<seq<Entry>>>
    decreases n
  {
    match ReadDelta(b)
    case None => None
    case Some(d) =>
      if d.val == 0 then Some(Read([], d.rest))
      else if n == 0 || last + d.val < 0 then None
      else
        match ReadEntry(last + d.val, d.rest, m)
        case None => None
        case Some(e) =>
          match ReadTable(e.rest, last + d.val, m, n - 1)
          case None => None
          case Some(r) => Some(Read([e.val] + r.val, r.rest))
  }

  /** Reading the table in b gives the entries vs and stops in front of rest. */
  predicate Gives(b: seq<Byte>, last: int, m: Mode, n: nat, vs: seq<Entry>, rest: seq<Byte>) {
    ReadTable(b, last, m, n) == Some(Read(vs, rest))
  }

  lemma {:induction false} DeltaBack(d: nat, rest: seq<Byte>)
    requires d > 0
    ensures ReadDelta(Delta(d) + rest) == Some(Read(d, rest))
  {
    if d > 254 {
      DeltaBack(d - 254, rest);
      assert (Delta(d) + rest)[1..] == Delta(d - 254) + rest;
    } else {
      assert (Delta(d) + rest)[1..] == rest;
    }
  }

  lemma TypeBack(e: Entry, m: Mode)
    requires Proper(e, m)
    ensures var b := e.rtype + e.segid; b < 256 && b / 0x20 * 0x20 == e.rtype && b % 0x20 == e.segid
  {}

  lemma EntryBack(e: Entry, m: Mode, rest: seq<Byte>)
    requires Proper(e, m)
    ensures ReadEntry(e.offset, EntryBytes(e, m) + rest, m) == Some(Read(Visible(e, m), rest))
  {
    TypeBack(e, m);
    TrailerNumber(e, m);
    ThreeParts(e.rtype + e.segid, if e.segid == SEG_UND then Bytes(e.imp, m.size) else [], Trailer(e, m), rest);
    NumberOfBytes(e.imp, m.size);
  }

  lemma ThreeParts<T>(x: T, a: seq<T>, t: seq<T>, rest: seq<T>)
    ensures var b := [x] + (a + t) + rest;
            && |b| >= 1 + |a| + |t| && b[0] == x
            && b[1..1 + |a|] == a && b[1 + |a|..1 + |a| + |t|] == t && b[1 + |a| + |t|..] == rest
  {}

  function AllVisible(l: seq<Entry>, m: Mode): seq<Entry> {
    if l == [] then [] else [Visible(l[0], m)] + AllVisible(l[1..], m)
  }

  lemma ReadStep(b: seq<Byte>, last: int, d: nat, b1: seq<Byte>, v: Entry, b2: seq<Byte>, vs: seq<Entry>,
                 rest: seq<Byte>, m: Mode, n: nat)
    requires ReadDelta(b) == Some(Read(d, b1)) && d > 0 && last + d >= 0
    requires ReadEntry(last + d, b1, m) == Some(Read(v, b2)) && ReadTable(b2, last + d, m, n) == Some(Read(vs, rest))
    ensures ReadTable(b, last, m, n + 1) == Some(Read([v] + vs, rest))
  {}

  /** An entry in front of a table that can be read. */
  lemma EntryFirst(e: Entry, last: int, m: Mode, tail: seq<Byte>, vs: seq<Entry>, rest: seq<Byte>, n: nat)
    requires -1 <= last < e.offset && Proper(e, m) && Gives(tail + rest, e.offset, m, n, vs, rest)
    ensures Gives(Delta(e.offset - last) + (EntryBytes(e, m) + tail) + rest, last, m, n + 1, [Visible(e, m)] + vs, rest)
  {
    var d: nat, b1 := e.offset - last, EntryBytes(e, m) + (tail + rest);
    assert last + d == e.offset;
    DeltaBack(d, b1);
    EntryBack(e, m, tail + rest);
    ReadStep(Delta(d) + b1, last, d, b1, Visible(e, m), tail + rest, vs, rest, m, n);
    Regroup(Delta(d), EntryBytes(e, m), tail, rest);
  }

  lemma NoEntry(last: int, m: Mode, n: nat, rest: seq<Byte>)
    ensures Gives([0] + rest, last, m, n, [], rest)
  {
    DropPrefix([0 as Byte], rest);
  }

  /** Reading the written table gives the list back, and stops behind it. The reader need not know
      how many entries there are. */
  lemma {:induction false} TableBack(l: seq<Entry>, last: int, m: Mode, n: nat, rest: seq<Byte>)
    requires Writable(l, last, m) && last >= -1 && n >= |l|
    ensures Gives(Table(l, last, m) + rest, last, m, n, AllVisible(l, m), rest)
  {
    if l == [] {
      NoEntry(last, m, n, rest);
    } else {
      var e, more := l[0], l[1..];
      var tail, vs := Table(more, e.offset, m), AllVisible(more, m);
      TableBack(more, e.offset, m, n - 1, rest);
      EntryFirst(e, last, m, tail, vs, rest, n - 1);
      assert Table(l, last, m) == Delta(e.offset - last) + (EntryBytes(e, m) + tail);
      assert AllVisible(l, m) == [Visible(e, m)] + vs;
    }
  }
}
