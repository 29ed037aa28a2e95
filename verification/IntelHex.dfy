/** Intel HEX output: data is buffered, flushed as records with extended linear addresses, and a
    reader that replays the records gets every byte back at its address. */
module IntelHex {
  import opened Bitfields
  import opened Bits
  import opened Sequences
  import Expressions
  import Layout

  const WORD: int := 0x1_0000_0000

  datatype Format = I8Hex | I32Hex

  /** A byte and the address where it lies. */
  datatype Cell = Cell(address: nat, byte: Byte)

  // ---------- records ----------

  function Sum(b: seq<Byte>): nat {
    if b == [] then 0 else Sum(b[..|b| - 1]) + b[|b| - 1]
  }

  /** The two's complement of the sum of all bytes before. */
  function Checksum(b: seq<Byte>): Byte {
    (256 - Sum(b) % 256) % 256
  }

  function Sealed(b: seq<Byte>): seq<Byte> {
    b + [Checksum(b)]
  }

  /** The bytes of every record add up to 0 modulo 256. */
  lemma SealedSum(b: seq<Byte>)
    ensures Sum(Sealed(b)) % 256 == 0
  {
    assert Sealed(b)[..|b|] == b;
  }

  function DataRecord(start: nat, data: seq<Byte>): seq<Byte>
    requires start < 0x1_0000 && |data| < 256
  {
    Sealed([|data|, start / 256, start % 256, 0] + data)
  }

  function LinearRecord(ext: nat): seq<Byte>
    requires ext < 0x1_0000
  {
    Sealed([2, 0, 0, 4, ext / 256, ext % 256])
  }

  // ---------- the reader ----------

  /** What a reader has after some records: the linear base address, and the bytes loaded. It has
      no value if a record was not well-formed. */
  datatype Loaded = Bad | Good(base: nat, cells: seq<Cell>)

  /** An address modulo 4G. */
  function At(x: int): (a: nat)
    ensures a < WORD
    decreases if x < 0 then -x else x
  {
    if x >= WORD then At(x - WORD) else if x < -WORD then At(x + WORD) else if x < 0 then x + WORD else x
  }

  lemma {:induction false} AtPeriod(x: int)
    ensures At(x + WORD) == At(x)
    decreases if x < 0 then -x else x
  {
    if x >= WORD {
      AtPeriod(x - WORD);
    } else if x < -WORD {
      AtPeriod(x + WORD);
    }
  }

  lemma {:induction false} AtInner(x: int, k: int)
    ensures At(At(x) + k) == At(x + k)
    decreases if x < 0 then -x else x
  {
    if x >= WORD {
      AtInner(x - WORD, k);
      AtPeriod(x - WORD + k);
    } else if x < -WORD {
      AtInner(x + WORD, k);
      AtPeriod(x + k);
    } else if x < 0 {
      AtPeriod(x + k);
    }
  }

  /** Bytes at consecutive addresses, modulo 4G. */
  function Cells(start: int, data: seq<Byte>): (c: seq<Cell>)
    ensures |c| == |data|
  {
    if data == [] then []
    else Cells(start, data[..|data| - 1]) + [Cell(At(start + |data| - 1), data[|data| - 1])]
  }

  lemma {:induction false} CellsInner(x: int, data: seq<Byte>)
    ensures Cells(At(x), data) == Cells(x, data)
  {
    if data != [] {
      CellsInner(x, data[..|data| - 1]);
      AtInner(x, |data| - 1);
    }
  }

  lemma CellsMore(x: int, data: seq<Byte>, b: Byte)
    ensures Cells(x, data + [b]) == Cells(x, data) + [Cell(At(x + |data|), b)]
  {
    assert (data + [b])[..|data|] == data;
  }

  lemma {:induction false} CellsJoin(x: int, a: seq<Byte>, b: seq<Byte>)
    ensures Cells(x, a + b) == Cells(x, a) + Cells(x + |a|, b)
    decreases |b|
  {
    if b == [] {
      assert a + b == a;
    } else {
      var init := b[..|b| - 1];
      CellsJoin(x, a, init);
      assert (a + b)[..|a + b| - 1] == a + init;
    }
  }

  function Word16(hi: int, lo: int): int {
    256 * hi + lo
  }

  function Load(m: Loaded, r: seq<Byte>): Loaded {
    if m.Bad? || |r| < 5 || Sum(r) % 256 != 0 || r[0] as int != |r| - 5 then Bad
    else if r[3] == 0 then m.(cells := m.cells + Cells(m.base + Word16(r[1], r[2]), r[4..|r| - 1]))
    else if r[3] == 1 && r[0] == 0 then m
    else if r[3] == 4 && r[0] == 2 then m.(base := Word16(r[4], r[5]) * 0x1_0000)
    else Bad
  }

  function Replay(records: seq<seq<Byte>>): Loaded {
    if records == [] then Good(0, []) else Load(Replay(records[..|records| - 1]), records[|records| - 1])
  }

  lemma ReplayMore(records: seq<seq<Byte>>, r: seq<Byte>)
    ensures Replay(records + [r]) == Load(Replay(records), r)
  {
    assert (records + [r])[..|records|] == records;
  }

  lemma RecordFields(start: nat, data: seq<Byte>)
    requires start < 0x1_0000 && |data| < 256
    ensures var r := DataRecord(start, data);
            && |r| == |data| + 5 && Sum(r) % 256 == 0 && r[0] as int == |data| && r[3] == 0
            && Word16(r[1], r[2]) == start && r[4..|r| - 1] == data
  {
    SealedSum([|data|, start / 256, start % 256, 0] + data);
    assert Word16(start / 256, start % 256) == start;
  }

  lemma LoadData(m: Loaded, start: nat, data: seq<Byte>)
    requires m.Good? && start < 0x1_0000 && |data| < 256
    ensures Load(m, DataRecord(start, data)) == m.(cells := m.cells + Cells(m.base + start, data))
  {
    RecordFields(start, data);
  }

  lemma LoadLinear(m: Loaded, ext: nat)
    requires m.Good? && ext < 0x1_0000
    ensures Load(m, LinearRecord(ext)) == m.(base := ext * 0x1_0000)
  {
    SealedSum([2, 0, 0, 4, ext / 256, ext % 256]);
  }

  lemma CellsSame(x: int, y: int, data: seq<Byte>)
    requires At(x) == At(y)
    ensures Cells(x, data) == Cells(y, data)
  {
    CellsInner(x, data);
    CellsInner(y, data);
  }

  /** The same start, counted back from the end, when the end moves by one. */
  lemma SameStart(addr: nat, n: int)
    requires addr < WORD
    ensures At(At(addr + 1) - (n + 1)) == At(addr - n)
  {
    AtInner(addr + 1, -(n + 1));
  }

  /** One more byte in a buffer that ends at the address. */
  lemma HeldCells(addr: nat, held: seq<Byte>, b: Byte, next: nat)
    requires addr < WORD && next == At(addr + 1)
    ensures Cells(next - (|held| + 1), held + [b]) == Cells(addr - |held|, held) + [Cell(addr, b)]
  {
    CellsMore(addr - |held|, held, b);
    SameStart(addr, |held|);
    CellsSame(next - (|held| + 1), addr - |held|, held + [b]);
  }

  // ---------- atoms ----------

  datatype Content = Data(bytes: seq<Byte>) | Space(fill: seq<Byte>, count: nat, maxAlign: nat) | Nothing

  datatype HexAtom = HexAtom(align: nat, content: Content)

  datatype HexSection = HexSection(org: nat, pad: seq<Byte>, atoms: seq<HexAtom>)

  /** n bytes of padding: zeros up to a whole number of patterns, then the pattern. */
  function PadBytes(n: nat, pattern: seq<Byte>): (b: seq<Byte>)
    ensures |b| == n
  {
    if n == 0 then []
    else if pattern == [] || Layout.Rest(n, |pattern|) != 0 then [0] + PadBytes(n - 1, pattern)
    else pattern + PadBytes(n - |pattern|, pattern)
  }

  function Repeated(fill: seq<Byte>, count: nat): seq<Byte> {
    if count == 0 then [] else Repeated(fill, count - 1) + fill
  }

  lemma {:induction false} RestWithin(x: int, n: nat)
    requires n > 0
    ensures 0 - n < Layout.Rest(x, n) < n
    decreases AbsOf(x)
  {
    if x >= n {
      RestWithin(x - n, n);
    } else if -x >= n {
      RestWithin(x + n, n);
    }
  }

  lemma PaddingWithin(pc: int, align: nat)
    ensures 0 <= Layout.Padding(pc, align) && (align > 0 ==> Layout.Padding(pc, align) < 2 * align)
  {
    if align > 0 {
      RestWithin(pc, align);
    }
  }

  /** How far the writer pads in front of an atom; the program counter is a signed number of 32 bits.
      An empty space gives up when it would have to pad too far. */
  function HexPadding(a: HexAtom, pc: int): nat {
    PaddingWithin(Expressions.Wrap(pc), a.align);
    var n := Layout.Padding(Expressions.Wrap(pc), a.align);
    if a.content.Space? && a.content.count == 0 && a.content.maxAlign != 0 && n > a.content.maxAlign then 0 else n
  }

  function Pattern(a: HexAtom, pad: seq<Byte>): seq<Byte> {
    if a.content.Space? && a.content.count == 0 then a.content.fill else pad
  }

  function ContentBytes(c: Content): seq<Byte> {
    match c
    case Data(b) => b
    case Space(fill, count, _) => Repeated(fill, count)
    case Nothing => []
  }

  /** An atom behind the bytes before it. */
  function WithAtom(s: HexSection, before: seq<Byte>, a: HexAtom): seq<Byte> {
    before + PadBytes(HexPadding(a, s.org + |before|), Pattern(a, s.pad)) + ContentBytes(a.content)
  }

  /** The bytes of a section up to atom n. */
  function SectionBytes(s: HexSection, n: nat): seq<Byte>
    requires n <= |s.atoms|
  {
    if n == 0 then [] else WithAtom(s, SectionBytes(s, n - 1), s.atoms[n - 1])
  }

  function ImageTo(sections: seq<HexSection>, n: nat): seq<Cell>
    requires n <= |sections|
  {
    if n == 0 then []
    else ImageTo(sections, n - 1) + Cells(sections[n - 1].org, SectionBytes(sections[n - 1], |sections[n - 1].atoms|))
  }

  // ---------- the writer ----------

  class Writer {
    const format: Format
    const buffer: array<Byte>
    var count: nat
    var addr: nat
    var extAddr: nat
    var records: seq<seq<Byte>>
    ghost var emitted: seq<Cell>

    constructor (format: Format, size: nat)
      requires 1 <= size <= 255
      ensures Valid() && Addressable() && emitted == [] && count == 0 && fresh(buffer) && this.format == format
    {
      this.format, buffer := format, new Byte[size](_ => 0);
      count, addr, extAddr, records, emitted := 0, 0, 0, [], [];
    }

    /** The bytes waiting in the buffer. */
    ghost function Waiting(): seq<Cell>
      reads this, buffer
      requires count <= buffer.Length
    {
      Cells(addr - count, buffer[..count])
    }

    /** What a reader has loaded, with what is still in the buffer, is what was put in. */
    ghost predicate Valid()
      reads this, buffer
    {
      && 1 <= buffer.Length <= 255 && count < buffer.Length && addr < WORD && extAddr < 0x1_0000
      && Loading(Waiting())
    }

    ghost predicate Loading(waiting: seq<Cell>)
      reads this`records, this`extAddr, this`emitted
    {
      var m := Replay(records);
      m.Good? && m.base == extAddr * 0x1_0000 && m.cells + waiting == emitted
    }

    /** `write_extended_record` */
    method WriteLinear(ext: nat, ghost waiting: seq<Cell>)
      requires ext < 0x1_0000 && Loading(waiting)
      modifies this`records, this`extAddr
      ensures Loading(waiting) && extAddr == ext
    {
      extAddr := ext;
      ReplayMore(records, LinearRecord(ext));
      LoadLinear(Replay(records), ext);
      records := records + [LinearRecord(ext)];
    }

    method WriteData(start: nat, data: seq<Byte>)
      requires start < 0x1_0000 && |data| < 256 && Loading(Cells(extAddr * 0x1_0000 + start, data))
      modifies this`records
      ensures Loading([])
    {
      ReplayMore(records, DataRecord(start, data));
      LoadData(Replay(records), start, data);
      records := records + [DataRecord(start, data)];
    }

    /** A data record with a new base first if needed. */
    method Send(start: nat, data: seq<Byte>)
      requires start < WORD && |data| < 256 && Loading(Cells(start, data))
      modifies this`records, this`extAddr
      ensures Loading([]) && extAddr == start / 0x1_0000
    {
      var ext := start / 0x1_0000;
      if ext != extAddr {
        WriteLinear(ext, Cells(start, data));
      }
      WriteData(start % 0x1_0000, data);
    }

    /** `write_data_record`: empties the buffer. */
    method Flush()
      requires 1 <= buffer.Length <= 255 && count <= buffer.Length && addr < WORD && extAddr < 0x1_0000
               && Loading(Waiting())
      requires format.I8Hex? ==> extAddr == 0 && (count > 0 ==> count <= addr <= 0x1_0000)
      modifies this`count, this`records, this`extAddr
      ensures Valid() && count == 0
      ensures format.I8Hex? ==> extAddr == 0
    {
      if count == 0 {
        return;
      }
      var start := At(addr - count);
      CellsInner(addr - count, buffer[..count]);
      Send(start, buffer[..count]);
      count := 0;
    }

    /** Nothing that the 16-bit format cannot address has been put in. */
    predicate Addressable()
      reads this
    {
      format.I8Hex? ==> extAddr == 0 && count <= addr <= 0x1_0000
    }

    /** `buffer_data` */
    method Put(b: Byte)
      requires Valid() && Addressable() && (format.I8Hex? ==> addr < 0x1_0000)
      modifies this, buffer
      ensures Valid() && Addressable() && addr == At(old(addr) + 1)
      ensures emitted == old(emitted) + [Cell(old(addr), b)]
    {
      Hold(b, At(addr + 1));
      if count == buffer.Length {
        Flush();
      }
    }

    /** A byte goes into the buffer. */
    method Hold(b: Byte, next: nat)
      requires Valid() && next == At(addr + 1)
      modifies this`count, this`addr, this`emitted, buffer
      ensures count == old(count) + 1 && addr == next && Loading(Waiting())
      ensures emitted == old(emitted) + [Cell(old(addr), b)]
    {
      Note(b, next);
      Advance(b, next);
    }

    /** The bytes waiting once b has been stored and the address is next. */
    ghost function WaitingWith(b: Byte, next: nat): seq<Cell>
      reads this`count, buffer
      requires count <= buffer.Length
    {
      Cells(next - (count + 1), buffer[..count] + [b])
    }

    method Advance(b: Byte, next: nat)
      requires count < buffer.Length && Loading(WaitingWith(b, next))
      modifies this`count, this`addr, buffer
      ensures count == old(count) + 1 && addr == next && Loading(Waiting())
    {
      ghost var held := buffer[..count];
      buffer[count] := b;
      count := count + 1;
      addr := next;
      assert buffer[..count] == held + [b];
    }

    /** The specification takes note of a byte put in. */
    ghost method Note(b: Byte, next: nat)
      requires Valid() && next == At(addr + 1)
      modifies this`emitted
      ensures Loading(WaitingWith(b, next)) && emitted == old(emitted) + [Cell(addr, b)]
    {
      HeldCells(addr, buffer[..count], b, next);
      Associative(Replay(records).cells, Waiting(), [Cell(addr, b)]);
      emitted := emitted + [Cell(addr, b)];
    }

    method PutNext(data: seq<Byte>, i: nat, ghost start: nat, ghost was: seq<Cell>)
      requires Valid() && Addressable() && i < |data| && addr == At(start + i) && (format.I8Hex? ==> addr < 0x1_0000)
      requires emitted == was + Cells(start, data[..i])
      modifies this, buffer
      ensures Valid() && Addressable() && addr == At(start + i + 1) && emitted == was + Cells(start, data[..i + 1])
    {
      Put(data[i]);
      AtInner(start + i, 1);
      CellsMore(start, data[..i], data[i]);
      assert data[..i + 1] == data[..i] + [data[i]];
    }

    /** Several bytes from the current address on. */
    method PutAll(data: seq<Byte>)
      requires Valid() && Addressable() && (format.I8Hex? ==> addr + |data| <= 0x1_0000)
      modifies this, buffer
      ensures Valid() && Addressable() && addr == At(old(addr) + |data|)
      ensures emitted == old(emitted) + Cells(old(addr), data)
    {
      for i := 0 to |data|
        invariant Valid() && Addressable() && addr == At(old(addr) + i)
        invariant emitted == old(emitted) + Cells(old(addr), data[..i])
      {
        PutNext(data, i, old(addr), old(emitted));
      }
      assert data[..|data|] == data;
    }

    /** What the addresses of a section need. */
    predicate Room(org: nat, size: nat) {
      org < WORD && (format.I8Hex? ==> org + size <= 0x1_0000)
    }

    /** After the bytes done, which began at start; before them stood was. */
    ghost predicate Behind(start: nat, done: seq<Byte>, was: seq<Cell>)
      reads this, buffer
    {
      Valid() && Addressable() && addr == At(start + |done|) && emitted == was + Cells(start, done)
    }

    method PutMore(data: seq<Byte>, ghost start: nat, ghost done: seq<Byte>, ghost was: seq<Cell>)
      requires Behind(start, done, was) && (format.I8Hex? ==> start + |done| + |data| <= 0x1_0000)
      modifies this, buffer
      ensures Behind(start, done + data, was)
    {
      PutAll(data);
      AtInner(start + |done|, |data|);
      CellsInner(start + |done|, data);
      CellsJoin(start, done, data);
      Associative(was, Cells(start, done), Cells(start + |done|, data));
    }

    /** All but the next step of the padding is done. */
    lemma PadStep(goal: seq<Byte>, done: seq<Byte>, pattern: seq<Byte>, left: nat)
      requires pattern != [] && left > 0 && done + PadBytes(left, pattern) == goal
      ensures Layout.Rest(left, |pattern|) != 0 ==> (done + [0]) + PadBytes(left - 1, pattern) == goal
      ensures Layout.Rest(left, |pattern|) == 0
              ==> left >= |pattern| && Layout.Rest(left - |pattern|, |pattern|) == 0
                  && (done + pattern) + PadBytes(left - |pattern|, pattern) == goal
    {
      if Layout.Rest(left, |pattern|) != 0 {
        assert (done + [0]) + PadBytes(left - 1, pattern) == done + ([0] + PadBytes(left - 1, pattern));
      } else {
        assert (done + pattern) + PadBytes(left - |pattern|, pattern)
               == done + (pattern + PadBytes(left - |pattern|, pattern));
      }
    }

    /** The padding up to a whole number of patterns. */
    method PadZeros(n: nat, pattern: seq<Byte>, ghost start: nat, ghost before: seq<Byte>, ghost was: seq<Cell>)
      returns (left: nat, ghost done: seq<Byte>)
      requires Behind(start, before, was) && (format.I8Hex? ==> start + |before| + n <= 0x1_0000) && pattern != []
      modifies this, buffer
      ensures Behind(start, done, was) && Layout.Rest(left, |pattern|) == 0
      ensures done + PadBytes(left, pattern) == before + PadBytes(n, pattern) && |done| + left == |before| + n
    {
      left, done := n, before;
      while Layout.Rest(left, |pattern|) != 0
        invariant Behind(start, done, was) && |done| + left == |before| + n
        invariant done + PadBytes(left, pattern) == before + PadBytes(n, pattern)
        decreases left
      {
        PadStep(before + PadBytes(n, pattern), done, pattern, left);
        PutMore([0], start, done, was);
        done := done + [0];
        left := left - 1;
      }
    }

    /** The patterns. */
    method PadPatterns(n: nat, pattern: seq<Byte>, ghost start: nat, ghost before: seq<Byte>, ghost was: seq<Cell>)
      requires Behind(start, before, was) && (format.I8Hex? ==> start + |before| + n <= 0x1_0000) && pattern != []
      requires Layout.Rest(n, |pattern|) == 0
      modifies this, buffer
      ensures Behind(start, before + PadBytes(n, pattern), was)
    {
      var left: nat := n;
      ghost var done := before;
      while left > 0
        invariant Behind(start, done, was) && |done| + left == |before| + n && Layout.Rest(left, |pattern|) == 0
        invariant done + PadBytes(left, pattern) == before + PadBytes(n, pattern)
        decreases left
      {
        PadStep(before + PadBytes(n, pattern), done, pattern, left);
        PutMore(pattern, start, done, was);
        done := done + pattern;
        left := left - |pattern|;
      }
      assert done + [] == done;
    }

    /** `mypcalign` */
    method Pad(n: nat, pattern: seq<Byte>, ghost start: nat, ghost before: seq<Byte>, ghost was: seq<Cell>)
      requires Behind(start, before, was) && (format.I8Hex? ==> start + |before| + n <= 0x1_0000)
               && (n > 0 ==> pattern != [])
      modifies this, buffer
      ensures Behind(start, before + PadBytes(n, pattern), was)
    {
      if n == 0 {
        assert before + [] == before;
        return;
      }
      var left, done := PadZeros(n, pattern, start, before, was);
      PadPatterns(left, pattern, start, done, was);
    }

    method PutContent(c: Content, ghost start: nat, ghost before: seq<Byte>, ghost was: seq<Cell>)
      requires Behind(start, before, was) && (format.I8Hex? ==> start + |before| + |ContentBytes(c)| <= 0x1_0000)
      modifies this, buffer
      ensures Behind(start, before + ContentBytes(c), was)
    {
      match c
      case Data(b) => PutMore(b, start, before, was);
      case Space(fill, count, _) => PutRepeated(fill, count, start, before, was);
      case Nothing => assert before + [] == before;
    }

    method PutRepeated(fill: seq<Byte>, n: nat, ghost start: nat, ghost before: seq<Byte>, ghost was: seq<Cell>)
      requires Behind(start, before, was) && (format.I8Hex? ==> start + |before| + |Repeated(fill, n)| <= 0x1_0000)
      modifies this, buffer
      ensures Behind(start, before + Repeated(fill, n), was)
    {
      assert before + Repeated(fill, 0) == before;
      for i := 0 to n
        invariant Behind(start, before + Repeated(fill, i), was)
      {
        Longer(fill, i + 1, n);
        PutMore(fill, start, before + Repeated(fill, i), was);
        assert before + Repeated(fill, i) + fill == before + Repeated(fill, i + 1);
      }
    }

    lemma {:induction false} Longer(fill: seq<Byte>, i: nat, n: nat)
      requires i <= n
      ensures |Repeated(fill, i)| <= |Repeated(fill, n)|
      decreases n
    {
      if i < n {
        Longer(fill, i, n - 1);
      }
    }

    /** One atom: padding, then content. The program counter before it is pc. */
    method PutAtom(s: HexSection, a: HexAtom, pc: int, ghost before: seq<Byte>, ghost was: seq<Cell>)
      requires Behind(s.org, before, was) && Pattern(a, s.pad) != [] && pc == s.org + |before|
      requires Room(s.org, |WithAtom(s, before, a)|)
      modifies this, buffer
      ensures Behind(s.org, WithAtom(s, before, a), was)
    {
      var padding := HexPadding(a, pc);
      ghost var padded := before + PadBytes(padding, Pattern(a, s.pad));
      assert WithAtom(s, before, a) == padded + ContentBytes(a.content);
      Pad(padding, Pattern(a, s.pad), s.org, before, was);
      PutContent(a.content, s.org, padded, was);
    }

    lemma NextFits(s: HexSection, n: nat)
      requires n < |s.atoms| && Padded(s) && Room(s.org, |SectionBytes(s, |s.atoms|)|)
      ensures SectionBytes(s, n + 1) == WithAtom(s, SectionBytes(s, n), s.atoms[n])
      ensures Room(s.org, |WithAtom(s, SectionBytes(s, n), s.atoms[n])|) && Pattern(s.atoms[n], s.pad) != []
    {
      NextBytes(s, n);
      RoomLess(s.org, |WithAtom(s, SectionBytes(s, n), s.atoms[n])|, |SectionBytes(s, |s.atoms|)|);
    }

    lemma RoomLess(org: nat, small: nat, large: nat)
      requires Room(org, large) && small <= large
      ensures Room(org, small)
    {}

    method PutNextAtom(s: HexSection, n: nat, ghost was: seq<Cell>)
      requires n < |s.atoms| && Padded(s) && Behind(s.org, SectionBytes(s, n), was)
      requires Room(s.org, |SectionBytes(s, |s.atoms|)|)
      modifies this, buffer
      ensures Behind(s.org, SectionBytes(s, n + 1), was)
    {
      NextFits(s, n);
      PutAtom(s, s.atoms[n], s.org + SectionSize(s, n), SectionBytes(s, n), was);
    }

    /** A section begins at its origin. */
    method Begin(org: nat)
      requires Valid() && Addressable() && count == 0 && Room(org, 0)
      modifies this`addr
      ensures Behind(org, [], emitted)
    {
      addr := org;
      assert emitted + [] == emitted;
    }

    method PutAtoms(s: HexSection)
      requires Behind(s.org, [], emitted) && Padded(s) && Room(s.org, |SectionBytes(s, |s.atoms|)|)
      modifies this, buffer
      ensures Behind(s.org, SectionBytes(s, |s.atoms|), old(emitted))
    {
      ghost var was := emitted;
      for n := 0 to |s.atoms|
        invariant Behind(s.org, SectionBytes(s, n), was)
      {
        PutNextAtom(s, n, was);
      }
    }

    /** The bytes of one section, and then the rest of the buffer. */
    method PutSection(s: HexSection)
      requires Valid() && Addressable() && count == 0 && Padded(s) && Room(s.org, |SectionBytes(s, |s.atoms|)|)
      modifies this, buffer
      ensures Valid() && Addressable() && count == 0
      ensures emitted == old(emitted) + Cells(s.org, SectionBytes(s, |s.atoms|))
    {
      Begin(s.org);
      PutAtoms(s);
      Flush();
    }
  }

  /** What the program counter has advanced by in front of atom n. */
  function SectionSize(s: HexSection, n: nat): (size: nat)
    requires n <= |s.atoms|
    ensures size == |SectionBytes(s, n)|
  {
    if n == 0 then 0
    else
      var size, a := SectionSize(s, n - 1), s.atoms[n - 1];
      size + HexPadding(a, s.org + size) + |ContentBytes(a.content)|
  }

  lemma {:induction false} BytesGrow(s: HexSection, i: nat, n: nat)
    requires i <= n <= |s.atoms|
    ensures |SectionBytes(s, i)| <= |SectionBytes(s, n)|
    decreases n
  {
    if i < n {
      BytesGrow(s, i, n - 1);
    }
  }

  lemma NextBytes(s: HexSection, n: nat)
    requires n < |s.atoms|
    ensures SectionBytes(s, n + 1) == WithAtom(s, SectionBytes(s, n), s.atoms[n])
    ensures |WithAtom(s, SectionBytes(s, n), s.atoms[n])| <= |SectionBytes(s, |s.atoms|)|
  {
    BytesGrow(s, n + 1, |s.atoms|);
  }

  /** Where padding is needed there is a pattern for it. */
  predicate Padded(s: HexSection) {
    s.pad != [] && forall n :: 0 <= n < |s.atoms| ==> Pattern(s.atoms[n], s.pad) != []
  }

  const EOF_RECORD: seq<Byte> := [0, 0, 0, 1, 0xFF]

  /** `write_output`: a reader of the records gets exactly the bytes of all sections, in order, at
      their addresses. */
  method WriteOutput(format: Format, size: nat, sections: seq<HexSection>) returns (records: seq<seq<Byte>>)
    requires 1 <= size <= 255
    requires forall k :: 0 <= k < |sections| ==> Padded(sections[k]) && sections[k].org < WORD
    requires format.I8Hex? ==>
      forall k :: 0 <= k < |sections| ==> sections[k].org + |SectionBytes(sections[k], |sections[k].atoms|)| <= 0x1_0000
    ensures Replay(records).Good? && Replay(records).cells == ImageTo(sections, |sections|)
  {
    var w := new Writer(format, size);
    for k := 0 to |sections|
      invariant fresh(w) && fresh(w.buffer) && w.Valid() && w.Addressable() && w.count == 0 && w.format == format
      invariant w.emitted == ImageTo(sections, k)
    {
      w.PutSection(sections[k]);
    }
    ReplayMore(w.records, EOF_RECORD);
    EofSum();
    records := w.records + [EOF_RECORD];
  }

  lemma SumMore(b: seq<Byte>, x: Byte)
    ensures Sum(b + [x]) == Sum(b) + x
  {
    assert (b + [x])[..|b|] == b;
  }

  lemma EofSum()
    ensures Sum(EOF_RECORD) == 256
  {
    var zero: seq<Byte> := [0, 0, 0];
    assert Sum(zero) == 0 by {
      SumMore([], 0);
      SumMore([0], 0);
      SumMore([0, 0], 0);
      assert zero == [0, 0] + [0] && [0, 0] == [0] + [0] && [0] == [] + [0];
    }
    SumMore(zero, 1);
    SumMore(zero + [1], 0xFF);
    assert EOF_RECORD == zero + [1] + [0xFF];
  }

  /** The bytes of atom n lie at the address that the padding leads to. */
  lemma AtomPlaced(s: HexSection, n: nat)
    requires n < |s.atoms|
    ensures var at := |SectionBytes(s, n)| + HexPadding(s.atoms[n], s.org + |SectionBytes(s, n)|);
            at + |ContentBytes(s.atoms[n].content)| == |SectionBytes(s, n + 1)|
            && SectionBytes(s, n + 1)[at..] == ContentBytes(s.atoms[n].content)
  {}

  lemma {:induction false} RestNext(n: nat, len: nat)
    requires len > 0 && Layout.Rest(n, len) > 0
    ensures n > 0 && Layout.Rest(n - 1, len) == Layout.Rest(n, len) - 1
    decreases n
  {
    if n >= len {
      RestNext(n - len, len);
    }
  }

  lemma {:induction false} RestNatural(n: nat, len: nat)
    requires len > 0
    ensures 0 <= Layout.Rest(n, len) < len && Layout.Rest(n, len) <= n
    decreases n
  {
    if n >= len {
      RestNatural(n - len, len);
    }
  }

  /** A byte of the padding: 0 until whole patterns are left, then the pattern over and over. */
  function PadByte(n: nat, pattern: seq<Byte>, k: nat): Byte
    requires pattern != []
  {
    RestNatural(n, |pattern|);
    var zeros := Layout.Rest(n, |pattern|);
    if k < zeros then 0
    else
      RestNatural(k - zeros, |pattern|);
      pattern[Layout.Rest(k - zeros, |pattern|)]
  }

  lemma {:induction false} PadByteAt(n: nat, pattern: seq<Byte>, k: nat)
    requires pattern != [] && k < n
    ensures PadBytes(n, pattern)[k] == PadByte(n, pattern, k)
    decreases n
  {
    var len := |pattern|;
    RestNatural(n, len);
    if Layout.Rest(n, len) != 0 {
      RestNext(n, len);
      if k > 0 {
        PadByteAt(n - 1, pattern, k - 1);
      }
    } else if k >= len {
      PadByteAt(n - len, pattern, k - len);
    }
  }

  /** Each byte in front of atom n; an empty space is padded with its own pattern, all else with that
      of the section. */
  lemma PaddingFilled(s: HexSection, n: nat, k: nat)
    requires n < |s.atoms| && Padded(s)
    ensures var a, before := s.atoms[n], SectionBytes(s, n);
            var pattern := if a.content.Space? && a.content.count == 0 then a.content.fill else s.pad;
            var gap := HexPadding(a, s.org + |before|);
            && pattern != [] && |SectionBytes(s, n + 1)| >= |before| + gap
            && (k < gap ==> SectionBytes(s, n + 1)[|before| + k] == PadByte(gap, pattern, k))
  {
    var a, before := s.atoms[n], SectionBytes(s, n);
    var gap := HexPadding(a, s.org + |before|);
    if k < gap {
      PadByteAt(gap, Pattern(a, s.pad), k);
    }
  }

  /** A byte of a filled space. */
  lemma {:induction false} RepeatedAt(fill: seq<Byte>, count: nat, i: nat, j: nat)
    requires i < count && j < |fill|
    ensures |Repeated(fill, count)| == count * |fill| && i * |fill| + j < count * |fill|
    ensures Repeated(fill, count)[i * |fill| + j] == fill[j]
    decreases count
  {
    RepeatedSize(fill, count - 1);
    RepeatedSize(fill, count);
    assert count * |fill| == (count - 1) * |fill| + |fill|;
    if i < count - 1 {
      RepeatedAt(fill, count - 1, i, j);
    }
  }

  lemma {:induction false} RepeatedSize(fill: seq<Byte>, count: nat)
    ensures |Repeated(fill, count)| == count * |fill|
  {
    if count > 0 {
      RepeatedSize(fill, count - 1);
      assert count * |fill| == (count - 1) * |fill| + |fill|;
    }
  }

  /** The padding is that of the resolver, unless a space that is not empty has an alignment limit
      and would need more: the resolver gives up there, the writer does not. */
  lemma PaddingAgrees(a: HexAtom, pc: int)
    requires a.align < 0x8000_0000
    ensures Expressions.Wrap(pc + HexPadding(a, pc)) == Layout.Aligned(LayoutAtom(a), Expressions.Wrap(pc))
            <==> !(a.content.Space? && a.content.count != 0 && a.content.maxAlign != 0
                   && Layout.Padding(Expressions.Wrap(pc), a.align) > a.content.maxAlign)
  {
    var n := Layout.Padding(Expressions.Wrap(pc), a.align);
    PaddingWithin(Expressions.Wrap(pc), a.align);
    WrapPlus(pc, n);
    WrapPlus(pc, 0);
  }

  /** Wrapping before adding makes no difference; adding less than 2^32 does. */
  lemma WrapPlus(pc: int, n: int)
    ensures Expressions.Wrap(Expressions.Wrap(pc) + n) == Expressions.Wrap(pc + n)
    ensures 0 < n < WORD ==> Expressions.Wrap(pc + n) != Expressions.Wrap(pc)
  {
    var k := Expressions.WrapRemoves(pc);
    Expressions.WrapSame(Expressions.Wrap(pc) + n, pc + n, k);
    var j := Expressions.WrapRemoves(pc + n);
  }

  /** The atom as the resolver sees it. */
  function LayoutAtom(a: HexAtom): Layout.Atom {
    Layout.Atom(if a.content.Space? then Layout.Space(a.content.maxAlign) else Layout.Other, a.align)
  }

  // ---------- text ----------

  function Digit(n: nat): char
    requires n < 16
  {
    "0123456789ABCDEF"[n]
  }

  function Hex(b: seq<Byte>): string {
    if b == [] then "" else [Digit(b[0] / 16), Digit(b[0] % 16)] + Hex(b[1..])
  }

  /** The text of some records; `cr` is absent in plain text output. */
  function Text(records: seq<seq<Byte>>, cr: bool): string {
    if records == [] then ""
    else ":" + (Hex(records[0]) + ((if cr then "\r\n" else "\n") + Text(records[1..], cr)))
  }

  function DigitValue(c: char): int {
    if '0' <= c <= '9' then c as int - '0' as int
    else if 'A' <= c <= 'F' then c as int - 'A' as int + 10
    else -1
  }

  /** Reading hexadecimal digits up to the end of the line. */
  function ReadBytes(s: string): (seq<Byte>, string) {
    if |s| >= 2 && DigitValue(s[0]) >= 0 && DigitValue(s[1]) >= 0 then
      var (b, rest) := ReadBytes(s[2..]);
      ([16 * DigitValue(s[0]) + DigitValue(s[1])] + b, rest)
    else ([], s)
  }

  lemma DigitBack(n: nat)
    requires n < 16
    ensures DigitValue(Digit(n)) == n
  {}

  lemma ReadMore(x: Byte, s: string, b: seq<Byte>, rest: string)
    requires ReadBytes(s) == (b, rest)
    ensures ReadBytes([Digit(x / 16), Digit(x % 16)] + s) == ([x] + b, rest)
  {
    DigitBack(x / 16);
    DigitBack(x % 16);
    assert ([Digit(x / 16), Digit(x % 16)] + s)[2..] == s;
  }

  lemma {:induction false} HexBack(b: seq<Byte>, rest: string)
    requires |rest| > 0 && DigitValue(rest[0]) < 0
    ensures ReadBytes(Hex(b) + rest) == (b, rest)
  {
    if b == [] {
      assert Hex(b) + rest == rest;
    } else {
      HexBack(b[1..], rest);
      ReadMore(b[0], Hex(b[1..]) + rest, b[1..], rest);
      Associative([Digit(b[0] / 16), Digit(b[0] % 16)], Hex(b[1..]), rest);
      HeadTail(b);
    }
  }

  /** Reading lines of records. */
  function ReadText(s: string, n: nat): seq<seq<Byte>>
    decreases n
  {
    if n == 0 || s == "" || s[0] != ':' then []
    else
      var (b, rest) := ReadBytes(s[1..]);
      var skip := if |rest| > 0 && rest[0] == '\r' then 2 else 1;
      if |rest| < skip then [] else [b] + ReadText(rest[skip..], n - 1)
  }

  /** The first line. */
  lemma LineBack(r: seq<Byte>, newline: string, text: string, n: nat)
    requires newline == "\r\n" || newline == "\n"
    ensures ReadText(":" + (Hex(r) + (newline + text)), n + 1) == [r] + ReadText(text, n)
  {
    HexBack(r, newline + text);
    var s := ":" + (Hex(r) + (newline + text));
    DropPrefix(":", Hex(r) + (newline + text));
    DropPrefix(newline, text);
  }

  /** The text can be read back. */
  lemma {:induction false} TextBack(records: seq<seq<Byte>>, cr: bool)
    ensures ReadText(Text(records, cr), |records|) == records
  {
    if records != [] {
      var text, newline := Text(records[1..], cr), if cr then "\r\n" else "\n";
      TextBack(records[1..], cr);
      LineBack(records[0], newline, text, |records| - 1);
      HeadTail(records);
    }
  }
}
