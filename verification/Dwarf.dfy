/** The line number program of a debug section, with the state machine that reads it back as in
    section 6.2 of the DWARF 3 standard, and variable-length numbers as in its section 7.6. */
module Dwarf {
  import opened Bitfields
  import opened Bits
  import opened Sequences

  // ---------- variable-length numbers ----------

  /** Unsigned LEB128. */
  function Uleb(c: nat): seq<Byte> {
    if c < 128 then [c] else [c % 128 + 128] + Uleb(c / 128)
  }

  /** Signed LEB128: the last byte repeats the sign in bit 6. */
  function Sleb(c: int): seq<Byte>
    decreases AbsOf(c)
  {
    if -64 <= c < 64 then [c % 128] else [c % 128 + 128] + Sleb(c / 128)
  }

  /** A number read, and the bytes behind it. */
  datatype Read = Read(val: int, rest: seq<Byte>)

  function ReadUleb(b: seq<Byte>): Option<Read> {
    if b == [] then None
    else
      var x: int := b[0];
      if x < 128 then Some(Read(x, b[1..]))
      else
        match ReadUleb(b[1..])
        case None => None
        case Some(r) => Some(Read(x - 128 + 128 * r.val, r.rest))
  }

  function ReadSleb(b: seq<Byte>): Option<Read> {
    if b == [] then None
    else
      var x: int := b[0];
      if x < 128 then Some(Read(if x < 64 then x else x - 128, b[1..]))
      else
        match ReadSleb(b[1..])
        case None => None
        case Some(r) => Some(Read(x - 128 + 128 * r.val, r.rest))
  }

  lemma {:induction false} UlebBack(c: nat, rest: seq<Byte>)
    ensures ReadUleb(Uleb(c) + rest) == Some(Read(c, rest))
  {
    if c >= 128 {
      UlebBack(c / 128, rest);
      assert (Uleb(c) + rest)[1..] == Uleb(c / 128) + rest;
    } else {
      assert (Uleb(c) + rest)[1..] == rest;
    }
  }

  lemma SlebMore(x: Byte, tail: seq<Byte>, v: int, rest: seq<Byte>)
    requires x >= 128 && ReadSleb(tail) == Some(Read(v, rest))
    ensures ReadSleb([x] + tail) == Some(Read(x - 128 + 128 * v, rest))
  {
    assert ([x] + tail)[1..] == tail;
  }

  lemma {:induction false} SlebBack(c: int, rest: seq<Byte>)
    ensures ReadSleb(Sleb(c) + rest) == Some(Read(c, rest))
    decreases AbsOf(c)
  {
    if -64 <= c < 64 {
      assert (Sleb(c) + rest)[1..] == rest;
    } else {
      SlebBack(c / 128, rest);
      SlebMore(c % 128 + 128, Sleb(c / 128) + rest, c / 128, rest);
      assert Sleb(c) + rest == [c % 128 + 128] + (Sleb(c / 128) + rest);
    }
  }

  /** `add_leb128_atom` */
  method AddUleb(c: nat) returns (out: seq<Byte>)
    ensures out == Uleb(c)
  {
    out := [];
    var rest := c;
    while true
      invariant out + Uleb(rest) == Uleb(c)
      decreases rest
    {
      var b := rest % 128;
      rest := rest / 128;
      if rest != 0 {
        b := b + 128;
      }
      out := out + [b];
      if rest == 0 {
        break;
      }
    }
  }

  /** When the rest of a signed number only repeats the sign bit. */
  lemma LastByte(c: int)
    ensures ((c / 128 == 0 && c % 128 < 64) || (c / 128 == -1 && c % 128 >= 64)) <==> -64 <= c < 64
    ensures !(-64 <= c < 64) ==> AbsOf(c / 128) < AbsOf(c)
  {}

  /** `add_sleb128_atom` */
  method AddSleb(c: int) returns (out: seq<Byte>)
    ensures out == Sleb(c)
  {
    out := [];
    var rest, done := c, false;
    while !done
      invariant if done then out == Sleb(c) else out + Sleb(rest) == Sleb(c)
      decreases !done, AbsOf(rest)
    {
      LastByte(rest);
      Associative(out, [rest % 128 + 128], Sleb(rest / 128));
      var b := rest % 128;
      rest := rest / 128;
      if (rest == 0 && b < 64) || (rest == -1 && b >= 64) {
        done := true;
      } else {
        b := b + 128;
      }
      out := out + [b];
    }
  }

  // ---------- the program and its state machine ----------

  const LINE_BASE := -8
  const LINE_RANGE := 16
  const OPCODE_BASE := 10
  const MAX_PC_ADVANCE := (255 - OPCODE_BASE) / LINE_RANGE

  /** Width of addresses in bytes, smallest instruction, byte order. */
  datatype Target = Target(addrLen: nat, minInst: nat, be: bool)

  datatype Op = Copy | AdvancePc(n: nat) | AdvanceLine(d: int) | SetFile(file: nat) | ConstAddPc
              | EndSequence | SetAddress(addr: nat) | Special(code: nat)

  /** A row of the line table. */
  datatype Row = Row(address: int, file: nat, line: int, end: bool)

  /** Registers of the state machine, and the rows appended so far. */
  datatype Machine = Machine(address: int, file: nat, line: int, rows: seq<Row>)

  function Reset(rows: seq<Row>): Machine {
    Machine(0, 1, 1, rows)
  }

  /** n times unit. */
  function Scaled(n: nat, unit: nat): nat {
    if n == 0 then 0 else Scaled(n - 1, unit) + unit
  }

  lemma {:induction false} ScaledIsProduct(n: nat, unit: nat)
    ensures Scaled(n, unit) == n * unit
  {
    if n > 0 {
      ScaledIsProduct(n - 1, unit);
      assert n * unit == (n - 1) * unit + unit;
    }
  }

  /** Instructions and lines that a special opcode advances by. */
  function PcAdvance(code: nat): nat {
    if code < OPCODE_BASE then 0 else (code - OPCODE_BASE) / LINE_RANGE
  }

  function LineAdvance(code: nat): int {
    LINE_BASE + (code - OPCODE_BASE) % LINE_RANGE
  }

  function SpecialCode(instoffs: nat, lineoffs: int): int {
    instoffs * LINE_RANGE + (lineoffs - LINE_BASE) + OPCODE_BASE
  }

  lemma SpecialAdvances(instoffs: nat, lineoffs: int)
    requires LINE_BASE <= lineoffs < LINE_BASE + LINE_RANGE
    ensures SpecialCode(instoffs, lineoffs) >= OPCODE_BASE
    ensures PcAdvance(SpecialCode(instoffs, lineoffs)) == instoffs
    ensures LineAdvance(SpecialCode(instoffs, lineoffs)) == lineoffs
  {}

  /** Opcode, operands, and what they do (section 6.2.5 of the DWARF 3 standard). */
  function Step(op: Op, t: Target, m: Machine): Machine {
    match op
    case Copy => Appended(m)
    case AdvancePc(n) => m.(address := m.address + Scaled(n, t.minInst))
    case AdvanceLine(d) => m.(line := m.line + d)
    case SetFile(f) => m.(file := f)
    case ConstAddPc => m.(address := m.address + Scaled((255 - OPCODE_BASE) / LINE_RANGE, t.minInst))
    case EndSequence => Reset(m.rows + [Row(m.address, m.file, m.line, true)])
    case SetAddress(a) => m.(address := a)
    case Special(code) =>
      Appended(m.(line := m.line + LineAdvance(code), address := m.address + Scaled(PcAdvance(code), t.minInst)))
  }

  function Execute(ops: seq<Op>, t: Target, m: Machine): Machine {
    if ops == [] then m else Step(ops[|ops| - 1], t, Execute(ops[..|ops| - 1], t, m))
  }

  /** An address as it lies in memory. */
  function AddressBytes(a: nat, t: Target): (b: seq<Byte>)
    ensures |b| == t.addrLen
  {
    seq(t.addrLen, k requires 0 <= k < t.addrLen => Bytes(a, t.addrLen)[Nth(t.be, t.addrLen, k)])
  }

  function EncodeOp(op: Op, t: Target): seq<Byte>
    requires Encodable(op, t)
  {
    match op
    case Copy => [1]
    case AdvancePc(n) => [2] + Uleb(n)
    case AdvanceLine(d) => [3] + Sleb(d)
    case SetFile(f) => [4] + Uleb(f)
    case ConstAddPc => [8]
    case EndSequence => [0, 1, 1]
    case SetAddress(a) => [0, t.addrLen + 1, 2] + AddressBytes(a, t)
    case Special(code) => [code]
  }

  /** Operands fit. */
  predicate Encodable(op: Op, t: Target) {
    && (op.Special? ==> OPCODE_BASE <= op.code < 256)
    && (op.SetAddress? ==> op.addr < Double(1, 8 * t.addrLen) && t.addrLen < 127)
  }

  predicate AllEncodable(ops: seq<Op>, t: Target) {
    ops == [] || (AllEncodable(ops[..|ops| - 1], t) && Encodable(ops[|ops| - 1], t))
  }

  function Encode(ops: seq<Op>, t: Target): seq<Byte>
    requires AllEncodable(ops, t)
  {
    if ops == [] then [] else Encode(ops[..|ops| - 1], t) + EncodeOp(ops[|ops| - 1], t)
  }

  /** An opcode decoded, and the bytes behind it. */
  datatype Decoded = Decoded(op: Op, rest: seq<Byte>)

  /** A reader that knows the opcodes that are used. */
  function DecodeOp(b: seq<Byte>, t: Target): Option<Decoded> {
    if b == [] then None
    else if b[0] >= OPCODE_BASE then Some(Decoded(Special(b[0]), b[1..]))
    else if b[0] == 0 then DecodeExtended(b[1..], t)
    else if b[0] == 1 then Some(Decoded(Copy, b[1..]))
    else if b[0] == 8 then Some(Decoded(ConstAddPc, b[1..]))
    else if b[0] == 3 then
      match ReadSleb(b[1..])
      case None => None
      case Some(r) => Some(Decoded(AdvanceLine(r.val), r.rest))
    else if b[0] == 2 || b[0] == 4 then
      match ReadUleb(b[1..])
      case None => None
      case Some(r) =>
        if r.val < 0 then None
        else Some(Decoded(if b[0] == 2 then AdvancePc(r.val) else SetFile(r.val), r.rest))
    else None
  }

  /** Length, sub-opcode and operand of an extended opcode. */
  function DecodeExtended(b: seq<Byte>, t: Target): Option<Decoded> {
    match ReadUleb(b)
    case None => None
    case Some(r) =>
      if r.val < 1 || r.val > |r.rest| then None
      else if r.rest[0] == 1 && r.val == 1 then Some(Decoded(EndSequence, r.rest[1..]))
      else if r.rest[0] == 2 && r.val == t.addrLen + 1 then
        Some(Decoded(SetAddress(Number(Fetched(t.be, r.rest, 1, t.addrLen))), r.rest[r.val..]))
      else None
  }

  /** Reading a whole program. */
  function Decode(b: seq<Byte>, t: Target): Option<seq<Op>>
    decreases |b|
  {
    if b == [] then Some([])
    else
      match DecodeOp(b, t)
      case None => None
      case Some(d) =>
        if |d.rest| >= |b| then None
        else
          match Decode(d.rest, t)
          case None => None
          case Some(ops) => Some([d.op] + ops)
  }

  // ---------- the reader undoes the writer ----------

  lemma AddressBack(a: nat, t: Target, rest: seq<Byte>)
    requires a < Double(1, 8 * t.addrLen)
    ensures Number(Fetched(t.be, [2] + AddressBytes(a, t) + rest, 1, t.addrLen)) == a
  {
    var d := Fetched(t.be, [2] + AddressBytes(a, t) + rest, 1, t.addrLen);
    forall k | 0 <= k < t.addrLen ensures d[k] == Bytes(a, t.addrLen)[k] {
      assert Nth(t.be, t.addrLen, Nth(t.be, t.addrLen, k)) == k;
    }
    assert d == Bytes(a, t.addrLen);
    HalveIsZero(a, 8 * t.addrLen);
    NumberOfBytes(a, t.addrLen);
  }

  lemma ExtendedBack(op: Op, t: Target, rest: seq<Byte>)
    requires Encodable(op, t) && (op.EndSequence? || op.SetAddress?)
    ensures DecodeExtended(EncodeOp(op, t)[1..] + rest, t) == Some(Decoded(op, rest))
  {
    if op.EndSequence? {
      UlebBack(1, [1] + rest);
      assert EncodeOp(op, t)[1..] + rest == Uleb(1) + ([1] + rest);
    } else {
      var tail := [2] + AddressBytes(op.addr, t) + rest;
      UlebBack(t.addrLen + 1, tail);
      assert EncodeOp(op, t)[1..] + rest == Uleb(t.addrLen + 1) + tail;
      AddressBack(op.addr, t, rest);
      assert tail[t.addrLen + 1..] == rest;
    }
  }

  lemma OpBack(op: Op, t: Target, rest: seq<Byte>)
    requires Encodable(op, t)
    ensures EncodeOp(op, t) != [] && DecodeOp(EncodeOp(op, t) + rest, t) == Some(Decoded(op, rest))
  {
    var e := EncodeOp(op, t);
    assert (e + rest)[1..] == e[1..] + rest;
    match op
    case AdvancePc(n) => UlebBack(n, rest);
    case SetFile(f) => UlebBack(f, rest);
    case AdvanceLine(d) => SlebBack(d, rest);
    case EndSequence => ExtendedBack(op, t, rest);
    case SetAddress(a) => ExtendedBack(op, t, rest);
    case _ => assert e[1..] + rest == rest;
  }

  lemma DecodeFirst(op: Op, t: Target, rest: seq<Byte>, more: seq<Op>)
    requires Encodable(op, t) && Decode(rest, t) == Some(more)
    ensures Decode(EncodeOp(op, t) + rest, t) == Some([op] + more)
  {
    OpBack(op, t, rest);
  }

  lemma {:induction false} DecodeLonger(ops: seq<Op>, t: Target, tail: seq<Byte>, more: seq<Op>)
    requires AllEncodable(ops, t) && Decode(tail, t) == Some(more)
    ensures Decode(Encode(ops, t) + tail, t) == Some(ops + more)
  {
    if ops == [] {
      assert Encode(ops, t) + tail == tail && ops + more == more;
    } else {
      var init, last := ops[..|ops| - 1], ops[|ops| - 1];
      DecodeFirst(last, t, tail, more);
      var e := EncodeOp(last, t);
      DecodeLonger(init, t, e + tail, [last] + more);
      Associative(Encode(init, t), e, tail);
      LastFirst(ops, more);
    }
  }

  /** Reading a written program gives its opcodes back. */
  lemma DecodeEncode(ops: seq<Op>, t: Target)
    requires AllEncodable(ops, t)
    ensures Decode(Encode(ops, t), t) == Some(ops)
  {
    DecodeLonger(ops, t, [], []);
    assert Encode(ops, t) + [] == Encode(ops, t) && ops + [] == ops;
  }

  /** The line table that a program describes. */
  function Table(b: seq<Byte>, t: Target): Option<seq<Row>> {
    match Decode(b, t)
    case None => None
    case Some(ops) => Some(Execute(ops, t, Reset([])).rows)
  }

  lemma ExecuteMore(ops: seq<Op>, op: Op, t: Target, m: Machine)
    ensures Execute(ops + [op], t, m) == Step(op, t, Execute(ops, t, m))
  {
    assert (ops + [op])[..|ops|] == ops;
  }

  lemma EncodeMore(ops: seq<Op>, op: Op, t: Target)
    requires AllEncodable(ops, t) && Encodable(op, t)
    ensures AllEncodable(ops + [op], t) && Encode(ops + [op], t) == Encode(ops, t) + EncodeOp(op, t)
  {
    assert (ops + [op])[..|ops|] == ops;
  }

  lemma {:induction false} SplitAdvance(n: nat, k: nat, minInst: nat)
    requires k <= n
    ensures Scaled(n - k, minInst) + Scaled(k, minInst) == Scaled(n, minInst)
  {
    if k < n {
      SplitAdvance(n - 1, k, minInst);
    }
  }

  lemma WholeInstructions(d: nat, minInst: nat)
    requires minInst > 0 && d % minInst == 0
    ensures Scaled(d / minInst, minInst) == d
  {
    ScaledIsProduct(d / minInst, minInst);
  }

  /** A new row for the registers as they are. */
  function Appended(m: Machine): Machine {
    m.(rows := m.rows + [Row(m.address, m.file, m.line, false)])
  }

  /** The machine advanced, with a new row. */
  function WithRow(m: Machine, advance: int, lines: int): Machine {
    Appended(m.(address := m.address + advance, line := m.line + lines))
  }

  /** The writer. `ops` is the program written so far, and `machine` what a reader makes of it. */
  class LineProgram {
    const t: Target
    var address: int
    var file: nat
    var line: int
    var endSequence: bool
    var out: seq<Byte>
    ghost var ops: seq<Op>
    ghost var machine: Machine

    constructor (t: Target)
      requires t.minInst > 0 && t.addrLen < 127
      ensures Valid() && machine.rows == [] && endSequence && this.t == t
    {
      this.t := t;
      address, file, line, endSequence, out, ops, machine := 0, 1, 1, true, [], [], Reset([]);
    }

    /** The bytes are those of the opcodes, and the machine has executed them. */
    ghost predicate Written()
      reads this
    {
      && t.minInst > 0 && t.addrLen < 127
      && AllEncodable(ops, t) && out == Encode(ops, t) && machine == Execute(ops, t, Reset([]))
    }

    /** Between calls, the registers kept by the writer are those of the machine. */
    ghost predicate Valid()
      reads this
    {
      Written() && machine == if endSequence then Reset(machine.rows) else Machine(address, file, line, machine.rows)
    }

    /** A reader of the program written so far gets exactly the rows. */
    lemma ReadsBack()
      requires Written()
      ensures Table(out, t) == Some(machine.rows)
    {
      DecodeEncode(ops, t);
    }

    method Put(b: seq<Byte>, ghost op: Op)
      requires Written() && Encodable(op, t) && b == EncodeOp(op, t)
      modifies this`out, this`ops, this`machine
      ensures Written() && machine == Step(op, t, old(machine))
    {
      EncodeMore(ops, op, t);
      ExecuteMore(ops, op, t, Reset([]));
      out := out + b;
      ops := ops + [op];
      machine := Step(op, t, machine);
    }

    method PutCopy()
      requires Written()
      modifies this`out, this`ops, this`machine
      ensures Written() && machine == Appended(old(machine))
    {
      Put([1], Copy);
    }

    method PutFile(f: nat)
      requires Written()
      modifies this`out, this`ops, this`machine
      ensures Written() && machine == old(machine).(file := f)
    {
      var b := AddUleb(f);
      Put([4] + b, SetFile(f));
    }

    method PutLine(d: int)
      requires Written()
      modifies this`out, this`ops, this`machine
      ensures Written() && machine == old(machine).(line := old(machine.line) + d)
    {
      var b := AddSleb(d);
      Put([3] + b, AdvanceLine(d));
    }

    /** `dwarf_set_address` */
    method PutAddress(pc: nat)
      requires Written() && pc < Double(1, 8 * t.addrLen)
      modifies this`out, this`ops, this`machine
      ensures Written() && machine == old(machine).(address := pc)
    {
      Put([0, t.addrLen + 1, 2] + AddressBytes(pc, t), SetAddress(pc));
    }

    /** The largest advance, without an operand. */
    method PutLargest()
      requires Written()
      modifies this`out, this`ops, this`machine
      ensures Written() && machine == old(machine).(address := old(machine.address) + Scaled(MAX_PC_ADVANCE, t.minInst))
    {
      Put([8], ConstAddPc);
    }

    method PutAdvance(n: nat)
      requires Written()
      modifies this`out, this`ops, this`machine
      ensures Written() && machine == old(machine).(address := old(machine.address) + Scaled(n, t.minInst))
    {
      var b := AddUleb(n);
      Put([2] + b, AdvancePc(n));
    }

    /** `dwarf_end_sequence`: the row of the end of the section, once. */
    method End(pc: nat)
      requires Valid() && pc < Double(1, 8 * t.addrLen)
      modifies this
      ensures Valid() && endSequence
      ensures machine.rows == old(machine.rows) + if old(endSequence) then [] else [Row(pc, old(file), old(line), true)]
    {
      if !endSequence {
        PutAddress(pc);
        Put([0, 1, 1], EndSequence);
        endSequence := true;
      }
    }

    method SwitchFile(f: nat)
      requires Written() && machine.file == file
      modifies this`out, this`ops, this`machine, this`file
      ensures Written() && file == f && machine.file == f
      ensures machine.address == old(machine.address) && machine.line == old(machine.line)
              && machine.rows == old(machine.rows)
    {
      if f != file {
        PutFile(f);
        file := f;
      }
    }

    /** The first row of a sequence. */
    method Begin(pc: nat, file: nat, line: int)
      requires Valid() && endSequence && pc < Double(1, 8 * t.addrLen)
      modifies this
      ensures Valid() && !endSequence && address == pc && this.file == file && this.line == line
      ensures machine.rows == old(machine.rows) + [Row(pc, file, line, false)]
    {
      this.file, this.line, endSequence, address := 1, 1, false, pc;
      PutAddress(pc);
      SwitchFile(file);
      if line != this.line {
        PutLine(line - this.line);
        this.line := line;
      }
      PutCopy();
    }

    /** Brings the address near enough: what is left to advance takes at most one opcode. */
    method Approach(instoffs: nat) returns (left: nat)
      requires Written()
      modifies this`out, this`ops, this`machine
      ensures Written() && left <= MAX_PC_ADVANCE
      ensures machine.file == old(machine.file) && machine.line == old(machine.line)
              && machine.rows == old(machine.rows)
      ensures machine.address + Scaled(left, t.minInst) == old(machine.address) + Scaled(instoffs, t.minInst)
    {
      left := instoffs;
      if instoffs > MAX_PC_ADVANCE {
        if instoffs - MAX_PC_ADVANCE <= MAX_PC_ADVANCE {
          PutLargest();
          left := instoffs - MAX_PC_ADVANCE;
          SplitAdvance(instoffs, MAX_PC_ADVANCE, t.minInst);
        } else {
          PutAdvance(instoffs);
          left := 0;
        }
      }
    }

    /** A line advance that no special opcode has. */
    method ApproachLine(lineoffs: int) returns (left: int)
      requires Written()
      modifies this`out, this`ops, this`machine
      ensures Written()
      ensures machine.address == old(machine.address) && machine.file == old(machine.file)
              && machine.rows == old(machine.rows)
      ensures machine.line + left == old(machine.line) + lineoffs && LINE_BASE <= left < LINE_BASE + LINE_RANGE
    {
      left := lineoffs;
      if lineoffs < LINE_BASE || lineoffs >= LINE_BASE + LINE_RANGE {
        PutLine(lineoffs);
        left := 0;
      }
    }

    /** A row by standard opcodes. */
    method PutStandard(instoffs: nat, lineoffs: int)
      requires Written() && (instoffs == 0 || instoffs == MAX_PC_ADVANCE)
      modifies this`out, this`ops, this`machine
      ensures Written() && machine == WithRow(old(machine), Scaled(instoffs, t.minInst), lineoffs)
    {
      PutRest(instoffs);
      PutLineRow(lineoffs);
    }

    method PutRest(instoffs: nat)
      requires Written() && (instoffs == 0 || instoffs == MAX_PC_ADVANCE)
      modifies this`out, this`ops, this`machine
      ensures Written() && machine == old(machine).(address := old(machine.address) + Scaled(instoffs, t.minInst))
    {
      if instoffs == MAX_PC_ADVANCE {
        PutLargest();
      }
    }

    method PutLineRow(lineoffs: int)
      requires Written()
      modifies this`out, this`ops, this`machine
      ensures Written() && machine == Appended(old(machine).(line := old(machine.line) + lineoffs))
    {
      if lineoffs != 0 {
        PutLine(lineoffs);
      }
      PutCopy();
    }

    /** The row itself: a special opcode if there is one for both advances, standard opcodes if
        not. Then no other advance than the largest can be left. */
    method PutRow(instoffs: nat, lineoffs: int)
      requires Written() && instoffs <= MAX_PC_ADVANCE && LINE_BASE <= lineoffs < LINE_BASE + LINE_RANGE
      modifies this`out, this`ops, this`machine
      ensures Written() && machine == WithRow(old(machine), Scaled(instoffs, t.minInst), lineoffs)
    {
      var code := SpecialCode(instoffs, lineoffs);
      if code < 0 || code > 0xff {
        if instoffs != MAX_PC_ADVANCE && instoffs != 0 {
          assert false;
        }
        PutStandard(instoffs, lineoffs);
      } else {
        SpecialAdvances(instoffs, lineoffs);
        Put([code], Special(code));
      }
    }

    method AdvanceWithRow(advance: nat, lines: int)
      requires Written()
      modifies this`out, this`ops, this`machine
      ensures Written() && machine == WithRow(old(machine), Scaled(advance, t.minInst), lines)
    {
      var instoffs := Approach(advance);
      LinesWithRow(instoffs, lines);
    }

    method LinesWithRow(instoffs: nat, lines: int)
      requires Written() && instoffs <= MAX_PC_ADVANCE
      modifies this`out, this`ops, this`machine
      ensures Written() && machine == WithRow(old(machine), Scaled(instoffs, t.minInst), lines)
    {
      var lineoffs := ApproachLine(lines);
      PutRow(instoffs, lineoffs);
    }

    method PutFileRow(f: nat, advance: nat, lines: int)
      requires Written() && machine.file == file
      modifies this`out, this`ops, this`machine, this`file
      ensures Written() && file == f
      ensures machine == WithRow(old(machine).(file := f), Scaled(advance, t.minInst), lines)
    {
      SwitchFile(f);
      AdvanceWithRow(advance, lines);
    }

    /** A further row of a sequence. */
    method Next(pc: nat, advance: nat, file: nat, line: int)
      requires Valid() && !endSequence && address + Scaled(advance, t.minInst) == pc
      modifies this
      ensures Valid() && !endSequence && address == pc && this.file == file && this.line == line
      ensures machine.rows == old(machine.rows) + [Row(pc, file, line, false)]
    {
      PutFileRow(file, advance, line - this.line);
      address := pc;
      this.line := line;
    }

    /** `dwarf_line` */
    method Line(pc: nat, file: nat, line: int)
      requires Valid() && file > 0 && line > 0 && pc < Double(1, 8 * t.addrLen)
      requires !endSequence ==> pc >= address && (pc - address) % t.minInst == 0
      modifies this
      ensures Valid() && !endSequence && address == pc && this.file == file && this.line == line
      ensures machine.rows == old(machine.rows) + [Row(pc, file, line, false)]
    {
      if endSequence {
        Begin(pc, file, line);
      } else {
        WholeInstructions(pc - address, t.minInst);
        Next(pc, (pc - address) / t.minInst, file, line);
      }
    }
  }

  // ---------- whole runs ----------

  /** The calls that write a line program: one for each instruction, one for each section end. */
  datatype Call = LineCall(pc: nat, file: nat, line: int) | EndCall(pc: nat)

  /** The line table that a run of calls means: every line call is a row, and the end of a section
      is one if the section had any. */
  datatype Meaning = Meaning(open: bool, last: Row, rows: seq<Row>)

  function Meant(calls: seq<Call>): Meaning {
    if calls == [] then Meaning(false, Row(0, 1, 1, false), [])
    else MeantNext(Meant(calls[..|calls| - 1]), calls[|calls| - 1])
  }

  function MeantNext(m: Meaning, c: Call): Meaning {
    match c
    case LineCall(pc, file, line) =>
      var r := Row(pc, file, line, false);
      Meaning(true, r, m.rows + [r])
    case EndCall(pc) =>
      if m.open then Meaning(false, m.last, m.rows + [Row(pc, m.last.file, m.last.line, true)]) else m
  }

  /** Within a section, addresses rise by whole instructions; files and lines are positive. */
  predicate Legal(calls: seq<Call>, t: Target) {
    calls == [] || (Legal(calls[..|calls| - 1], t) && LegalNext(Meant(calls[..|calls| - 1]), calls[|calls| - 1], t))
  }

  predicate LegalNext(m: Meaning, c: Call, t: Target) {
    && c.pc < Double(1, 8 * t.addrLen)
    && (c.LineCall? ==> c.file > 0 && c.line > 0)
    && (c.LineCall? && m.open && t.minInst > 0 ==> c.pc >= m.last.address && (c.pc - m.last.address) % t.minInst == 0)
  }

  lemma {:induction false} LegalPrefix(calls: seq<Call>, t: Target, n: nat)
    requires Legal(calls, t) && n <= |calls|
    ensures Legal(calls[..n], t)
    decreases |calls|
  {
    if n < |calls| {
      LegalPrefix(calls[..|calls| - 1], t, n);
      assert calls[..|calls| - 1][..n] == calls[..n];
    } else {
      assert calls[..n] == calls;
    }
  }

  /** The writer stands where the calls so far have led. */
  ghost predicate Stands(p: LineProgram, m: Meaning)
    reads p
  {
    && p.Valid() && p.machine.rows == m.rows && p.endSequence == !m.open
    && (m.open ==> p.address == m.last.address && p.file == m.last.file && p.line == m.last.line)
  }

  method WriteCall(p: LineProgram, c: Call, ghost m: Meaning)
    requires Stands(p, m) && LegalNext(m, c, p.t)
    modifies p
    ensures Stands(p, MeantNext(m, c))
  {
    match c
    case LineCall(pc, file, line) => p.Line(pc, file, line);
    case EndCall(pc) => p.End(pc);
  }

  /** Whatever legal run is written, a DWARF reader gets exactly the rows it means. */
  method WriteProgram(calls: seq<Call>, t: Target) returns (b: seq<Byte>)
    requires t.minInst > 0 && t.addrLen < 127 && Legal(calls, t)
    ensures Table(b, t) == Some(Meant(calls).rows)
  {
    var p := new LineProgram(t);
    for i := 0 to |calls|
      invariant Stands(p, Meant(calls[..i])) && fresh(p)
    {
      LegalPrefix(calls, t, i + 1);
      assert calls[..i + 1][..i] == calls[..i];
      WriteCall(p, calls[i], Meant(calls[..i]));
    }
    assert calls[..|calls|] == calls;
    p.ReadsBack();
    b := p.out;
  }
}
