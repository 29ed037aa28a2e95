/** Instruction selection of the 6502 backend: addressing modes and branches change form with the
    value of their operand. */
module Cpu6502 {
  import opened Bitfields
  import opened Bits
  import Expressions
  import Operators
  import opened Sequences

  /** Addressing modes, in the order of the source. */
  datatype Mode = Implied | DataOp | Abs | AbsX | AbsY | AbsZ | LAbs | LAbsX | DPage | DPageX | DPageY | DPageZ
                | Sr | Indir | DPIndX | DPIndY | DPIndZ | DPInd | SrIndY | IndirX | LIndir | LDPIndY | QDPIndZ
                | LDPInd | QDPInd | RelJmp | Rel8 | Rel16 | Immed | ImmedX | Immed8 | Immed16 | WBit | MVBank | Accu

  /** `opsize` */
  function OpSize(m: Mode): nat {
    match m
    case Abs | AbsX | AbsY | AbsZ | Indir | IndirX | LIndir | QDPIndZ | QDPInd | Rel16 | Immed16 => 2
    case LAbs | LAbsX => 3
    case RelJmp => 4
    case Implied | DataOp | Immed | ImmedX | WBit | Accu => 0
    case _ => 1
  }

  predicate IsAbs(m: Mode) {
    m == Abs || m == AbsX || m == AbsY || m == AbsZ
  }

  /** The zero page mode, found by its distance from the absolute one. */
  function ZeroPage(m: Mode): Mode
    requires IsAbs(m)
  {
    match m
    case Abs => DPage
    case AbsX => DPageX
    case AbsY => DPageY
    case AbsZ => DPageZ
  }

  /** The long mode, likewise. Only the first two have one; a row for the others must not allow it. */
  function LongMode(m: Mode): Mode
    requires IsAbs(m)
  {
    match m
    case Abs => LAbs
    case AbsX => LAbsX
    case AbsY => DPage
    case AbsZ => DPageX
  }

  /** A row of the opcode table; zp and al are 0 if there is no such form. */
  datatype Row = Row(opcode: Byte, zp: Byte, al: Byte, quad: bool, move: bool)

  /** Opcode table and options; jmp and bra are rows. */
  datatype Cpu = Cpu(rows: nat -> Row, jmp: nat, bra: nat, hasBra: bool, wide: bool, branchOpt: bool, dpage: nat,
                     autoMask: bool)

  /** What evaluating an operand yields: nothing, a constant, or a value with a base. Of a base it
      matters whether branches to it need a relocation, and where it lies. */
  datatype Value = Missing | Const(val: int) | Based(val: int, reloc: bool, zero: bool, near: bool, far: bool)

  datatype Operand = Operand(mode: Mode, value: Value, lo: bool, hi: bool, wa: bool, bk: bool)

  // ---------- selection ----------

  /** Both the constant and the base say zero page, or a selector asks for it. */
  predicate WantsZeroPage(cpu: Cpu, row: Row, op: Operand)
    requires !op.value.Missing?
  {
    row.zp != 0 &&
    (op.lo || (!op.hi && !op.wa &&
               match op.value
               case Const(v) => cpu.dpage <= v <= cpu.dpage + 0xff
               case Based(_, _, zero, near, _) => zero || near))
  }

  predicate WantsLong(cpu: Cpu, row: Row, op: Operand)
    requires !op.value.Missing?
  {
    cpu.wide && row.al != 0 &&
    (op.hi || (!op.wa && !op.lo &&
               match op.value
               case Const(v) => v > 0xffff
               case Based(_, _, _, _, far) => far))
  }

  predicate Direct(v: Value) {
    v.Const? || (v.Based? && !v.reloc)
  }

  /** An operand and the table row of its instruction after optimization. */
  function Selected(cpu: Cpu, row: Row, code: nat, op: Operand, pc: int): (nat, Operand) {
    if op.value.Missing? then (code, op)
    else if IsAbs(op.mode) then
      if WantsZeroPage(cpu, row, op) then (code, op.(mode := ZeroPage(op.mode)))
      else if WantsLong(cpu, row, op) then (code, op.(mode := LongMode(op.mode)))
      else (code, op)
    else if cpu.branchOpt then
      var bd := op.value.val - (pc + 2);
      if op.mode == Rel8 && Direct(op.value) && (bd < -0x80 || bd > 0x7f) then
        if row.opcode == 0x80 || row.opcode == 0x12 then (cpu.jmp, op.(mode := Abs))
        else (code, op.(mode := RelJmp))
      else if code == cpu.jmp && cpu.hasBra && Direct(op.value) && -0x80 <= bd <= 0x80 then
        (cpu.bra, op.(mode := Rel8))
      else (code, op)
    else (code, op)
  }

  /** The first n operands after optimization. The row is looked up once, before. */
  function OptimizedTo(cpu: Cpu, code: nat, ops: seq<Operand>, pc: int, n: nat): (r: (nat, seq<Operand>))
    requires n <= |ops|
    ensures |r.1| == |ops| && r.1[n..] == ops[n..]
  {
    if n == 0 then (code, ops)
    else
      var (c, o) := OptimizedTo(cpu, code, ops, pc, n - 1);
      var (c1, op) := Selected(cpu, cpu.rows(code), c, o[n - 1], pc);
      (c1, o[n - 1 := op])
  }

  /** `get_inst_size` for the operands. */
  function SizeOf(ops: seq<Operand>, n: nat): nat
    requires n <= |ops|
  {
    if n == 0 then 0 else SizeOf(ops, n - 1) + OpSize(ops[n - 1].mode)
  }

  function InstSize(cpu: Cpu, code: nat, ops: seq<Operand>): nat {
    1 + SizeOf(ops, |ops|) + if cpu.rows(code).quad then 2 else 0
  }

  /** `instruction_size`: the size after optimizing a copy. */
  function InstructionSize(cpu: Cpu, code: nat, ops: seq<Operand>, pc: int): nat {
    var (c, o) := OptimizedTo(cpu, code, ops, pc, |ops|);
    InstSize(cpu, c, o)
  }

  // ---------- operand values ----------

  /** What is written for an operand at offset offs of its instruction. */
  function Written(cpu: Cpu, op: Operand, pc: int, offs: nat): int
    requires !op.value.Missing?
  {
    var v := op.value.val;
    match op.mode
    case Rel8 => if Direct(op.value) then v - (pc + offs + 1) else v
    case Rel16 => if Direct(op.value) then v - (pc + offs + 2) else v
    case MVBank => (v / 0x1_0000) % 256
    case Immed8 =>
      if op.bk then (v / 0x1_0000) % 256 else if op.hi then (v / 256) % 256
      else if op.lo || cpu.autoMask then v % 256 else v
    case Immed16 =>
      if op.bk then (v / 0x1_0000) % 0x1_0000 else if op.hi then (v / 256) % 0x1_0000
      else if op.lo || cpu.autoMask then v % 0x1_0000 else v
    case DPage | DPageX | DPageY | DPageZ | DPIndX | DPIndY | DPIndZ | DPInd | LDPIndY | QDPIndZ | LDPInd | QDPInd =>
      if op.value.Based? then v else if op.lo then v % 256 else v - cpu.dpage
    case Abs | AbsX | AbsY | AbsZ | Indir | IndirX | LIndir | RelJmp =>
      if op.value.Const? && (cpu.wide || op.hi || op.wa) then v % 0x1_0000 else v
    case LAbs | LAbsX => if op.value.Const? then v % 0x100_0000 else v
    case _ => v
  }

  /** `rangecheck`: the value does not fit its field. */
  predicate OutOfRange(op: Operand, v: int) {
    match op.mode
    case Abs | AbsX | AbsY | AbsZ | Indir | IndirX | LIndir | RelJmp => op.value.Const? && (v < 0 || v > 0xffff)
    case DPage | DPageX | DPageY | DPageZ | DPIndX | DPIndY | DPIndZ | LDPInd | QDPInd | LDPIndY | QDPIndZ | DPInd =>
      op.value.Const? && (v < 0 || v > 0xff)
    case Sr | SrIndY => v < 0 || v > 0xff
    case Immed8 => v < -0x80 || v > 0xff
    case Immed16 => v < -0x8000 || v > 0xffff
    case Rel8 => v < -0x80 || v > 0x7f
    case Rel16 => v < -0x8000 || v > 0x7fff
    case WBit => v < 0 || v > 7
    case _ => false
  }

  /** An indexed absolute operand of an instruction that has only a zero page form. */
  predicate NoForm(m: Mode, first: Byte) {
    (m == AbsX || m == AbsY || m == AbsZ) && first == 0
  }

  /** The errors reported for an operand of which v is written; first is the first byte. */
  function OperandErrors(op: Operand, v: int, first: Byte): nat {
    (if OutOfRange(op, v) then 1 else 0) + if NoForm(op.mode, first) then 1 else 0
  }

  /** The opcode byte for the modes chosen. */
  function OpcodeFor(row: Row, ops: seq<Operand>, n: nat): Byte
    requires n <= |ops|
  {
    if n == 0 then row.opcode
    else
      match ops[n - 1].mode
      case LAbs | LAbsX => row.al
      case DPage | DPageX | DPageY | DPageZ => row.zp
      case RelJmp => Inverted(OpcodeFor(row, ops, n - 1))
      case _ => OpcodeFor(row, ops, n - 1)
  }

  /** Bit 5 flipped. */
  function Inverted(oc: Byte): Byte {
    if oc / 32 % 2 == 1 then oc - 32 else oc + 32
  }

  // ---------- bytes ----------

  function Or(x: Byte, y: Byte): Byte {
    OrRange(x, y, 8);
    Expressions.Bitwise(Expressions.BOr, x, y, 8)
  }

  lemma {:induction false} OrRange(x: int, y: int, bits: nat)
    ensures 0 <= Expressions.Bitwise(Expressions.BOr, x, y, bits) < Double(1, bits)
    decreases bits
  {
    if bits > 0 {
      OrRange(x / 2, y / 2, bits - 1);
    }
  }

  /** An operand can be written: a value exactly where bytes or a bit number are needed. */
  predicate Shaped(op: Operand) {
    if op.value.Missing? then OpSize(op.mode) == 0
    else op.mode == WBit || OpSize(op.mode) > 0
  }

  /** The bytes of an instruction with the value of one more operand. */
  function AppendedValue(m: Mode, b: seq<Byte>, v: int): (r: seq<Byte>)
    requires b != [] && (m == WBit || OpSize(m) > 0)
    ensures |r| == |b| + OpSize(m)
  {
    match m
    case RelJmp => b + [3, 0x4c] + Bytes(v, 2)
    case QDPInd | QDPIndZ => b[..|b| - 1] + [0xea, b[|b| - 1]] + Bytes(v, 1)
    case WBit => [Or(b[0], (v % 8) * 16)] + b[1..]
    case m => b + Bytes(v, OpSize(m))
  }

  /** The bytes of an instruction with one more operand. */
  function Appended(cpu: Cpu, op: Operand, b: seq<Byte>, pc: int): (r: seq<Byte>)
    requires b != [] && Shaped(op)
    ensures |r| == |b| + OpSize(op.mode)
  {
    if op.value.Missing? then b else AppendedValue(op.mode, b, Written(cpu, op, pc, |b|))
  }

  /** The opcode with its prefix. */
  function Head(row: Row, oc: Byte): (b: seq<Byte>)
    ensures b != []
  {
    if row.quad then [0x42, 0x42, oc] else [oc]
  }

  function BytesTo(cpu: Cpu, head: seq<Byte>, ops: seq<Operand>, pc: int, n: nat): (b: seq<Byte>)
    requires n <= |ops| && head != [] && forall i :: 0 <= i < |ops| ==> Shaped(ops[i])
    ensures |b| == |head| + SizeOf(ops, n)
  {
    if n == 0 then head else Appended(cpu, ops[n - 1], BytesTo(cpu, head, ops, pc, n - 1), pc)
  }

  /** Source and destination of block moves are exchanged. */
  function Ordered(row: Row, ops: seq<Operand>): (r: seq<Operand>)
    ensures |r| == |ops|
  {
    if !row.quad && row.move && |ops| >= 2 then [ops[1], ops[0]] + ops[2..] else ops
  }

  /** All operands can be written, and a branch around a jump stands first. */
  predicate Emittable(row: Row, ops: seq<Operand>) {
    && (forall i :: 0 <= i < |ops| ==> Shaped(ops[i]))
    && (forall i :: 0 <= i < |ops| && ops[i].mode == RelJmp ==> !row.quad && SizeOf(ops, i) == 0)
  }

  /** The bytes of an optimized instruction. */
  function Emitted(cpu: Cpu, code: nat, ops: seq<Operand>, pc: int): seq<Byte>
    requires Emittable(cpu.rows(code), Ordered(cpu.rows(code), ops))
  {
    var row := cpu.rows(code);
    BytesTo(cpu, Head(row, OpcodeFor(row, ops, |ops|)), Ordered(row, ops), pc, |ops|)
  }

  lemma {:induction false} SizeSwapped(ops: seq<Operand>, n: nat)
    requires 2 <= n <= |ops|
    ensures SizeOf([ops[1], ops[0]] + ops[2..], n) == SizeOf(ops, n)
  {
    var r := [ops[1], ops[0]] + ops[2..];
    if n == 2 {
      assert SizeOf(r, 0) == 0 && SizeOf(ops, 0) == 0;
      assert SizeOf(r, 1) == OpSize(r[0].mode) && SizeOf(ops, 1) == OpSize(ops[0].mode);
    } else {
      SizeSwapped(ops, n - 1);
      assert r[n - 1] == ops[n - 1];
    }
  }

  /** What is written has the size that is predicted. */
  lemma EmittedSize(cpu: Cpu, code: nat, ops: seq<Operand>, pc: int)
    requires Emittable(cpu.rows(code), Ordered(cpu.rows(code), ops))
    ensures |Emitted(cpu, code, ops, pc)| == InstSize(cpu, code, ops)
  {
    var row := cpu.rows(code);
    if !row.quad && row.move && |ops| >= 2 {
      SizeSwapped(ops, |ops|);
    }
  }

  // ---------- the instruction ----------

  class Instruction {
    var code: nat
    var ops: seq<Operand>

    constructor (code: nat, ops: seq<Operand>)
      ensures this.code == code && this.ops == ops
    {
      this.code, this.ops := code, ops;
    }

    /** `optimize_instruction` */
    method Optimize(cpu: Cpu, pc: int)
      modifies this
      ensures (code, ops) == OptimizedTo(cpu, old(code), old(ops), pc, old(|ops|))
    {
      var row := cpu.rows(code);
      for i := 0 to |ops|
        invariant |ops| == old(|ops|) && (code, ops) == OptimizedTo(cpu, old(code), old(ops), pc, i)
      {
        var (c, op) := Selected(cpu, row, code, ops[i], pc);
        code := c;
        ops := ops[i := op];
      }
    }

    /** `instruction_size`: the instruction itself is not changed. */
    method Size(cpu: Cpu, pc: int) returns (n: nat)
      ensures n == InstructionSize(cpu, code, ops, pc)
    {
      var copy := new Instruction(code, ops);
      copy.Optimize(cpu, pc);
      n := 1;
      for i := 0 to |copy.ops|
        invariant n == 1 + SizeOf(copy.ops, i)
      {
        n := n + OpSize(copy.ops[i].mode);
      }
      if cpu.rows(copy.code).quad {
        n := n + 2;
      }
    }
  }

  lemma StoredLittle(m: seq<Byte>, d: nat, b: seq<Byte>)
    requires d + |b| <= |m|
    ensures Stored(false, m, d, b)[..d + |b|] == m[..d] + b
  {
    var r := Stored(false, m, d, b);
    forall i | d <= i < d + |b| ensures r[i] == b[i - d] {
      assert Nth(false, |b|, i - d) == i - d;
    }
  }

  /** Little endian bytes at position d. */
  method PutValue(data: array<Byte>, d: nat, n: nat, v: int) returns (next: nat)
    requires d + n <= data.Length
    modifies data
    ensures next == d + n && data[..next] == old(data[..d]) + Bytes(v, n)
  {
    ghost var was := data[..];
    SetVal(false, data, d, n, v);
    next := d + n;
    StoredLittle(was, d, Bytes(v, n));
    assert data[..next] == data[..][..next];
  }

  /** The distance of a branch around the jump, and the jump. */
  method PutJump(data: array<Byte>, d: nat, v: int) returns (next: nat)
    requires d + 4 <= data.Length
    modifies data
    ensures next == d + 4 && data[..next] == old(data[..d]) + [3, 0x4c] + Bytes(v, 2)
  {
    data[d] := 3;
    data[d + 1] := 0x4c;
    assert data[..d + 2] == old(data[..d]) + [3, 0x4c];
    next := PutValue(data, d + 2, 2, v);
  }

  /** The byte in front gets a prefix. */
  method PutPrefixed(data: array<Byte>, d: nat, v: int) returns (next: nat)
    requires 0 < d && d + 2 <= data.Length
    modifies data
    ensures next == d + 2 && data[..next] == old(data[..d - 1]) + [0xea, old(data[d - 1])] + Bytes(v, 1)
  {
    ghost var b := data[..d];
    data[d] := data[d - 1];
    data[d - 1] := 0xea;
    assert data[..d + 1] == b[..d - 1] + [0xea, b[d - 1]];
    next := PutValue(data, d + 1, 1, v);
  }

  /** Writes a value behind the first d bytes; there is room for exactly its size. */
  method PutForm(m: Mode, data: array<Byte>, d: nat, v: int) returns (next: nat)
    requires 0 < d && d + OpSize(m) <= data.Length && (m == WBit || OpSize(m) > 0)
    modifies data
    ensures next == d + OpSize(m) && data[..next] == AppendedValue(m, old(data[..d]), v)
  {
    next := d;
    if m == RelJmp {
      next := PutJump(data, d, v);
    } else if m == QDPInd || m == QDPIndZ {
      next := PutPrefixed(data, d, v);
    } else if m == WBit {
      PutBit(data, d, v);
    } else {
      next := PutValue(data, d, OpSize(m), v);
    }
  }

  /** A bit number goes into the opcode. */
  method PutBit(data: array<Byte>, d: nat, v: int)
    requires 0 < d <= data.Length
    modifies data
    ensures data[..d] == [Or(old(data[0]), (v % 8) * 16)] + old(data[..d])[1..]
  {
    data[0] := Or(data[0], (v % 8) * 16);
  }

  /** Writes one operand. */
  method PutOperand(cpu: Cpu, op: Operand, data: array<Byte>, d: nat, pc: int) returns (next: nat, errors: nat)
    requires 0 < d && d + OpSize(op.mode) <= data.Length && Shaped(op)
    requires op.mode == RelJmp ==> d == 1
    modifies data
    ensures next == d + OpSize(op.mode) && data[..next] == Appended(cpu, op, old(data[..d]), pc)
    ensures errors == if op.value.Missing? then 0 else OperandErrors(op, Written(cpu, op, pc, d), old(data[0]))
  {
    next, errors := d, 0;
    if !op.value.Missing? {
      var v := Written(cpu, op, pc, d);
      if OutOfRange(op, v) {
        errors := errors + 1;
      }
      if NoForm(op.mode, data[0]) {
        errors := errors + 1;
      }
      next := PutForm(op.mode, data, d, v);
    }
  }

  /** The errors reported for the first n operands. */
  function ErrorsTo(cpu: Cpu, head: seq<Byte>, ops: seq<Operand>, pc: int, n: nat): nat
    requires n <= |ops| && head != [] && forall i :: 0 <= i < |ops| ==> Shaped(ops[i])
  {
    if n == 0 then 0
    else
      var op, b := ops[n - 1], BytesTo(cpu, head, ops, pc, n - 1);
      ErrorsTo(cpu, head, ops, pc, n - 1)
      + if op.value.Missing? then 0 else OperandErrors(op, Written(cpu, op, pc, |b|), b[0])
  }

  /** The first n operands are written behind the head. */
  ghost predicate Filled(cpu: Cpu, head: seq<Byte>, ops: seq<Operand>, pc: int, data: array<Byte>, d: nat, n: nat,
                         errors: nat)
    requires head != [] && n <= |ops| && forall i :: 0 <= i < |ops| ==> Shaped(ops[i])
    reads data
  {
    && data.Length == |head| + SizeOf(ops, |ops|) && d == |head| + SizeOf(ops, n) && d <= data.Length
    && data[..d] == BytesTo(cpu, head, ops, pc, n) && errors == ErrorsTo(cpu, head, ops, pc, n)
  }

  method WriteNext(cpu: Cpu, ghost head: seq<Byte>, ops: seq<Operand>, pc: int, data: array<Byte>, d: nat, n: nat,
                   errors: nat)
    returns (next: nat, sum: nat)
    requires head != [] && n < |ops| && forall i :: 0 <= i < |ops| ==> Shaped(ops[i])
    requires ops[n].mode == RelJmp ==> |head| == 1 && SizeOf(ops, n) == 0
    requires Filled(cpu, head, ops, pc, data, d, n, errors)
    modifies data
    ensures Filled(cpu, head, ops, pc, data, next, n + 1, sum)
  {
    SizeGrows(ops, n + 1, |ops|);
    ghost var done := data[..d];
    var bad;
    next, bad := PutOperand(cpu, ops[n], data, d, pc);
    sum := errors + bad;
    FilledNext(cpu, head, ops, pc, done, data[..next], d, n, errors, bad);
  }

  lemma FilledNext(cpu: Cpu, head: seq<Byte>, ops: seq<Operand>, pc: int, done: seq<Byte>, now: seq<Byte>, d: nat,
                   n: nat, errors: nat, bad: nat)
    requires head != [] && n < |ops| && forall i :: 0 <= i < |ops| ==> Shaped(ops[i])
    requires done == BytesTo(cpu, head, ops, pc, n) && errors == ErrorsTo(cpu, head, ops, pc, n) && |done| == d
    requires now == Appended(cpu, ops[n], done, pc)
    requires bad == if ops[n].value.Missing? then 0 else OperandErrors(ops[n], Written(cpu, ops[n], pc, d), done[0])
    ensures now == BytesTo(cpu, head, ops, pc, n + 1) && errors + bad == ErrorsTo(cpu, head, ops, pc, n + 1)
  {}

  /** Opcode with prefix. */
  method WriteHead(row: Row, oc: Byte, size: nat) returns (data: array<Byte>, d: nat)
    requires size >= |Head(row, oc)|
    ensures fresh(data) && data.Length == size && d == |Head(row, oc)| && data[..d] == Head(row, oc)
  {
    data, d := new Byte[size](_ => 0), 0;
    if row.quad {
      data[0], data[1] := 0x42, 0x42;
      d := 2;
    }
    data[d] := oc;
    d := d + 1;
  }

  /** `eval_instruction`, behind the choice of the form: opcode, then operands. It fills exactly the
      size that was reserved. */
  method WriteInstruction(cpu: Cpu, code: nat, ops: seq<Operand>, pc: int) returns (data: array<Byte>, errors: nat)
    requires Emittable(cpu.rows(code), Ordered(cpu.rows(code), ops))
    ensures fresh(data) && data[..] == Emitted(cpu, code, ops, pc) && errors == Errors(cpu, code, ops, pc)
  {
    var row, oc := cpu.rows(code), OpcodeFor(cpu.rows(code), ops, |ops|);
    EmittedSize(cpu, code, ops, pc);
    var d;
    data, d := WriteHead(row, oc, InstSize(cpu, code, ops));
    d, errors := WriteAll(cpu, Head(row, oc), Ordered(row, ops), pc, data, d);
    assert data[..d] == data[..];
  }

  method WriteAll(cpu: Cpu, ghost head: seq<Byte>, ops: seq<Operand>, pc: int, data: array<Byte>, start: nat)
    returns (d: nat, errors: nat)
    requires head != [] && forall i :: 0 <= i < |ops| ==> Shaped(ops[i])
    requires forall i :: 0 <= i < |ops| && ops[i].mode == RelJmp ==> |head| == 1 && SizeOf(ops, i) == 0
    requires Filled(cpu, head, ops, pc, data, start, 0, 0)
    modifies data
    ensures Filled(cpu, head, ops, pc, data, d, |ops|, errors)
  {
    d, errors := start, 0;
    for n := 0 to |ops|
      invariant Filled(cpu, head, ops, pc, data, d, n, errors)
    {
      d, errors := WriteNext(cpu, head, ops, pc, data, d, n, errors);
    }
  }

  lemma {:induction false} SizeGrows(ops: seq<Operand>, i: nat, n: nat)
    requires i <= n <= |ops|
    ensures SizeOf(ops, i) <= SizeOf(ops, n)
    decreases n
  {
    if i < n {
      SizeGrows(ops, i, n - 1);
    }
  }

  /** Optimizing for good, and writing: as many bytes as were predicted for this place. */
  method EvalInstruction(ip: Instruction, cpu: Cpu, pc: int) returns (data: array<Byte>, errors: nat)
    requires var (c, o) := OptimizedTo(cpu, ip.code, ip.ops, pc, |ip.ops|);
             Emittable(cpu.rows(c), Ordered(cpu.rows(c), o))
    modifies ip
    ensures data.Length == InstructionSize(cpu, old(ip.code), old(ip.ops), pc)
    ensures (ip.code, ip.ops) == OptimizedTo(cpu, old(ip.code), old(ip.ops), pc, old(|ip.ops|))
    ensures Emittable(cpu.rows(ip.code), Ordered(cpu.rows(ip.code), ip.ops))
            && data[..] == Emitted(cpu, ip.code, ip.ops, pc)
    ensures errors == Errors(cpu, ip.code, ip.ops, pc)
  {
    ip.Optimize(cpu, pc);
    data, errors := WriteInstruction(cpu, ip.code, ip.ops, pc);
    EmittedSize(cpu, ip.code, ip.ops, pc);
  }

  function Errors(cpu: Cpu, code: nat, ops: seq<Operand>, pc: int): nat
    requires Emittable(cpu.rows(code), Ordered(cpu.rows(code), ops))
  {
    var row := cpu.rows(code);
    ErrorsTo(cpu, Head(row, OpcodeFor(row, ops, |ops|)), Ordered(row, ops), pc, |ops|)
  }

  // ---------- meaning of branches ----------

  /** The flags that branches test: N, V, C, Z. */
  datatype Flags = Flags(n: bool, v: bool, c: bool, z: bool)

  /** Opcodes of the eight conditional branches: flag in bits 6-7, wanted state in bit 5. */
  predicate IsConditional(oc: Byte) {
    oc % 32 == 16
  }

  predicate Taken(oc: Byte, f: Flags) {
    var flag := if oc / 64 == 0 then f.n else if oc / 64 == 1 then f.v else if oc / 64 == 2 then f.c else f.z;
    flag == (oc / 32 % 2 == 1)
  }

  function Signed(b: Byte): int {
    if b < 128 then b else b - 256
  }

  function Word(lo: int, hi: int): int {
    lo + 256 * hi
  }

  /** Where control goes when the bytes at pc are executed: a branch or a jump, or a branch with a
      jump behind it. */
  function Target(b: seq<Byte>, pc: int, f: Flags): int {
    if |b| >= 2 && IsConditional(b[0]) && Taken(b[0], f) then (pc + 2 + Signed(b[1])) % 0x1_0000
    else if |b| == 2 && IsConditional(b[0]) then (pc + 2) % 0x1_0000
    else if |b| == 5 && IsConditional(b[0]) && b[2] == 0x4c then Word(b[3], b[4]) % 0x1_0000
    else if |b| == 2 && (b[0] == 0x80 || b[0] == 0x12) then (pc + 2 + Signed(b[1])) % 0x1_0000
    else if |b| == 3 && b[0] == 0x4c then Word(b[1], b[2]) % 0x1_0000
    else -1
  }

  lemma InvertedBranch(oc: Byte, f: Flags)
    requires IsConditional(oc)
    ensures IsConditional(Inverted(oc)) && Taken(Inverted(oc), f) == !Taken(oc, f)
  {}

  /** One operand, with a branch target that needs no relocation. */
  predicate Branch(cpu: Cpu, code: nat, op: Operand) {
    op.mode == Rel8 && Direct(op.value) && !cpu.rows(code).quad && code != cpu.jmp
    && cpu.rows(cpu.jmp).opcode == 0x4c && !cpu.rows(cpu.jmp).quad
  }

  lemma OneOptimized(cpu: Cpu, code: nat, op: Operand, pc: int)
    ensures var (c, o) := Selected(cpu, cpu.rows(code), code, op, pc); OptimizedTo(cpu, code, [op], pc, 1) == (c, [o])
  {
    assert OptimizedTo(cpu, code, [op], pc, 0) == (code, [op]);
    var o := Selected(cpu, cpu.rows(code), code, op, pc).1;
    assert [op][0 := o] == [o];
  }

  lemma OneEmitted(cpu: Cpu, code: nat, op: Operand, pc: int)
    requires Shaped(op) && !cpu.rows(code).quad && !op.value.Missing?
    ensures Ordered(cpu.rows(code), [op]) == [op] && Emittable(cpu.rows(code), [op])
    ensures var oc := OpcodeFor(cpu.rows(code), [op], 1);
            && Emitted(cpu, code, [op], pc) == Appended(cpu, op, [oc], pc)
            && Errors(cpu, code, [op], pc) == OperandErrors(op, Written(cpu, op, pc, 1), oc)
  {
    var oc := OpcodeFor(cpu.rows(code), [op], 1);
    assert BytesTo(cpu, [oc], [op], pc, 0) == [oc] && SizeOf([op], 0) == 0;
    assert ErrorsTo(cpu, [oc], [op], pc, 0) == 0;
  }

  lemma SignedByte(v: int)
    requires -0x80 <= v <= 0x7f
    ensures Signed(v % 256) == v && Bytes(v, 1) == [v % 256]
  {
    assert Bytes(v / 256, 0) == [];
  }

  lemma TwoBytes(v: int)
    ensures Bytes(v, 2) == [v % 256, v / 256 % 256] && Word(v % 256, v / 256 % 256) % 0x1_0000 == v % 0x1_0000
  {
    assert Bytes(v / 256 / 256, 0) == [] && Bytes(v / 256, 1) == [v / 256 % 256];
  }

  lemma ShortBranch(oc: Byte, v: int, pc: int, f: Flags)
    requires (IsConditional(oc) || oc == 0x80 || oc == 0x12) && -0x80 <= v - (pc + 2) <= 0x7f
    ensures Target([oc] + Bytes(v - (pc + 2), 1), pc, f)
            == (if IsConditional(oc) && !Taken(oc, f) then pc + 2 else v) % 0x1_0000
  {
    SignedByte(v - (pc + 2));
  }

  /** The target of five bytes that are an inverted branch around a jump. */
  lemma AroundJump(oc: Byte, lo: Byte, hi: Byte, pc: int, f: Flags)
    requires IsConditional(oc)
    ensures Target([oc, 3, 0x4c, lo, hi], pc, f) == (if Taken(oc, f) then pc + 5 else Word(lo, hi)) % 0x1_0000
  {}

  lemma LongBranch(oc: Byte, v: int, w: int, pc: int, f: Flags)
    requires IsConditional(oc) && w % 0x1_0000 == v % 0x1_0000
    ensures Target([Inverted(oc)] + [3, 0x4c] + Bytes(w, 2), pc, f) == (if Taken(oc, f) then v else pc + 5) % 0x1_0000
  {
    InvertedBranch(oc, f);
    TwoBytes(w);
    AroundJump(Inverted(oc), w % 256, w / 256 % 256, pc, f);
    assert [Inverted(oc)] + [3, 0x4c] + Bytes(w, 2) == [Inverted(oc), 3, 0x4c, w % 256, w / 256 % 256];
  }

  lemma PlainJump(v: int, w: int, pc: int, f: Flags)
    requires w % 0x1_0000 == v % 0x1_0000
    ensures Target([0x4c] + Bytes(w, 2), pc, f) == v % 0x1_0000
  {
    TwoBytes(w);
    assert [0x4c] + Bytes(w, 2) == [0x4c, w % 256, w / 256 % 256];
  }

  /** The form with an inverted branch around a jump. */
  lemma LongForm(cpu: Cpu, code: nat, o: Operand, pc: int, f: Flags)
    requires o.mode == RelJmp && Direct(o.value) && !cpu.rows(code).quad && IsConditional(cpu.rows(code).opcode)
    ensures Emittable(cpu.rows(code), Ordered(cpu.rows(code), [o]))
    ensures Target(Emitted(cpu, code, [o], pc), pc, f)
            == (if Taken(cpu.rows(code).opcode, f) then o.value.val else pc + |Emitted(cpu, code, [o], pc)|) % 0x1_0000
  {
    OneEmitted(cpu, code, o, pc);
    assert OpcodeFor(cpu.rows(code), [o], 0) == cpu.rows(code).opcode;
    LongBranch(cpu.rows(code).opcode, o.value.val, Written(cpu, o, pc, 1), pc, f);
  }

  /** The short form: a conditional branch, or one that is always taken. */
  lemma ShortForm(cpu: Cpu, code: nat, o: Operand, pc: int, f: Flags)
    requires o.mode == Rel8 && Direct(o.value) && !cpu.rows(code).quad
    requires var oc := cpu.rows(code).opcode; IsConditional(oc) || oc == 0x80 || oc == 0x12
    ensures Emittable(cpu.rows(code), Ordered(cpu.rows(code), [o]))
    ensures Errors(cpu, code, [o], pc) == 0 ==>
              Target(Emitted(cpu, code, [o], pc), pc, f)
              == (if IsConditional(cpu.rows(code).opcode) && !Taken(cpu.rows(code).opcode, f)
                  then pc + |Emitted(cpu, code, [o], pc)| else o.value.val) % 0x1_0000
  {
    OneEmitted(cpu, code, o, pc);
    assert OpcodeFor(cpu.rows(code), [o], 0) == cpu.rows(code).opcode;
    if !OutOfRange(o, Written(cpu, o, pc, 1)) {
      ShortBranch(cpu.rows(code).opcode, o.value.val, pc, f);
    }
  }

  /** A jump instead of the branch. */
  lemma JumpForm(cpu: Cpu, code: nat, o: Operand, pc: int, f: Flags)
    requires o.mode == Abs && Direct(o.value) && !cpu.rows(code).quad && cpu.rows(code).opcode == 0x4c
    ensures Emittable(cpu.rows(code), Ordered(cpu.rows(code), [o]))
    ensures Target(Emitted(cpu, code, [o], pc), pc, f) == o.value.val % 0x1_0000
  {
    OneEmitted(cpu, code, o, pc);
    assert OpcodeFor(cpu.rows(code), [o], 0) == cpu.rows(code).opcode;
    PlainJump(o.value.val, Written(cpu, o, pc, 1), pc, f);
  }

  /** A conditional branch goes to its target when the condition holds and to the next instruction
      otherwise, in the short form as in the form with an inverted branch around a jump; or an
      error is reported. */
  lemma BranchMeaning(cpu: Cpu, code: nat, op: Operand, pc: int, f: Flags)
    requires Branch(cpu, code, op) && IsConditional(cpu.rows(code).opcode)
    ensures var (c, o) := OptimizedTo(cpu, code, [op], pc, 1);
            && Emittable(cpu.rows(c), Ordered(cpu.rows(c), o))
            && (Errors(cpu, c, o, pc) == 0 ==>
                  Target(Emitted(cpu, c, o, pc), pc, f)
                  == (if Taken(cpu.rows(code).opcode, f) then op.value.val
                      else pc + |Emitted(cpu, c, o, pc)|) % 0x1_0000)
  {
    OneOptimized(cpu, code, op, pc);
    var (c, o) := Selected(cpu, cpu.rows(code), code, op, pc);
    if o.mode == RelJmp {
      LongForm(cpu, c, o, pc, f);
    } else {
      ShortForm(cpu, c, o, pc, f);
    }
  }

  /** An unconditional branch goes to its target, as a branch or as a jump. */
  lemma AlwaysMeaning(cpu: Cpu, code: nat, op: Operand, pc: int, f: Flags)
    requires Branch(cpu, code, op) && (cpu.rows(code).opcode == 0x80 || cpu.rows(code).opcode == 0x12)
    ensures var (c, o) := OptimizedTo(cpu, code, [op], pc, 1);
            && Emittable(cpu.rows(c), Ordered(cpu.rows(c), o))
            && (Errors(cpu, c, o, pc) == 0 ==> Target(Emitted(cpu, c, o, pc), pc, f) == op.value.val % 0x1_0000)
  {
    OneOptimized(cpu, code, op, pc);
    var (c, o) := Selected(cpu, cpu.rows(code), code, op, pc);
    if o.mode == Abs {
      JumpForm(cpu, c, o, pc, f);
    } else {
      ShortForm(cpu, c, o, pc, f);
    }
  }

  lemma SubroutineForm(cpu: Cpu, code: nat, o: Operand, pc: int)
    requires Direct(o.value) && !cpu.rows(code).quad && cpu.rows(code).opcode == 0x44
             && (o.mode == Rel8 || o.mode == RelJmp)
    ensures Emittable(cpu.rows(code), Ordered(cpu.rows(code), [o]))
    ensures Emitted(cpu, code, [o], pc)[0] == if o.mode == Rel8 then 0x44 else 0x64
  {
    OneEmitted(cpu, code, o, pc);
    assert OpcodeFor(cpu.rows(code), [o], 0) == 0x44;
  }

  /** A branch to a subroutine (opcode 0x44) is still one after optimization if and only if branches
      are not optimized or the target is near: the inverted opcode, 0x64, is not a branch at all. */
  lemma SubroutineBranch(cpu: Cpu, code: nat, op: Operand, pc: int)
    requires Branch(cpu, code, op) && cpu.rows(code).opcode == 0x44
    ensures var (c, o) := OptimizedTo(cpu, code, [op], pc, 1);
            && Emittable(cpu.rows(c), Ordered(cpu.rows(c), o))
            && (Emitted(cpu, c, o, pc)[0] == 0x44 <==> !cpu.branchOpt || -0x80 <= op.value.val - (pc + 2) <= 0x7f)
  {
    OneOptimized(cpu, code, op, pc);
    var (c, o) := Selected(cpu, cpu.rows(code), code, op, pc);
    SubroutineForm(cpu, c, o, pc);
  }

  /** A jump with an absolute operand is never turned into a branch: absolute modes are dealt with
      before branches are looked at. */
  lemma JumpStays(cpu: Cpu, op: Operand, pc: int)
    requires op.mode == Abs
    ensures Selected(cpu, cpu.rows(cpu.jmp), cpu.jmp, op, pc).0 == cpu.jmp
  {}

  // ---------- meaning of zero page addresses ----------

  /** The address that an operand byte or word stands for, with an index; zero page indexing wraps
      around within the page. */
  function Effective(cpu: Cpu, m: Mode, v: int, index: Byte): int {
    match m
    case DPage | DPageX | DPageY | DPageZ => (cpu.dpage + (v + index) % 256) % 0x1_0000
    case _ => (v + index) % 0x1_0000
  }

  /** Shortening without a selector keeps the address. With an index it does so for a constant
      exactly when the index does not lead out of the page. A value with a base, of which the
      relocation leaves the low byte when it is linked, keeps its address exactly when the
      direct page is the page that it is in. */
  lemma ZeroPageMeaning(cpu: Cpu, row: Row, code: nat, op: Operand, pc: int, index: Byte, linked: int)
    requires IsAbs(op.mode) && !op.value.Missing? && !op.lo && !op.hi && !op.wa && cpu.dpage < 0x1_0000
    requires WantsZeroPage(cpu, row, op) && (op.value.Const? ==> linked == op.value.val)
    ensures var (c, o) := Selected(cpu, row, code, op, pc);
            var w := Written(cpu, o, pc, 1);
            var to := Effective(cpu, op.mode, linked, index);
            && o.mode == ZeroPage(op.mode) && !OutOfRange(o, w)
            && (op.value.Const? ==> 0 <= w <= 0xff && (Effective(cpu, o.mode, w, index) == to <==> w + index < 256))
            && (op.value.Based? ==> w == op.value.val)
            && (op.value.Based? ==> (Effective(cpu, o.mode, linked % 256, index) == to <==> cpu.dpage == to - to % 256))
  {
    if op.value.Based? {
      LowByte(linked, index);
      SamePage(cpu.dpage, linked + index);
    } else {
      OtherPage(cpu.dpage, linked - cpu.dpage + index);
    }
  }

  lemma LowByte(x: int, i: int)
    ensures (x % 256 + i) % 256 == (x + i) % 256
  {}

  lemma SamePage(dpage: nat, a: int)
    requires dpage < 0x1_0000
    ensures var to := a % 0x1_0000;
            (dpage + a % 256) % 0x1_0000 == to <==> dpage == to - to % 256
  {
    var to, low := a % 0x1_0000, a % 256;
    assert to % 256 == low;
    PageStart(dpage, to, low);
  }

  lemma PageStart(dpage: int, to: int, low: int)
    requires 0 <= dpage < 0x1_0000 && 0 <= low <= to < 0x1_0000
    ensures (dpage + low) % 0x1_0000 == to <==> dpage == to - low
  {}

  lemma OtherPage(dpage: nat, t: nat)
    requires dpage < 0x1_0000 && t < 511
    ensures (dpage + t % 256) % 0x1_0000 == (dpage + t) % 0x1_0000 <==> t < 256
  {}

  // ---------- meaning of absolute addresses ----------

  /** What the processor reads: the address of an operand, and how long the instruction is. */
  datatype Access = Access(address: int, length: nat)

  /** The three opcodes of an instruction with an absolute operand are different. */
  predicate Distinct(row: Row) {
    row.opcode != row.zp && row.opcode != row.al && (row.zp == row.al ==> row.zp == 0) && !row.quad
  }

  /** Reading an instruction: the opcode tells how many bytes follow and what they stand for. */
  function Decoded(cpu: Cpu, row: Row, b: seq<Byte>, index: int): Option<Access> {
    if |b| >= 2 && row.zp != 0 && b[0] == row.zp then Some(Access(InPage(cpu, index + b[1]), 2))
    else if |b| >= 4 && row.al != 0 && b[0] == row.al then
      Some(Access((Long(b[1], b[2], b[3]) + index) % 0x100_0000, 4))
    else if |b| >= 3 && b[0] == row.opcode then Some(Access((Word(b[1], b[2]) + index) % 0x1_0000, 3))
    else None
  }

  function Long(lo: int, hi: int, bank: int): int {
    Word(lo, hi) + 0x1_0000 * bank
  }

  /** An address in the direct page. */
  function InPage(cpu: Cpu, x: int): int {
    (cpu.dpage + x % 256) % 0x1_0000
  }

  /** An absolute operand whose value is known. */
  predicate AbsoluteConstant(cpu: Cpu, code: nat, op: Operand) {
    IsAbs(op.mode) && op.value.Const? && Distinct(cpu.rows(code)) && cpu.rows(code).opcode != 0
    && (op.mode == AbsY || op.mode == AbsZ ==> cpu.rows(code).al == 0)
  }

  lemma OneByte(v: int)
    ensures Bytes(v, 1) == [v % 256]
  {
    assert Bytes(v / 256, 0) == [];
  }

  lemma ThreeBytes(v: int)
    ensures Bytes(v, 3) == [v % 256, v / 256 % 256, v / 256 / 256 % 256]
    ensures Long(v % 256, v / 256 % 256, v / 256 / 256 % 256) == v % 0x100_0000
  {
    TwoBytes(v / 256);
    Quotients(v, v / 256, v / 256 / 256, v / 256 / 256 / 256);
  }

  lemma Quotients(v: int, q: int, r: int, t: int)
    requires q == v / 256 && r == q / 256 && t == r / 256
    ensures v % 256 + 256 * (q % 256) + 0x1_0000 * (r % 256) == v % 0x100_0000
  {
    var x := v % 256 + 256 * (q % 256) + 0x1_0000 * (r % 256);
    assert v == 256 * q + v % 256 && q == 256 * r + q % 256 && r == 256 * t + r % 256;
    assert v == 0x100_0000 * t + x && 0 <= x < 0x100_0000;
  }

  lemma IndexedWord(w: int, v: int, index: int)
    requires w % 0x1_0000 == v % 0x1_0000
    ensures (w + index) % 0x1_0000 == (v + index) % 0x1_0000
  {}

  lemma IndexedLong(v: int, index: int)
    ensures (v % 0x100_0000 + index) % 0x100_0000 == (v + index) % 0x100_0000
  {}

  lemma DecodedShort(cpu: Cpu, row: Row, w: int, index: int)
    requires Distinct(row) && row.zp != 0
    ensures Decoded(cpu, row, [row.zp] + Bytes(w, 1), index) == Some(Access(InPage(cpu, w + index), 2))
  {
    OneByte(w);
    LowByte(w, index);
  }

  lemma DecodedWord(cpu: Cpu, row: Row, w: int, v: int, index: int)
    requires Distinct(row) && row.opcode != 0 && (w == v || w == v % 0x1_0000)
    ensures Decoded(cpu, row, [row.opcode] + Bytes(w, 2), index) == Some(Access((v + index) % 0x1_0000, 3))
  {
    var lo, hi := WordBytes(w, v);
    WordRead(cpu, row, [row.opcode, lo, hi], index);
    IndexedWord(Word(lo, hi), v, index);
  }

  lemma WordBytes(w: int, v: int) returns (lo: Byte, hi: Byte)
    requires w == v || w == v % 0x1_0000
    ensures Bytes(w, 2) == [lo, hi] && Word(lo, hi) % 0x1_0000 == v % 0x1_0000
  {
    TwoBytes(w);
    CutWord(w, v);
    lo, hi := w % 256, w / 256 % 256;
  }

  lemma CutWord(w: int, v: int)
    requires w == v || w == v % 0x1_0000
    ensures w % 0x1_0000 == v % 0x1_0000
  {}

  lemma WordRead(cpu: Cpu, row: Row, b: seq<Byte>, index: int)
    requires Distinct(row) && row.opcode != 0 && |b| == 3 && b[0] == row.opcode
    ensures Decoded(cpu, row, b, index) == Some(Access((Word(b[1], b[2]) + index) % 0x1_0000, 3))
  {}

  lemma DecodedLong(cpu: Cpu, row: Row, w: int, index: int)
    requires Distinct(row) && row.al != 0
    ensures Decoded(cpu, row, [row.al] + Bytes(w, 3), index) == Some(Access((w + index) % 0x100_0000, 4))
  {
    ThreeBytes(w);
    IndexedLong(w, index);
  }

  /** An optimized instruction is read in its whole length, and its operand is found where the
      source has it: a long address in 24 bits, an absolute one in 16, and in the direct page
      the low byte with a selector, or else the distance from its beginning. */
  lemma AbsoluteMeaning(cpu: Cpu, code: nat, op: Operand, pc: int, index: int)
    requires AbsoluteConstant(cpu, code, op)
    ensures var (c, o) := Selected(cpu, cpu.rows(code), code, op, pc);
            c == code && Emittable(cpu.rows(c), Ordered(cpu.rows(c), [o]))
            && Decoded(cpu, cpu.rows(code), Emitted(cpu, c, [o], pc), index)
               == Some(Access(MeantAddress(cpu, cpu.rows(code), op, index), |Emitted(cpu, c, [o], pc)|))
  {
    var row := cpu.rows(code);
    var o := AbsoluteForm(cpu, code, op, pc);
    EmittedSize(cpu, code, [o], pc);
    if WantsZeroPage(cpu, row, op) {
      ShortMeaning(cpu, code, o, pc, index);
    } else if WantsLong(cpu, row, op) {
      LongMeaning(cpu, code, o, pc, index);
    } else {
      WordMeaning(cpu, code, o, pc, index);
    }
  }

  lemma AbsoluteForm(cpu: Cpu, code: nat, op: Operand, pc: int) returns (o: Operand)
    requires AbsoluteConstant(cpu, code, op)
    ensures Selected(cpu, cpu.rows(code), code, op, pc) == (code, o) && o == op.(mode := o.mode) && Shaped(o)
    ensures Emittable(cpu.rows(code), Ordered(cpu.rows(code), [o])) && InstSize(cpu, code, [o]) == 1 + OpSize(o.mode)
    ensures if WantsZeroPage(cpu, cpu.rows(code), op) then
              cpu.rows(code).zp != 0 && (o.mode == DPage || o.mode == DPageX || o.mode == DPageY || o.mode == DPageZ)
            else if WantsLong(cpu, cpu.rows(code), op) then
              cpu.rows(code).al != 0 && (o.mode == LAbs || o.mode == LAbsX)
            else IsAbs(o.mode)
  {
    o := Selected(cpu, cpu.rows(code), code, op, pc).1;
    OneEmitted(cpu, code, o, pc);
    assert SizeOf([o], 0) == 0;
  }

  predicate One(cpu: Cpu, code: nat, o: Operand) {
    Distinct(cpu.rows(code)) && o.value.Const? && Shaped(o)
  }

  lemma ShortMeaning(cpu: Cpu, code: nat, o: Operand, pc: int, index: int)
    requires One(cpu, code, o) && (o.mode == DPage || o.mode == DPageX || o.mode == DPageY || o.mode == DPageZ)
    requires cpu.rows(code).zp != 0
    ensures Emittable(cpu.rows(code), Ordered(cpu.rows(code), [o]))
    ensures Decoded(cpu, cpu.rows(code), Emitted(cpu, code, [o], pc), index)
            == Some(Access(InPage(cpu, (if o.lo then o.value.val else o.value.val - cpu.dpage) + index), 2))
  {
    OneEmitted(cpu, code, o, pc);
    DecodedShort(cpu, cpu.rows(code), Written(cpu, o, pc, 1), index);
    LowByte(o.value.val, index);
  }

  lemma LongMeaning(cpu: Cpu, code: nat, o: Operand, pc: int, index: int)
    requires One(cpu, code, o) && (o.mode == LAbs || o.mode == LAbsX) && cpu.rows(code).al != 0
    ensures Emittable(cpu.rows(code), Ordered(cpu.rows(code), [o]))
    ensures Decoded(cpu, cpu.rows(code), Emitted(cpu, code, [o], pc), index)
            == Some(Access((o.value.val + index) % 0x100_0000, 4))
  {
    OneEmitted(cpu, code, o, pc);
    DecodedLong(cpu, cpu.rows(code), Written(cpu, o, pc, 1), index);
    IndexedLong(o.value.val, index);
  }

  lemma WordMeaning(cpu: Cpu, code: nat, o: Operand, pc: int, index: int)
    requires One(cpu, code, o) && IsAbs(o.mode) && cpu.rows(code).opcode != 0
    ensures Emittable(cpu.rows(code), Ordered(cpu.rows(code), [o]))
    ensures Decoded(cpu, cpu.rows(code), Emitted(cpu, code, [o], pc), index)
            == Some(Access((o.value.val + index) % 0x1_0000, 3))
  {
    OneEmitted(cpu, code, o, pc);
    DecodedWord(cpu, cpu.rows(code), Written(cpu, o, pc, 1), o.value.val, index);
  }

  function PageAddress(cpu: Cpu, b: Byte): int {
    cpu.dpage + b
  }

  /** Without selectors, an address is shortened exactly if it can be reached in the direct page, and
      made long exactly if it cannot be reached otherwise. */
  lemma ShortestAddress(cpu: Cpu, code: nat, op: Operand, pc: int)
    requires AbsoluteConstant(cpu, code, op) && !op.lo && !op.hi && !op.wa
    ensures var (c, o) := Selected(cpu, cpu.rows(code), code, op, pc);
            && Emittable(cpu.rows(code), Ordered(cpu.rows(code), [o]))
            && (|Emitted(cpu, code, [o], pc)| == 2
                <==> cpu.rows(code).zp != 0 && exists b: Byte :: PageAddress(cpu, b) == op.value.val)
            && (|Emitted(cpu, code, [o], pc)| == 4
                <==> cpu.wide && cpu.rows(code).al != 0 && op.value.val >= 0x1_0000
                     && !(cpu.rows(code).zp != 0 && exists b: Byte :: PageAddress(cpu, b) == op.value.val))
  {
    var o := AbsoluteForm(cpu, code, op, pc);
    EmittedSize(cpu, code, [o], pc);
    if cpu.dpage <= op.value.val <= cpu.dpage + 0xff {
      var b: Byte := op.value.val - cpu.dpage;
      assert PageAddress(cpu, b) == op.value.val;
    }
  }

  /** A branch stays short exactly if its target is in reach, or branches are not optimized. */
  lemma ShortestBranch(cpu: Cpu, code: nat, op: Operand, pc: int)
    requires Branch(cpu, code, op)
    ensures Selected(cpu, cpu.rows(code), code, op, pc).1.mode == Rel8
            <==> !cpu.branchOpt || exists b: Byte :: op.value.val == pc + 2 + Signed(b)
  {
    var d := op.value.val - (pc + 2);
    if -0x80 <= d <= 0x7f {
      var b: Byte := if d < 0 then d + 256 else d;
      assert op.value.val == pc + 2 + Signed(b);
    }
  }

  /** The pointer that an indirect operand names is the word behind the opcode. */
  lemma PointerWord(cpu: Cpu, code: nat, op: Operand, pc: int)
    requires op.value.Const? && !cpu.rows(code).quad && (op.mode == Indir || op.mode == IndirX || op.mode == LIndir)
    ensures Emittable(cpu.rows(code), Ordered(cpu.rows(code), [op]))
    ensures var b := Emitted(cpu, code, [op], pc);
            |b| == 3 && b[0] == cpu.rows(code).opcode && Word(b[1], b[2]) % 0x1_0000 == op.value.val % 0x1_0000
  {
    OneEmitted(cpu, code, op, pc);
    var lo, hi := WordBytes(Written(cpu, op, pc, 1), op.value.val);
  }

  predicate PagePointer(m: Mode) {
    m == DPIndX || m == DPIndY || m == DPIndZ || m == DPInd || m == LDPIndY || m == LDPInd
  }

  /** Or the byte of the direct page there; an offset on the stack likewise. */
  lemma PointerByte(cpu: Cpu, code: nat, op: Operand, pc: int)
    requires op.value.Const? && !cpu.rows(code).quad && (PagePointer(op.mode) || op.mode == Sr || op.mode == SrIndY)
    ensures Emittable(cpu.rows(code), Ordered(cpu.rows(code), [op]))
    ensures Emitted(cpu, code, [op], pc)
            == [cpu.rows(code).opcode,
                (if PagePointer(op.mode) && !op.lo then op.value.val - cpu.dpage else op.value.val) % 256]
  {
    OneEmitted(cpu, code, op, pc);
    OneByte(Written(cpu, op, pc, 1));
    CutByte(op.value.val);
  }

  /** A pointer of 32 bits has a prefix in front of the opcode. */
  lemma PointerPrefixed(cpu: Cpu, code: nat, op: Operand, pc: int)
    requires op.value.Const? && !cpu.rows(code).quad && (op.mode == QDPInd || op.mode == QDPIndZ)
    ensures Emittable(cpu.rows(code), Ordered(cpu.rows(code), [op]))
    ensures Emitted(cpu, code, [op], pc)
            == [0xea, cpu.rows(code).opcode, (if op.lo then op.value.val else op.value.val - cpu.dpage) % 256]
  {
    OneEmitted(cpu, code, op, pc);
    OneByte(Written(cpu, op, pc, 1));
    CutByte(op.value.val);
  }

  lemma CutByte(v: int)
    ensures v % 256 % 256 == v % 256
  {}

  /** Without an absolute form, an indexed operand outside of the zero page is an error. */
  lemma FormMissing(cpu: Cpu, code: nat, op: Operand, pc: int)
    requires IsAbs(op.mode) && op.mode != Abs && !op.value.Missing?
    requires cpu.rows(code).opcode == 0 && !cpu.rows(code).quad
    requires !WantsZeroPage(cpu, cpu.rows(code), op) && !WantsLong(cpu, cpu.rows(code), op)
    ensures Selected(cpu, cpu.rows(code), code, op, pc) == (code, op)
    ensures Emittable(cpu.rows(code), Ordered(cpu.rows(code), [op])) && Errors(cpu, code, [op], pc) > 0
  {
    OneEmitted(cpu, code, op, pc);
  }

  /** Where the operand is, by the form that is selected. */
  function MeantAddress(cpu: Cpu, row: Row, op: Operand, index: int): int
    requires op.value.Const?
  {
    var v := op.value.val;
    if WantsZeroPage(cpu, row, op) then InPage(cpu, (if op.lo then v else v - cpu.dpage) + index)
    else (v + index) % (if WantsLong(cpu, row, op) then 0x100_0000 else 0x1_0000)
  }

  // ---------- meaning of selectors ----------

  /** Which byte of a value a selector asks for. */
  function Chosen(op: Operand): nat {
    if op.bk then 2 else if op.hi then 1 else 0
  }

  lemma NextByte(v: int, k: nat)
    ensures ByteOf(v, k + 1) == ByteOf(v / 256, k) && ByteOf(v, 0) == v % 256
  {
    HalveByte(v, 8 * k);
  }

  lemma HighBytes(v: int)
    ensures ByteOf(v, 1) == v / 256 % 256 && ByteOf(v, 2) == v / 0x1_0000 % 256
    ensures ByteOf(v, 3) == v / 0x1_0000 / 256 % 256
  {
    NextByte(v, 0);
    NextByte(v, 1);
    NextByte(v, 2);
    NextByte(v / 256, 0);
    NextByte(v / 256, 1);
    NextByte(v / 256 / 256, 0);
    assert v / 256 / 256 == v / 0x1_0000;
  }

  lemma ByteCut(x: int)
    ensures x % 256 % 256 == x % 256 && x % 0x1_0000 % 256 == x % 256 && x % 0x1_0000 / 256 % 256 == x / 256 % 256
  {
    var t := x / 0x1_0000;
    assert x / 256 == 256 * t + x % 0x1_0000 / 256;
  }

  /** The bytes of an immediate operand are those of its value that the selector asks for. */
  lemma ImmediateBytes(cpu: Cpu, code: nat, op: Operand, pc: int)
    requires (op.mode == Immed8 || op.mode == Immed16) && !op.value.Missing? && !cpu.rows(code).quad
    ensures Emittable(cpu.rows(code), Ordered(cpu.rows(code), [op]))
    ensures Emitted(cpu, code, [op], pc)
            == [cpu.rows(code).opcode, ByteOf(op.value.val, Chosen(op))]
               + if op.mode == Immed16 then [ByteOf(op.value.val, Chosen(op) + 1)] else []
  {
    OneEmitted(cpu, code, op, pc);
    SelectedBytes(cpu, op, pc);
  }

  lemma SelectedBytes(cpu: Cpu, op: Operand, pc: int)
    requires (op.mode == Immed8 || op.mode == Immed16) && !op.value.Missing?
    ensures Bytes(Written(cpu, op, pc, 1), OpSize(op.mode))
            == [ByteOf(op.value.val, Chosen(op))]
               + if op.mode == Immed16 then [ByteOf(op.value.val, Chosen(op) + 1)] else []
  {
    var v, w := op.value.val, Written(cpu, op, pc, 1);
    var x := if op.bk then v / 0x1_0000 else if op.hi then v / 256 else v;
    assert w == x || w == x % 256 || w == x % 0x1_0000;
    ShiftedBytes(v, x, Chosen(op));
    if op.mode == Immed8 {
      OneByte(w);
      ByteCut(x);
    } else {
      assert w == x || w == x % 0x1_0000;
      TwoBytes(w);
      ByteCut(x);
    }
  }

  lemma ShiftedBytes(v: int, x: int, k: nat)
    requires k <= 2 && x == if k == 2 then v / 0x1_0000 else if k == 1 then v / 256 else v
    ensures ByteOf(v, k) == x % 256 && ByteOf(v, k + 1) == x / 256 % 256
  {
    HighBytes(v);
    NextByte(v, 0);
    assert v / 256 / 256 == v / 0x1_0000;
  }

  /** Selectors cut a value to its size; without one, a value that does not fit is an error. */
  lemma ImmediateErrors(cpu: Cpu, code: nat, op: Operand, pc: int)
    requires (op.mode == Immed8 || op.mode == Immed16) && !op.value.Missing? && !cpu.rows(code).quad
    ensures Emittable(cpu.rows(code), Ordered(cpu.rows(code), [op]))
    ensures Errors(cpu, code, [op], pc) == 0
            <==> || op.bk || op.hi || op.lo || cpu.autoMask
                 || if op.mode == Immed8 then -0x80 <= op.value.val <= 0xff else -0x8000 <= op.value.val <= 0xffff
  {
    OneEmitted(cpu, code, op, pc);
  }

  // ---------- errors and other operands ----------

  /** A value is cut to the form only where the processor or a selector says so; elsewhere one that does
      not fit is an error. */
  lemma AbsoluteErrors(cpu: Cpu, code: nat, op: Operand, pc: int)
    requires AbsoluteConstant(cpu, code, op)
    ensures var o := Selected(cpu, cpu.rows(code), code, op, pc).1;
            && Emittable(cpu.rows(code), Ordered(cpu.rows(code), [o]))
            && (Errors(cpu, code, [o], pc) == 0
                <==> || WantsZeroPage(cpu, cpu.rows(code), op) || WantsLong(cpu, cpu.rows(code), op)
                     || cpu.wide || op.hi || op.wa || 0 <= op.value.val <= 0xffff)
  {
    var o := AbsoluteForm(cpu, code, op, pc);
    OneEmitted(cpu, code, o, pc);
  }

  predicate WordPointer(m: Mode) {
    m == Indir || m == IndirX || m == LIndir
  }

  lemma PointerErrors(cpu: Cpu, code: nat, op: Operand, pc: int)
    requires op.value.Const? && !cpu.rows(code).quad
    requires WordPointer(op.mode) || PagePointer(op.mode) || op.mode == QDPInd || op.mode == QDPIndZ
             || op.mode == Sr || op.mode == SrIndY
    ensures Emittable(cpu.rows(code), Ordered(cpu.rows(code), [op]))
    ensures Errors(cpu, code, [op], pc) == 0
            <==> var v := op.value.val;
                 if WordPointer(op.mode) then cpu.wide || op.hi || op.wa || 0 <= v <= 0xffff
                 else if op.mode == Sr || op.mode == SrIndY then 0 <= v <= 0xff
                 else op.lo || 0 <= v - cpu.dpage <= 0xff
  {
    OneEmitted(cpu, code, op, pc);
    PointerRange(cpu, op, pc, Written(cpu, op, pc, 1));
  }

  lemma PointerRange(cpu: Cpu, op: Operand, pc: int, w: int)
    requires op.value.Const? && w == Written(cpu, op, pc, 1)
    ensures var v := op.value.val;
            && (WordPointer(op.mode) ==> (!OutOfRange(op, w) <==> cpu.wide || op.hi || op.wa || 0 <= v <= 0xffff))
            && (op.mode == Sr || op.mode == SrIndY ==> (!OutOfRange(op, w) <==> 0 <= v <= 0xff))
            && (PagePointer(op.mode) || op.mode == QDPInd || op.mode == QDPIndZ
                ==> (!OutOfRange(op, w) <==> op.lo || 0 <= v - cpu.dpage <= 0xff))
  {}

  /** An operand with a base takes two bytes if the base is declared to be in the zero page, four if it is
      declared to be far, and three otherwise. */
  lemma BasedAddress(cpu: Cpu, code: nat, op: Operand, pc: int)
    requires IsAbs(op.mode) && op.value.Based? && !op.lo && !op.hi && !op.wa && !cpu.rows(code).quad
    requires (op.mode == AbsY || op.mode == AbsZ) ==> cpu.rows(code).al == 0
    ensures var o, row := Selected(cpu, cpu.rows(code), code, op, pc).1, cpu.rows(code);
            && Emittable(row, Ordered(row, [o]))
            && |Emitted(cpu, code, [o], pc)|
               == if row.zp != 0 && (op.value.zero || op.value.near) then 2
                  else if cpu.wide && row.al != 0 && op.value.far then 4 else 3
  {
    var o := Selected(cpu, cpu.rows(code), code, op, pc).1;
    OneEmitted(cpu, code, o, pc);
  }

  /** A long branch leads to its target, or an error is reported. */
  lemma WideBranch(cpu: Cpu, code: nat, op: Operand, pc: int)
    requires op.mode == Rel16 && Direct(op.value) && !cpu.rows(code).quad
    ensures Emittable(cpu.rows(code), Ordered(cpu.rows(code), [op]))
    ensures var b := Emitted(cpu, code, [op], pc);
            && |b| == 3 && b[0] == cpu.rows(code).opcode
            && (Word(b[1], b[2]) + (pc + 3)) % 0x1_0000 == op.value.val % 0x1_0000
  {
    OneEmitted(cpu, code, op, pc);
    var lo, hi := DistanceBytes(Written(cpu, op, pc, 1), pc + 3, op.value.val);
    assert Emitted(cpu, code, [op], pc) == [cpu.rows(code).opcode, lo, hi];
  }

  lemma DistanceBytes(d: int, at: int, v: int) returns (lo: Byte, hi: Byte)
    requires d + at == v
    ensures Bytes(d, 2) == [lo, hi] && (Word(lo, hi) + at) % 0x1_0000 == v % 0x1_0000
  {
    lo, hi := WordBytes(d, d);
    IndexedTo(Word(lo, hi), d, at, v);
  }

  lemma IndexedTo(w: int, d: int, at: int, v: int)
    requires w % 0x1_0000 == d % 0x1_0000 && d + at == v
    ensures (w + at) % 0x1_0000 == v % 0x1_0000
  {
    IndexedWord(w, d, at);
  }

  lemma WideBranchErrors(cpu: Cpu, code: nat, op: Operand, pc: int)
    requires op.mode == Rel16 && Direct(op.value) && !cpu.rows(code).quad
    ensures Emittable(cpu.rows(code), Ordered(cpu.rows(code), [op]))
    ensures Errors(cpu, code, [op], pc) == 0 <==> -0x8000 <= op.value.val - (pc + 3) <= 0x7fff
  {
    OneEmitted(cpu, code, op, pc);
  }

  /** A block move has the bank of its second operand in front of that of the first. */
  lemma MoveMeaning(cpu: Cpu, code: nat, x: Operand, y: Operand, pc: int)
    requires x.mode == MVBank && y.mode == MVBank && !x.value.Missing? && !y.value.Missing?
    requires cpu.rows(code).move && !cpu.rows(code).quad
    ensures Emittable(cpu.rows(code), Ordered(cpu.rows(code), [x, y]))
    ensures Emitted(cpu, code, [x, y], pc) == [cpu.rows(code).opcode, ByteOf(y.value.val, 2), ByteOf(x.value.val, 2)]
  {
    var row, ops := cpu.rows(code), [y, x];
    assert Ordered(row, [x, y]) == ops;
    var oc := OpcodeFor(row, [x, y], 2);
    assert oc == OpcodeFor(row, [x, y], 1) == OpcodeFor(row, [x, y], 0) == row.opcode;
    HighBytes(x.value.val);
    HighBytes(y.value.val);
    OneByte(x.value.val / 0x1_0000 % 256);
    OneByte(y.value.val / 0x1_0000 % 256);
    CutByte(x.value.val / 0x1_0000);
    CutByte(y.value.val / 0x1_0000);
    assert BytesTo(cpu, [oc], ops, pc, 0) == [oc];
    assert BytesTo(cpu, [oc], ops, pc, 1) == [oc, ByteOf(y.value.val, 2)];
    assert SizeOf(ops, 0) == 0;
  }

  /** An instruction on a register of 32 bits has two prefixes in front of its opcode. */
  lemma PrefixedBytes(cpu: Cpu, code: nat, o: Operand, pc: int)
    requires cpu.rows(code).quad && o.value.Const? && o.mode == DPage
    ensures Emittable(cpu.rows(code), Ordered(cpu.rows(code), [o]))
    ensures Emitted(cpu, code, [o], pc)
            == [0x42, 0x42, cpu.rows(code).zp, (if o.lo then o.value.val else o.value.val - cpu.dpage) % 256]
  {
    var row, head := cpu.rows(code), [0x42, 0x42, cpu.rows(code).zp as Byte];
    assert OpcodeFor(row, [o], 1) == row.zp && SizeOf([o], 0) == 0;
    assert BytesTo(cpu, head, [o], pc, 0) == head;
    OneByte(Written(cpu, o, pc, 3));
    CutByte(o.value.val);
  }

  /** A bit number is set in bits 4 to 6 of the opcode. */
  lemma BitNumber(cpu: Cpu, code: nat, op: Operand, pc: int, i: nat)
    requires op.mode == WBit && op.value.Const? && !cpu.rows(code).quad && i < 8
    ensures Emittable(cpu.rows(code), Ordered(cpu.rows(code), [op]))
    ensures var b := Emitted(cpu, code, [op], pc);
            && |b| == 1
            && (BitOf(b[0], i) <==> BitOf(cpu.rows(code).opcode, i) || (4 <= i < 7 && BitOf(op.value.val, i - 4)))
  {
    OneEmitted(cpu, code, op, pc);
    OrNumber(cpu.rows(code).opcode, op.value.val, i);
  }

  lemma OrNumber(oc: Byte, v: int, i: nat)
    requires i < 8
    ensures BitOf(Or(oc, v % 8 * 16), i) <==> BitOf(oc, i) || (4 <= i < 7 && BitOf(v, i - 4))
  {
    Operators.BitwiseBits(Expressions.BOr, oc, v % 8 * 16, 8, i);
    NumberBits(v, i);
  }

  lemma BitNumberErrors(cpu: Cpu, code: nat, op: Operand, pc: int)
    requires op.mode == WBit && op.value.Const? && !cpu.rows(code).quad
    ensures Emittable(cpu.rows(code), Ordered(cpu.rows(code), [op]))
    ensures Errors(cpu, code, [op], pc) == 0 <==> 0 <= op.value.val <= 7
  {
    OneEmitted(cpu, code, op, pc);
  }

  lemma NumberBits(v: int, i: nat)
    ensures BitOf(v % 8 * 16, i) <==> 4 <= i < 7 && BitOf(v, i - 4)
  {
    LowThree(v);
    Sixteen(Low(v, 3));
    ShiftedBits(Low(v, 3), i);
    if i >= 4 {
      LowBits(v, 3, i - 4);
    }
  }

  lemma LowThree(v: int)
    ensures Low(v, 3) == v % 8
  {
    HalveLow(v, 3);
    Eights(Halve(v, 3));
    Eights(1);
    RestOfEight(v, Halve(v, 3), Low(v, 3));
  }

  lemma Eights(h: int)
    ensures Double(h, 3) == 8 * h
  {}

  lemma RestOfEight(v: int, h: int, r: int)
    requires v == 8 * h + r && 0 <= r < 8
    ensures r == v % 8
  {}

  lemma Sixteen(x: int)
    ensures Double(x, 4) == x * 16
  {}

  lemma ShiftedBits(x: int, i: nat)
    ensures BitOf(Double(x, 4), i) <==> i >= 4 && BitOf(x, i - 4)
  {
    if i < 4 {
      DoubleClear(x, 4, i);
    } else {
      HalveSum(x, 0, 4);
      HalveBits(Double(x, 4), 4, i - 4);
    }
  }
}
