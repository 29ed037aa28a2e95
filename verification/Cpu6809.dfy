/** Relative branches of the 6809 backend: short branches become long when their target is out of
    reach, and long ones become short when it is near. */
module Cpu6809 {
  import opened Bitfields

  // ---------- the branch rows of the opcode table ----------

  datatype Family = M6809 | HC12 | Konami

  /** A row: opcode, and whether its operand is a short or a long branch offset. */
  datatype Row = Row(opcode: nat, short: bool, long: bool, family: Family)

  const FIRST_BRANCH := 487
  const BRANCH_ROWS := 5 + 6 * 16

  /** The rows of bsr, lbsr and then of bra, brn, bhi, ..., ble with their long forms. */
  function BranchRow(k: nat): Row
    requires k < BRANCH_ROWS
  {
    if k == 0 then Row(0x8d, true, false, M6809)
    else if k == 1 then Row(0x07, true, false, HC12)
    else if k == 2 then Row(0xaa, true, false, Konami)
    else if k == 3 then Row(0x17, false, true, M6809)
    else if k == 4 then Row(0xab, false, true, Konami)
    else ConditionRow((k - 5) / 6, (k - 5) % 6)
  }

  /** For each condition three short forms and three long ones. */
  function ConditionRow(c: nat, j: nat): Row {
    if j == 0 then Row(0x20 + c, true, false, M6809)
    else if j == 1 then Row(0x20 + c, true, false, HC12)
    else if j == 2 then Row((if c % 2 == 0 then 0x60 else 0x70) + c / 2, true, false, Konami)
    else if j == 3 then Row(if c == 0 then 0x16 else 0x1020 + c, false, true, M6809)
    else if j == 4 then Row(0x1820 + c, false, true, HC12)
    else Row((if c % 2 == 0 then 0x68 else 0x78) + c / 2, false, true, Konami)
  }

  /** All rows; the first one is an instruction of two bytes without operands. */
  function RowAt(code: int): Row {
    if FIRST_BRANCH <= code < FIRST_BRANCH + BRANCH_ROWS then BranchRow(code - FIRST_BRANCH)
    else Row(0x1807, false, false, HC12)
  }

  function RowOf(k: nat): int {
    FIRST_BRANCH + k
  }

  lemma ConditionRowAt(c: nat, j: nat)
    requires c < 16 && j < 6
    ensures RowAt(RowOf(5 + 6 * c + j)) == ConditionRow(c, j)
  {
    assert (6 * c + j) / 6 == c && (6 * c + j) % 6 == j;
  }

  /** The long form for a short branch. Only those have one that were found in the table of the
      selected cpu; for bsr on the HC12 nothing was found, and the variable still holds 0. */
  function LongCode(f: Family, code: int): int {
    var k := code - FIRST_BRANCH;
    if !RowAt(code).short || RowAt(code).family != f then -1
    else if k < 5 then (if f == M6809 then RowOf(3) else if f == Konami then RowOf(4) else 0)
    else if (k - 5) / 6 == 1 then -1
    else code + 3
  }

  // ---------- processing ----------

  datatype Mode = Rel8 | Rel16

  function RelSize(m: Mode): nat {
    if m == Rel8 then 1 else 2
  }

  function Width(oc: nat): nat {
    if oc > 0xff then 2 else 1
  }

  function OpcodeSize(code: int): nat {
    Width(RowAt(code).opcode)
  }

  /** From the address behind the instruction to the target. */
  function Distance(target: int, pc: int, code: int, m: Mode): int {
    target - (pc + OpcodeSize(code) + RelSize(m))
  }

  /** The row and the width that are chosen, given the distance for the present ones. */
  function Chosen(f: Family, optBra: bool, code: int, m: Mode, pcd: int): (int, Mode) {
    if !optBra then (code, m)
    else if m == Rel8 then
      if !(-128 <= pcd <= 127) && LongCode(f, code) >= 0 then (LongCode(f, code), Rel16) else (code, m)
    else
      var diff := 1 - OpcodeSize(code);
      if -129 + diff <= pcd <= 126 + diff && RowAt(code - 2).short then (code - 2, Rel8) else (code, m)
  }

  /** A distance below -32768 is taken modulo 64K. */
  function Around(m: Mode, pcd: int): int {
    if m == Rel16 && -0x1_0000 <= pcd < -0x8000 then pcd + 0x1_0000 else pcd
  }

  predicate InReach(m: Mode, pcd: int) {
    if m == Rel8 then -128 <= pcd <= 127 else -0x1_0000 <= pcd <= 0xffff
  }

  /** Short branches have opcodes of one byte. */
  lemma ShortOpcode(code: int)
    ensures RowAt(code).short ==> OpcodeSize(code) == 1
  {}

  /** An instruction with one relative operand that needs no relocation: row, width, and first the
      target, then the displacement. */
  class Branch {
    var code: int
    var mode: Mode
    var curval: int

    constructor (code: int, mode: Mode, target: int)
      ensures this.code == code && this.mode == mode && curval == target
    {
      this.code, this.mode, curval := code, mode, target;
    }

    /** Conversion between the short and the long form, adjusting address and displacement. */
    method Convert(f: Family, origPc: int, pc0: int, pcd0: int) returns (pc: int, pcd: int)
      requires pc0 == origPc + OpcodeSize(code) && pcd0 == Distance(curval, origPc, code, mode)
      modifies this`code, this`mode
      ensures (code, mode) == Chosen(f, true, old(code), old(mode), pcd0)
      ensures pc == origPc + OpcodeSize(code) && pcd == Distance(curval, origPc, code, mode)
    {
      pc, pcd := pc0, pcd0;
      match mode
      case Rel8 =>
        var long := LongCode(f, code);
        if (pcd < -128 || pcd > 127) && long >= 0 {
          mode := Rel16;
          code := long;
          var diff := OpcodeSize(code) - (pc - origPc);
          pc := pc + diff;
          pcd := pcd - (1 + diff);
        }
      case Rel16 =>
        var diff := 1 - (pc - origPc);
        if -129 + diff <= pcd <= 126 + diff && RowAt(code - 2).short {
          ShortOpcode(code - 2);
          mode := Rel8;
          code := code - 2;
          pc := pc + diff;
          pcd := pcd + (1 - diff);
        }
    }

    /** The final range check; a long distance may lead around the address space. */
    method Check(pcd: int) returns (disp: int, errors: nat)
      ensures disp == Around(mode, pcd) && (errors == 0 <==> InReach(mode, pcd))
    {
      disp, errors := pcd, 0;
      match mode
      case Rel8 =>
        if pcd < -128 || pcd > 127 {
          errors := errors + 1;
        }
      case Rel16 =>
        if pcd < -0x8000 {
          var wrapped := pcd + 0x1_0000;
          if 0 <= wrapped <= 0xffff {
            disp := wrapped;
          } else {
            errors := errors + 1;
          }
        } else if pcd > 0xffff {
          errors := errors + 1;
        }
    }

    /** What `process_instruction` does with such an operand: the displacement is the distance from
        the end of the instruction in its new form. */
    method Process(f: Family, optBra: bool, origPc: int, final: bool) returns (size: nat, errors: nat)
      modifies this
      ensures (code, mode)
              == Chosen(f, optBra, old(code), old(mode), Distance(old(curval), origPc, old(code), old(mode)))
      ensures size == OpcodeSize(code) + RelSize(mode)
      ensures var pcd := Distance(old(curval), origPc, code, mode);
              && curval == (if final then Around(mode, pcd) else pcd)
              && (errors == 0 <==> !final || InReach(mode, pcd))
    {
      var pc := origPc + OpcodeSize(code);
      var pcd := curval - (pc + RelSize(mode));
      errors := 0;
      if optBra {
        pc, pcd := Convert(f, origPc, pc, pcd);
      }
      if final {
        pcd, errors := Check(pcd);
      }
      curval := pcd;
      pc := pc + RelSize(mode);
      size := pc - origPc;
    }

    /** `eval_instruction`: opcode and displacement fill exactly the size that was determined. */
    method Eval(f: Family, optBra: bool, pc: int) returns (data: array<Byte>, errors: nat)
      modifies this
      ensures (code, mode) == Chosen(f, optBra, old(code), old(mode), Distance(old(curval), pc, old(code), old(mode)))
      ensures var pcd := Distance(old(curval), pc, code, mode);
              && data[..] == Encoded(RowAt(code).opcode, mode, Around(mode, pcd))
              && (errors == 0 <==> InReach(mode, pcd))
    {
      var size;
      size, errors := Process(f, optBra, pc, true);
      data := WriteBranch(RowAt(code).opcode, mode, curval, size);
    }
  }

  method WriteBranch(oc: nat, m: Mode, disp: int, size: nat) returns (data: array<Byte>)
    requires size == Width(oc) + RelSize(m)
    ensures fresh(data) && data[..] == Encoded(oc, m, disp)
  {
    data := new Byte[size](_ => 0);
    var d := 0;
    if oc > 0xff {
      data[d] := oc / 256 % 256;
      d := d + 1;
    }
    data[d] := oc % 256;
    d := d + 1;
    if m == Rel16 {
      data[d] := disp / 256 % 256;
      d := d + 1;
    }
    data[d] := disp % 256;
    d := d + 1;
  }

  /** The bytes of a branch. */
  function Encoded(oc: nat, m: Mode, disp: int): (b: seq<Byte>)
    ensures |b| == Width(oc) + RelSize(m)
  {
    (if oc > 0xff then [oc / 256 % 256, oc % 256] else [oc])
    + (if m == Rel16 then [disp / 256 % 256, disp % 256] else [disp % 256])
  }

  // ---------- meaning ----------

  /** The displacement at the end of an instruction, as the processor takes it. */
  function Taken(b: seq<Byte>, m: Mode): int
    requires |b| >= 2
  {
    var lo: int, hi: int := b[|b| - 1], b[|b| - 2];
    if m == Rel8 then (if lo < 128 then lo else lo - 256) else 256 * hi + lo
  }

  /** Whatever form is chosen: the displacement and the address behind the instruction lead to the
      target, unless an error is reported. */
  lemma ReachesTarget(f: Family, optBra: bool, code: int, m: Mode, target: int, pc: int)
    ensures var (c, n) := Chosen(f, optBra, code, m, Distance(target, pc, code, m));
            var pcd := Distance(target, pc, c, n);
            var b := Encoded(RowAt(c).opcode, n, Around(n, pcd));
            InReach(n, pcd) ==> (pc + |b| + Taken(b, n)) % 0x1_0000 == target % 0x1_0000
  {
    var (c, n) := Chosen(f, optBra, code, m, Distance(target, pc, code, m));
    var oc, pcd := RowAt(c).opcode, Distance(target, pc, c, n);
    if InReach(n, pcd) {
      EncodedTaken(oc, n, pcd);
      Modulo(pc + Width(oc) + RelSize(n), Taken(Encoded(oc, n, Around(n, pcd)), n), pcd);
    }
  }

  lemma LowWord(d: int)
    ensures 256 * (d / 256 % 256) + d % 256 == d % 0x1_0000
  {}

  lemma EncodedTaken(oc: nat, n: Mode, pcd: int)
    requires InReach(n, pcd)
    ensures Taken(Encoded(oc, n, Around(n, pcd)), n) % 0x1_0000 == pcd % 0x1_0000
  {
    LowWord(Around(n, pcd));
  }

  lemma Modulo(at: int, x: int, y: int)
    requires x % 0x1_0000 == y % 0x1_0000
    ensures (at + x) % 0x1_0000 == (at + y) % 0x1_0000
  {}

  /** A branch is made short only when the new displacement fits. */
  lemma ShortOnlyInReach(f: Family, optBra: bool, code: int, target: int, pc: int)
    ensures var (c, n) := Chosen(f, optBra, code, Rel16, Distance(target, pc, code, Rel16));
            n == Rel8 ==> InReach(Rel8, Distance(target, pc, c, n))
  {
    ShortOpcode(code - 2);
  }

  /** What an opcode does on a processor: 0 to 15 is a branch on a condition, 16 one to a
      subroutine, -1 anything else. */
  function Meaning(f: Family, oc: nat): int {
    match f
    case M6809 =>
      if oc == 0x8d || oc == 0x17 then 16 else if 0x20 <= oc <= 0x2f then oc - 0x20 else if oc == 0x16 then 0
      else if 0x1021 <= oc <= 0x102f then oc - 0x1020 else -1
    case HC12 =>
      if oc == 0x07 then 16 else if 0x20 <= oc <= 0x2f then oc - 0x20
      else if 0x1820 <= oc <= 0x182f then oc - 0x1820 else -1
    case Konami =>
      if oc == 0xaa || oc == 0xab then 16
      else if 0x60 <= oc <= 0x67 then 2 * (oc - 0x60) else if 0x70 <= oc <= 0x77 then 2 * (oc - 0x70) + 1
      else if 0x68 <= oc <= 0x6f then 2 * (oc - 0x68) else if 0x78 <= oc <= 0x7f then 2 * (oc - 0x78) + 1 else -1
  }

  /** A row of the selected processor, with an operand of its width. */
  predicate OwnBranch(f: Family, code: int, m: Mode) {
    FIRST_BRANCH <= code < FIRST_BRANCH + BRANCH_ROWS && RowAt(code).family == f
    && (if m == Rel8 then RowAt(code).short else RowAt(code).long)
  }

  /** Every row of a condition means that condition on its processor: rows that differ by their
      width only mean the same. */
  lemma RowMeaning(c: nat, j: nat)
    requires c < 16 && j < 6
    ensures Meaning(ConditionRow(c, j).family, ConditionRow(c, j).opcode) == c
  {}

  lemma {:induction false} LongMeaning(f: Family, code: int)
    requires OwnBranch(f, code, Rel8) && LongCode(f, code) >= 0
    ensures Meaning(f, RowAt(LongCode(f, code)).opcode) == Meaning(f, RowAt(code).opcode)
            <==> !(f == HC12 && code == RowOf(1))
  {
    if code >= RowOf(5) {
      var c, j := ConditionOf(code);
      RowMeaning(c, j);
      RowMeaning(c, j + 3);
      ConditionRowAt(c, j + 3);
    }
  }

  /** The condition and the form of a row. */
  lemma ConditionOf(code: int) returns (c: nat, j: nat)
    requires RowOf(5) <= code < FIRST_BRANCH + BRANCH_ROWS
    ensures c < 16 && j < 6 && code == RowOf(5 + 6 * c + j) && RowAt(code) == ConditionRow(c, j)
  {
    c, j := (code - RowOf(5)) / 6, (code - RowOf(5)) % 6;
  }

  lemma {:induction false} ShortMeaning(f: Family, code: int)
    requires OwnBranch(f, code, Rel16) && RowAt(code - 2).short
    ensures Meaning(f, RowAt(code - 2).opcode) == Meaning(f, RowAt(code).opcode) <==> f != HC12 && code != RowOf(3)
  {
    if code >= RowOf(5) {
      var c, j := ConditionOf(code);
      ConditionRowAt(c, j - 2);
      ShortCondition(f, c, j);
    }
  }

  lemma ShortCondition(f: Family, c: nat, j: nat)
    requires c < 16 && 3 <= j < 6 && ConditionRow(c, j).family == f && ConditionRow(c, j - 2).short
    ensures Meaning(f, ConditionRow(c, j - 2).opcode) == Meaning(f, ConditionRow(c, j).opcode) <==> f != HC12
  {
    RowMeaning(c, j);
  }

  /** Whatever form is chosen, the opcode still does the same, except in these cases: bsr of the HC12
      whose target is out of reach; and lbsr of the 6809, and all long branches of the HC12, whose
      target is near. There a row of another processor, or of no branch at all, is hit. */
  lemma SameOperation(f: Family, optBra: bool, code: int, m: Mode, pcd: int)
    requires OwnBranch(f, code, m)
    ensures Meaning(f, RowAt(Chosen(f, optBra, code, m, pcd).0).opcode) == Meaning(f, RowAt(code).opcode)
            <==> !(optBra && if m == Rel8 then f == HC12 && code == RowOf(1) && !(-128 <= pcd <= 127)
                             else (f == HC12 || code == RowOf(3)) && -128 <= pcd + OpcodeSize(code) <= 127)
  {
    if m == Rel8 {
      SameMadeLong(f, optBra, code, pcd);
    } else {
      SameMadeShort(f, optBra, code, pcd);
    }
  }

  lemma SameMadeLong(f: Family, optBra: bool, code: int, pcd: int)
    requires OwnBranch(f, code, Rel8)
    ensures Meaning(f, RowAt(Chosen(f, optBra, code, Rel8, pcd).0).opcode) == Meaning(f, RowAt(code).opcode)
            <==> !(optBra && f == HC12 && code == RowOf(1) && !(-128 <= pcd <= 127))
  {
    assert Chosen(f, optBra, code, Rel8, pcd).0
           == if optBra && !(-128 <= pcd <= 127) && LongCode(f, code) >= 0 then LongCode(f, code) else code;
    assert f == HC12 && code == RowOf(1) ==> LongCode(f, code) == 0;
    if LongCode(f, code) >= 0 {
      LongMeaning(f, code);
    }
  }

  lemma SameMadeShort(f: Family, optBra: bool, code: int, pcd: int)
    requires OwnBranch(f, code, Rel16)
    ensures Meaning(f, RowAt(Chosen(f, optBra, code, Rel16, pcd).0).opcode) == Meaning(f, RowAt(code).opcode)
            <==> !(optBra && (f == HC12 || code == RowOf(3)) && -128 <= pcd + OpcodeSize(code) <= 127)
  {
    ShortRow(f, code);
    assert Chosen(f, optBra, code, Rel16, pcd).0
           == if optBra && -128 <= pcd + OpcodeSize(code) <= 127 && RowAt(code - 2).short then code - 2 else code;
    if RowAt(code - 2).short {
      ShortMeaning(f, code);
    }
  }

  /** The long branches for which two rows back there is a short one. */
  lemma ShortRow(f: Family, code: int)
    requires OwnBranch(f, code, Rel16)
    ensures f == HC12 || code == RowOf(3) ==> RowAt(code - 2).short
  {
    var k := code - FIRST_BRANCH;
    if k >= 5 {
      var c, j := (k - 5) / 6, (k - 5) % 6;
      assert j >= 3;
      ConditionRowAt(c, j - 2);
    }
  }

  /** The width that is chosen: short branches become long if their target is out of reach, all but
      brn; long ones become short if it is near, but on the KONAMI-2 only lbsr. */
  lemma WidthChosen(f: Family, optBra: bool, code: int, m: Mode, pcd: int)
    requires OwnBranch(f, code, m)
    ensures Chosen(f, optBra, code, m, pcd).1
            == if m == Rel8 then
                 if optBra && !(-128 <= pcd <= 127) && Meaning(f, RowAt(code).opcode) != 1 then Rel16 else Rel8
               else
                 if optBra && -128 <= pcd + OpcodeSize(code) <= 127 && (f != Konami || code == RowOf(4)) then Rel8
                 else Rel16
  {
    var k := code - FIRST_BRANCH;
    if k >= 5 {
      var c, j := (k - 5) / 6, (k - 5) % 6;
      RowMeaning(c, j);
      assert RowAt(code) == ConditionRow(c, j);
      if m == Rel16 {
        assert j >= 3;
        ConditionRowAt(c, j - 2);
      }
    }
  }
}
