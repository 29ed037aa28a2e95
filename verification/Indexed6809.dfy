/** Indexed addressing with a constant offset in the 6809 backend: the width of the offset is
    chosen by its value, or by a distance that depends on the width itself. */
module Indexed6809 {
  import opened Bitfields
  import opened Sequences

  datatype Register = X | Y | U | S | PC

  datatype Size = Off5 | Off8 | Off9 | Off16

  /** The processor, and the option that drops offsets of zero. */
  datatype Cpu = Cpu(hc12: bool, optOff: bool)

  /** An operand, without its value: the selectors lo and hi; whether the value has a base symbol;
      with the program counter as register, whether it is an address to which the distance has to be
      taken, and whether that has to be left to a linker. */
  datatype Operand = Operand(reg: Register, indirect: bool, lo: bool, hi: bool, based: bool, here: bool, reloc: bool)

  /** What is made of it. */
  datatype Form = NoOffset | Offset(size: Size, value: int)

  /** Bytes behind the postbyte. */
  function Extra(s: Size): nat {
    match s
    case Off5 => 0
    case Off8 | Off9 => 1
    case Off16 => 2
  }

  function ExtraOf(f: Form): nat {
    if f.NoOffset? then 0 else Extra(f.size)
  }

  /** `bf_sign_extend` for 16 bits. */
  function SignExtended(v: int): int {
    if 0x8000 <= v <= 0xffff then v - 0x1_0000 else v
  }

  // ---------- selection ----------

  /** The offset from pc, with some bytes in between. */
  function Distance(o: Operand, value: int, pc: int, between: nat): int {
    if o.here then value - (pc + between) else value
  }

  /** Relative to the program counter, which stands behind the postbyte. */
  function PcForm(cpu: Cpu, o: Operand, value: int, pc: int): Form {
    var far := Distance(o, value, pc, 2);
    if o.reloc then Offset(if !o.lo then Off16 else if cpu.hc12 then Off9 else Off8, far)
    else if cpu.hc12 then
      if !o.indirect && -18 <= far <= 13 then Offset(Off5, Distance(o, value, pc, 0))
      else if !o.indirect && -257 <= far <= 254 then Offset(Off9, Distance(o, value, pc, 1))
      else Offset(Off16, far)
    else if o.lo || (!o.hi && -129 <= far <= 126) then Offset(Off8, Distance(o, value, pc, 1))
    else Offset(Off16, far)
  }

  /** Relative to another register. */
  function RegisterForm(cpu: Cpu, o: Operand, value: int): Form {
    var v := SignExtended(value);
    if cpu.hc12 then
      Offset(
        if o.indirect then Off16 else if -16 <= v <= 15 then Off5 else if -256 <= v <= 255 then Off9 else Off16,
        value)
    else if cpu.optOff && v == 0 && !o.based then NoOffset
    else if o.lo then Offset(Off8, value)
    else if o.hi then Offset(Off16, value)
    else if !o.indirect && !o.based && -16 <= v <= 15 then Offset(Off5, value)
    else if !o.based && -128 <= v <= 127 then Offset(Off8, value)
    else Offset(Off16, value)
  }

  function Chosen(cpu: Cpu, o: Operand, value: int, pc: int): Form {
    if o.reg.PC? then PcForm(cpu, o, value, pc) else RegisterForm(cpu, o, value)
  }

  /** Nothing is reported: the offset fits 16 bits, and with a selector for short ones 8. */
  predicate Accepted(cpu: Cpu, o: Operand, value: int, pc: int) {
    var v := if o.reg.PC? then Distance(o, value, pc, 2) else SignExtended(value);
    && -0x8000 <= v <= 0xffff
    && (!cpu.hc12 && o.lo && !(o.reg.PC? && o.reloc) && Chosen(cpu, o, value, pc).Offset? ==>
          -128 <= (if o.reg.PC? then Distance(o, value, pc, 1) else v) <= 127)
  }

  // ---------- the operand in place ----------

  class Indexed {
    const o: Operand
    var value: int
    var form: Size
    var offset: bool

    constructor (o: Operand, value: int)
      ensures this.o == o && this.value == value
    {
      this.o, this.value, form, offset := o, value, Off5, true;
    }

    function Current(): Form
      reads this
    {
      if offset then Offset(form, value) else NoOffset
    }

    /** Choosing the width relative to the program counter. */
    method ProcessPc(cpu: Cpu, pc: int, final: bool) returns (errors: nat)
      requires o.reg.PC? && offset
      modifies this`value, this`form
      ensures Current() == Chosen(cpu, o, old(value), pc)
      ensures errors == 0 <==> !final || Accepted(cpu, o, old(value), pc)
    {
      errors := 0;
      var pcd := if o.here then value - (pc + 2) else value;
      if final && (pcd > 0xffff || pcd < -0x8000) {
        errors := errors + 1;
      }
      if o.reloc {
        form := if !o.lo then Off16 else if cpu.hc12 then Off9 else Off8;
      } else if cpu.hc12 {
        if !o.indirect && pcd >= -18 && pcd <= 13 {
          if o.here {
            pcd := value - pc;
          }
          form := Off5;
        } else if !o.indirect && pcd >= -257 && pcd <= 254 {
          if o.here {
            pcd := value - (pc + 1);
          }
          form := Off9;
        } else {
          form := Off16;
        }
      } else if o.lo {
        if o.here {
          pcd := value - (pc + 1);
        }
        form := Off8;
        if final && (pcd < -128 || pcd > 127) {
          errors := errors + 1;
        }
      } else if !o.hi && pcd >= -129 && pcd <= 126 {
        if o.here {
          pcd := value - (pc + 1);
        }
        form := Off8;
      } else {
        form := Off16;
      }
      value := pcd;
    }

    /** Choosing it relative to another register. */
    method ProcessRegister(cpu: Cpu, ghost pc: int, final: bool) returns (errors: nat)
      requires !o.reg.PC? && offset
      modifies this`form, this`offset
      ensures Current() == Chosen(cpu, o, value, pc)
      ensures errors == 0 <==> !final || Accepted(cpu, o, value, pc)
    {
      errors := 0;
      var v := SignExtended(value);
      if final && (v > 0xffff || v < -0x8000) {
        errors := errors + 1;
      }
      if cpu.hc12 {
        if !o.indirect && v >= -16 && v <= 15 {
          form := Off5;
        } else if !o.indirect && v >= -256 && v <= 255 {
          form := Off9;
        } else {
          form := Off16;
        }
      } else if cpu.optOff && v == 0 && !o.based {
        offset, form := false, Off5;
      } else if o.lo {
        form := Off8;
        if final && (v < -128 || v > 127) {
          errors := errors + 1;
        }
      } else if o.hi {
        form := Off16;
      } else if !o.indirect && !o.based && v >= -16 && v <= 15 {
        form := Off5;
      } else if !o.based && v >= -128 && v <= 127 {
        form := Off8;
      } else {
        form := Off16;
      }
    }

    /** The operand's part of `process_instruction`: its bytes begin at origPc. */
    method Process(cpu: Cpu, origPc: int, final: bool) returns (pc: int, errors: nat)
      requires offset
      modifies this
      ensures Current() == Chosen(cpu, o, old(value), origPc + 1)
      ensures errors == 0 <==> !final || Accepted(cpu, o, old(value), origPc + 1)
      ensures pc == origPc + 1 + ExtraOf(Current())
    {
      pc := origPc + 1;
      if o.reg.PC? {
        errors := ProcessPc(cpu, pc, final);
      } else {
        errors := ProcessRegister(cpu, pc, final);
      }
      if offset {
        pc := pc + Extra(form);
      }
    }

    /** Its part of `eval_instruction`: the bytes written are as many as were predicted. */
    method Eval(cpu: Cpu, origPc: int) returns (data: array<Byte>, errors: nat)
      requires offset && (cpu.hc12 ==> !o.reg.U?)
      modifies this
      ensures data[..] == Encoded(cpu, o, Chosen(cpu, o, old(value), origPc + 1))
      ensures data.Length == 1 + ExtraOf(Chosen(cpu, o, old(value), origPc + 1))
      ensures errors == 0 <==> Accepted(cpu, o, old(value), origPc + 1)
    {
      var pc;
      pc, errors := Process(cpu, origPc, true);
      data := new Byte[1 + ExtraOf(Current())](_ => 0);
      data[0] := Postbyte(cpu, o, Current());
      if offset {
        match form
        case Off5 =>
        case Off8 | Off9 =>
          data[1] := value % 256;
        case Off16 =>
          data[1] := value / 256 % 256;
          data[2] := value % 256;
      }
    }
  }

  // ---------- bytes ----------

  /** The number of a register in postbytes. */
  function Number09(r: Register): nat {
    match r
    case X => 0
    case Y => 1
    case U => 2
    case S => 3
    case PC => 0
  }

  function Number12(r: Register): nat {
    match r
    case X => 0
    case Y => 1
    case U => 2
    case S => 2
    case PC => 3
  }

  function Postbyte(cpu: Cpu, o: Operand, f: Form): Byte {
    var r09, r12 := 0x20 * Number09(o.reg), Number12(o.reg);
    match f
    case NoOffset => r09 + (if o.indirect then 0x94 else 0x84)
    case Offset(size, v) =>
      if cpu.hc12 then
        if o.indirect then 0xe3 + 8 * r12
        else if size == Off5 then 0x40 * r12 + v % 32
        else if size == Off16 then 0xe2 + 8 * r12
        else 0xe0 + 8 * r12 + v / 256 % 2
      else if size == Off5 && !o.reg.PC? then r09 + v % 32
      else r09 + (if o.indirect then 0x98 else 0x88) + (if o.reg.PC? then 4 else 0) + (if size == Off16 then 1 else 0)
  }

  function OffsetBytes(size: Size, v: int): (b: seq<Byte>)
    ensures |b| == Extra(size)
  {
    match size
    case Off5 => []
    case Off8 | Off9 => [v % 256]
    case Off16 => [v / 256 % 256, v % 256]
  }

  function Encoded(cpu: Cpu, o: Operand, f: Form): (b: seq<Byte>)
    ensures |b| == 1 + ExtraOf(f)
  {
    [Postbyte(cpu, o, f)] + if f.NoOffset? then [] else OffsetBytes(f.size, f.value)
  }

  // ---------- meaning ----------

  /** What a processor makes of the bytes: register, indirection, signed offset, length. */
  datatype Address = Address(reg: Register, indirect: bool, offset: int, length: nat)

  /** A field of so many values, read as a signed number. */
  function Signed(v: int, range: int): int {
    if v < range / 2 then v else v - range
  }

  function Word(hi: int, lo: int): int {
    0x100 * hi + lo
  }

  function Register09(n: nat): Register {
    match n
    case 0 => X
    case 1 => Y
    case 2 => U
    case _ => S
  }

  function Register12(n: nat): Register {
    match n
    case 0 => X
    case 1 => Y
    case 2 => S
    case _ => PC
  }

  /** Postbytes of the 6809. */
  function Decode09(b: seq<Byte>): Option<Address>
    requires b != []
  {
    var p: int := b[0];
    var reg, indirect, kind := Register09(p / 32 % 4), p / 16 % 2 == 1, p % 16;
    if p < 0x80 then Some(Address(reg, false, Signed(p % 32, 32), 1))
    else if kind == 4 then Some(Address(reg, indirect, 0, 1))
    else if (kind == 8 || kind == 12) && |b| >= 2 then
      Some(Address(if kind == 8 then reg else PC, indirect, Signed(b[1], 0x100), 2))
    else if (kind == 9 || kind == 13) && |b| >= 3 then
      Some(Address(if kind == 9 then reg else PC, indirect, Signed(Word(b[1], b[2]), 0x1_0000), 3))
    else None
  }

  /** Postbytes of the HC12. */
  function Decode12(b: seq<Byte>): Option<Address>
    requires b != []
  {
    var p: int := b[0];
    var kind := p % 8;
    if p / 32 % 2 == 0 then Some(Address(Register12(p / 64), false, Signed(p % 32, 32), 1))
    else if p < 0xe0 then None
    else if kind < 2 && |b| >= 2 then Some(Address(Register12(p / 8 % 4), false, Word(-kind, b[1]), 2))
    else if (kind == 2 || kind == 3) && |b| >= 3 then
      Some(Address(Register12(p / 8 % 4), kind == 3, Signed(Word(b[1], b[2]), 0x1_0000), 3))
    else None
  }

  function Decode(cpu: Cpu, b: seq<Byte>): Option<Address>
    requires b != []
  {
    if cpu.hc12 then Decode12(b) else Decode09(b)
  }

  /** The offset that is meant, when the instruction ends with the operand, at `after`. */
  function Meant(o: Operand, value: int, after: int): int {
    if o.reg.PC? && o.here then value - after else value
  }

  /** The offset fits the signed field. */
  predicate Fits(s: Size, v: int) {
    match s
    case Off5 => -16 <= v <= 15
    case Off8 => -128 <= v <= 127
    case Off9 => -256 <= v <= 255
    case Off16 => true
  }

  /** Addresses are counted modulo 64K. */
  predicate Same(x: int, y: int) {
    (x - y) % 0x1_0000 == 0
  }

  /** The number of values of a field. */
  function Range(s: Size): nat {
    match s
    case Off5 => 32
    case Off8 => 0x100
    case Off9 => 0x200
    case Off16 => 0x1_0000
  }

  /** What is left of an offset in its field. */
  function Field(f: Form): int {
    match f
    case NoOffset => 0
    case Offset(Off5, v) => Signed(v % 32, 32)
    case Offset(Off8, v) => Signed(v % 0x100, 0x100)
    case Offset(Off9, v) => Signed(v % 0x200, 0x200)
    case Offset(Off16, v) => Signed(v % 0x1_0000, 0x1_0000)
  }

  /** The forms that a processor has. */
  predicate Available(cpu: Cpu, o: Operand, f: Form) {
    if cpu.hc12 then !o.reg.U? && f.Offset? && (if o.indirect then f.size == Off16 else f.size != Off8)
    else if f.NoOffset? then !o.reg.PC?
    else f.size != Off9 && (f.size == Off5 ==> !o.indirect && !o.reg.PC?)
  }

  lemma NineBits(v: int)
    ensures Word(-(v / 0x100 % 2), v % 0x100) == Signed(v % 0x200, 0x200)
  {
    var q, r := v / 0x200, v % 0x200;
    var h, l := r / 0x100, r % 0x100;
    assert v == 0x100 * (2 * q + h) + l;
    assert v / 0x100 == 2 * q + h && v % 0x100 == l;
    assert h == 0 || h == 1;
    assert v / 0x100 % 2 == h;
  }

  lemma SixteenBits(v: int)
    ensures Word(v / 0x100 % 0x100, v % 0x100) == v % 0x1_0000
  {}

  lemma ShortPostbyte09(n: nat, x: int)
    requires n < 4 && 0 <= x < 32
    ensures var p := 0x20 * n + x; p < 0x80 && p / 32 % 4 == n && p % 32 == x
  {}

  lemma Postbyte09(n: nat, t: int)
    requires n < 4 && 0x80 <= t < 0xa0
    ensures var p := 0x20 * n + t; 0x80 <= p < 0x100 && p / 32 % 4 == n && p / 16 % 2 == t / 16 % 2 && p % 16 == t % 16
  {}

  lemma ShortPostbyte12(n: nat, x: int)
    requires n < 4 && 0 <= x < 32
    ensures var p := 0x40 * n + x; p < 0x100 && p / 32 % 2 == 0 && p / 64 == n && p % 32 == x
  {}

  lemma Postbyte12(n: nat, t: int)
    requires n < 4 && 0xe0 <= t < 0xe4
    ensures var p := t + 8 * n; 0xe0 <= p < 0x100 && p / 32 % 2 == 1 && p % 8 == t % 8 && p / 8 % 4 == n
  {}

  /** A postbyte with an offset of 8 or 16 bits. */
  lemma WideBack09(n: nat, t: int, size: Size, v: int)
    requires n < 4 && (size == Off8 || size == Off16)
    requires t == 0x88 || t == 0x98 || t == 0x8c || t == 0x9c
    requires t % 16 == 12 ==> n == 0
    ensures var wide := if size == Off16 then 1 else 0;
            Decode09([0x20 * n + t + wide] + OffsetBytes(size, v))
            == Some(Address(if t % 16 == 12 then PC else Register09(n), t >= 0x98,
                            Field(Offset(size, v)), 1 + Extra(size)))
  {
    Postbyte09(n, t + if size == Off16 then 1 else 0);
    SixteenBits(v);
  }

  /** The processor finds register, indirection, and what is left of the offset. */
  lemma BytesBack09(cpu: Cpu, o: Operand, f: Form)
    requires Available(cpu, o, f) && !cpu.hc12
    ensures Decode09(Encoded(cpu, o, f)) == Some(Address(o.reg, o.indirect, Field(f), 1 + ExtraOf(f)))
  {
    match f
    case NoOffset => Postbyte09(Number09(o.reg), if o.indirect then 0x94 else 0x84);
    case Offset(Off5, v) => ShortPostbyte09(Number09(o.reg), v % 32);
    case Offset(size, v) =>
      WideBack09(Number09(o.reg), (if o.indirect then 0x98 else 0x88) + (if o.reg.PC? then 4 else 0), size, v);
  }

  lemma NineBack12(n: nat, v: int)
    requires n < 4
    ensures Decode12([0xe0 + 8 * n + v / 0x100 % 2, v % 0x100])
            == Some(Address(Register12(n), false, Field(Offset(Off9, v)), 2))
  {
    Postbyte12(n, 0xe0 + v / 0x100 % 2);
    NineBits(v);
  }

  lemma WideBack12(n: nat, indirect: bool, v: int)
    requires n < 4
    ensures Decode12([(if indirect then 0xe3 else 0xe2) + 8 * n, v / 0x100 % 0x100, v % 0x100])
            == Some(Address(Register12(n), indirect, Field(Offset(Off16, v)), 3))
  {
    Postbyte12(n, if indirect then 0xe3 else 0xe2);
    SixteenBits(v);
  }

  lemma BytesBack12(cpu: Cpu, o: Operand, f: Form)
    requires Available(cpu, o, f) && cpu.hc12
    ensures Decode12(Encoded(cpu, o, f)) == Some(Address(o.reg, o.indirect, Field(f), 1 + ExtraOf(f)))
  {
    match f
    case Offset(Off5, v) => ShortPostbyte12(Number12(o.reg), v % 32);
    case Offset(Off9, v) => NineBack12(Number12(o.reg), v);
    case Offset(Off16, v) => WideBack12(Number12(o.reg), o.indirect, v);
  }

  /** The forms chosen exist. */
  lemma ChosenAvailable(cpu: Cpu, o: Operand, value: int, pc: int)
    requires cpu.hc12 ==> !o.reg.U?
    requires !(o.reg.PC? && o.reloc)
    ensures Available(cpu, o, Chosen(cpu, o, value, pc))
  {}

  /** A field of fewer than 16 bits holds just the offsets that fit. */
  lemma SmallField(s: Size, v: int)
    requires s != Off16
    ensures Fits(s, v) ==> Field(Offset(s, v)) == v
    ensures Fits(s, Field(Offset(s, v)))
  {
    SignedInRange(v % Range(s), Range(s) / 2);
    if Fits(s, v) {
      assert v % Range(s) == if v < 0 then v + Range(s) else v;
    }
  }

  lemma SignedInRange(v: int, half: int)
    requires 0 <= v < 2 * half
    ensures -half <= Signed(v, 2 * half) < half
  {}

  lemma WideField(v: int)
    ensures Same(Field(Offset(Off16, v)), v)
  {
    assert v == 0x1_0000 * (v / 0x1_0000) + v % 0x1_0000;
  }

  lemma Near(x: int, y: int)
    requires x != y && -0x1_0000 < x - y < 0x1_0000
    ensures !Same(x, y)
  {}

  lemma FieldHolds(f: Form)
    requires f.Offset?
    ensures Fits(f.size, f.value) ==> Same(Field(f), f.value)
    ensures f.size != Off16 && !Fits(f.size, f.value) && -0x8000 <= f.value < 0x8000 ==> !Same(Field(f), f.value)
  {
    if f.size == Off16 {
      WideField(f.value);
    } else {
      SmallField(f.size, f.value);
      if !Fits(f.size, f.value) && -0x8000 <= f.value < 0x8000 {
        Near(Field(f), f.value);
      }
    }
  }

  lemma SameChain(x: int, y: int, z: int)
    requires Same(y, z)
    ensures Same(x, y) <==> Same(x, z)
  {}

  lemma SignExtendedSame(v: int)
    ensures Same(SignExtended(v), v)
  {}

  /** A constant with the program counter as register that is taken for a distance when its width
      is chosen, and does not fit the width. */
  predicate Misfit(cpu: Cpu, o: Operand, value: int) {
    o.reg.PC? && !o.here &&
    if cpu.hc12 then !o.indirect && (value == -257 || value == -18 || value == -17)
    else !o.lo && !o.hi && value == -129
  }

  /** With a form whose offset field has been chosen by a number v that stands for the value. */
  lemma ChosenField(f: Form, v: int, value: int)
    requires f.Offset? && Same(v, value) && (f.value == v || f.value == value) && Fits(f.size, v)
    ensures Same(Field(f), value)
  {
    FieldModulo(f.size, f.value, v);
    FieldHolds(Offset(f.size, v));
    SameChain(Field(f), v, value);
  }

  lemma FieldModulo(s: Size, x: int, y: int)
    requires Same(x, y)
    ensures Field(Offset(s, x)) == Field(Offset(s, y))
  {
    LowPart(x, y, (x - y) / 0x1_0000);
  }

  lemma LowPart(x: int, y: int, k: int)
    requires x == y + 0x1_0000 * k
    ensures x % 32 == y % 32 && x % 0x100 == y % 0x100 && x % 0x200 == y % 0x200 && x % 0x1_0000 == y % 0x1_0000
  {
    Low5(x, y, 0x800 * k);
    Low8(x, y, 0x100 * k);
    Low9(x, y, 0x80 * k);
    Low16(x, y, k);
  }

  lemma Low5(x: int, y: int, k: int)
    requires x == y + 32 * k
    ensures x % 32 == y % 32
  {
    var q, r := y / 32, y % 32;
    assert x == 32 * (q + k) + r;
  }

  lemma Low8(x: int, y: int, k: int)
    requires x == y + 0x100 * k
    ensures x % 0x100 == y % 0x100
  {
    var q, r := y / 0x100, y % 0x100;
    assert x == 0x100 * (q + k) + r;
  }

  lemma Low9(x: int, y: int, k: int)
    requires x == y + 0x200 * k
    ensures x % 0x200 == y % 0x200
  {
    var q, r := y / 0x200, y % 0x200;
    assert x == 0x200 * (q + k) + r;
  }

  lemma Low16(x: int, y: int, k: int)
    requires x == y + 0x1_0000 * k
    ensures x % 0x1_0000 == y % 0x1_0000
  {
    var q, r := y / 0x1_0000, y % 0x1_0000;
    assert x == 0x1_0000 * (q + k) + r;
  }

  lemma RegisterOffset(cpu: Cpu, o: Operand, value: int, pc: int)
    requires !o.reg.PC? && Accepted(cpu, o, value, pc)
    ensures Same(Field(RegisterForm(cpu, o, value)), value)
  {
    var f, v := RegisterForm(cpu, o, value), SignExtended(value);
    SignExtendedSame(value);
    if f.Offset? {
      ChosenField(f, v, value);
    }
  }

  lemma PcOffset(cpu: Cpu, o: Operand, value: int, pc: int)
    requires o.reg.PC? && !o.reloc && Accepted(cpu, o, value, pc)
    ensures var f := PcForm(cpu, o, value, pc);
            Same(Field(f), Meant(o, value, pc + ExtraOf(f))) <==> !Misfit(cpu, o, value)
  {
    FieldHolds(PcForm(cpu, o, value, pc));
  }

  /** What is written means register and offset of the source, unless the offset is a misfit or an
      error is reported; and it has the predicted length. */
  lemma OffsetKept(cpu: Cpu, o: Operand, value: int, pc: int)
    requires (cpu.hc12 ==> !o.reg.U?) && !(o.reg.PC? && o.reloc) && Accepted(cpu, o, value, pc)
    ensures var f := Chosen(cpu, o, value, pc);
            var a := Decode(cpu, Encoded(cpu, o, f));
            && a.Some? && a.value.reg == o.reg && a.value.indirect == o.indirect && a.value.length == 1 + ExtraOf(f)
            && (Same(a.value.offset, Meant(o, value, pc + ExtraOf(f))) <==> !Misfit(cpu, o, value))
  {
    var f := Chosen(cpu, o, value, pc);
    ChosenAvailable(cpu, o, value, pc);
    if cpu.hc12 {
      BytesBack12(cpu, o, f);
    } else {
      BytesBack09(cpu, o, f);
    }
    if o.reg.PC? {
      PcOffset(cpu, o, value, pc);
    } else {
      RegisterOffset(cpu, o, value, pc);
    }
  }

  // ---------- economy ----------

  /** The number that has to fit a field of the given size. */
  function Needed(o: Operand, value: int, pc: int, s: Size): int {
    if o.reg.PC? then Distance(o, value, pc, Extra(s)) else SignExtended(value)
  }

  /** No available form that fits is shorter. */
  ghost predicate Shortest(cpu: Cpu, o: Operand, value: int, pc: int, f: Form) {
    forall s: Size, v: int :: Available(cpu, o, Offset(s, v)) && Fits(s, Needed(o, value, pc, s))
                              ==> ExtraOf(f) <= Extra(s)
  }

  /** Without selectors and base symbols the shortest offset is taken; except for some constants with
      the program counter as register, for which the room of a distance is kept. */
  lemma ShortestOffset(cpu: Cpu, o: Operand, value: int, pc: int)
    requires (cpu.hc12 ==> !o.reg.U?) && !o.lo && !o.hi && !o.reloc && (!o.reg.PC? ==> !o.based)
    ensures Shortest(cpu, o, value, pc, Chosen(cpu, o, value, pc))
            <==> !(o.reg.PC? && !o.here && if cpu.hc12 then !o.indirect && (value == 14 || value == 15 || value == 255)
                                           else value == 127)
  {
    var f := Chosen(cpu, o, value, pc);
    assert Available(cpu, o, Offset(Off5, 0)) && Fits(Off5, Needed(o, value, pc, Off5)) ==> Extra(Off5) >= 0;
    assert Available(cpu, o, Offset(Off8, 0)) && Fits(Off8, Needed(o, value, pc, Off8)) ==> Extra(Off8) >= 0;
    assert Available(cpu, o, Offset(Off9, 0)) && Fits(Off9, Needed(o, value, pc, Off9)) ==> Extra(Off9) >= 0;
  }
}
