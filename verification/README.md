# vasm, verified parts

vasm is a portable assembler in many passes. This project models the parts of it in which a mistake
would be silent (wrong bytes, not an error message) and proves what they are there for:

- **128-bit integers** (`Digits`, `QuotientDigit`, `LongDivision`, `Normalise`, `DivisionLoop`,
  `Divmod`, `HugeInt`, `HugeProduct`, `HugeMemory`): long division in base 2^32 with its digit arrays
  changed in place, multiplication, shifts, the signed operations on pairs of 64-bit words, and such
  numbers in memory. `Bits` has the arithmetic of shifted numbers that other modules share.
- **Relocatable expressions** (`Expressions`, `Operators`, `Relocation`, `Bases`, `Dependencies`,
  `Simplification`): evaluation, the meaning of the operators, the search for a base symbol, folding
  of constant parts, what the answers are worth after a linker has moved the sections, and on which
  sections they depend.
- **The layout resolver** (`Layout`, `Addresses`, `BitVectors`, `Resolver`, `Assembly`, `Worklist`): passes over
  the atoms of a section until nothing changes, with a fast and a safe phase, and the list of
  sections that have to be looked at again. The size function of the cpu is a parameter.
- **The built-in linker** (`Bitfields`, `Joining`): ascending addresses, moved labels, patched
  relocation fields.
- **Instruction selection** (`Cpu6502`, `Cpu6809`, `Indexed6809`): forms of branches, addresses and
  indexed operands that depend on distances.
- **Encoders and their readers** (`Dwarf`, `IntelHex`, `O65`, `Hunk`, `Vobj`; `Sequences` has facts
  that they share): line programs, hexadecimal records, relocation lists, variable-length numbers.

Structures that the source updates in place are classes and arrays here; each such method is tied to
a function on values, and the properties are proved about that function. A number of 32 bits is an
integer with explicit wrap-around (`Expressions.Wrap`), a 64-bit word an integer modulo 2^64.

Where the code does not do what its comments or its documentation say, the model follows the code,
and the condition under which the promise is kept is proved; it is exact unless said otherwise:

- The add-back step of the division adds two 32-bit digits before it widens the sum
  (`hugeint.c:472`). `Divmod.DivMod` is exact if and only if the operands satisfy
  `Divmod.CarriesKept`, the quotient alone if and only if they satisfy `Divmod.QuotientKept`, and the
  remainder alone if and only if they satisfy `Divmod.RemainderKept`; `Divmod.CarriesDropped` gives
  operands that do not, and `Divmod.SmallDivisorsKept` shows that all divisors below 2^64 do. With the
  sum widened first (the parameter `wide`) the division is always exact.
- `hmul` looks for its last carry in a sum with the wrong product (`hugeint.c:351`):
  `HugeProduct.MulExact` says when it is exact, and `HugeProduct.CarryMissed` has a product by 3 that
  is not.
- `hadd` and `hsub` are exact if and only if the right operand is not negative or its low word is 0;
  `hcmp` goes wrong with them (`HugeInt.CompareOrder`); `hmod` belongs to `hdiv` if and only if the
  divisor is positive or divides the dividend.
- The rearrangement of `c - s1 - s2` by `simplify_expr` (`expr.c:712-721`) changes the sign of `s2`;
  `Simplification.RearrangedValue` has the condition under which the value stays.
- `eval_expr` (`expr.c:1067-1091`) is sound for all trees whose differences are safe
  (`Relocation.SafeDifference`). For a single difference with a base on its left side, this guard is
  exact up to one coincidence (`Relocation.BasedDifferenceExact`); without a base there, the result is
  called constant whatever the left side is (`Relocation.UnbasedDifferenceExact`). Three cases that
  are not safe: a label less a label of a relocated org block in the same section, which is absolute
  (`symbol.c:407`, `vasm.c:1161`; `Relocation.RelocatedBlockUnsound`); something without a base less an
  absolute label (`Relocation.AbsoluteRightSideUnsound`); and a difference to the current section when
  that is unallocated (`Relocation.UnallocatedSectionUnsound`).
- For the same reason `add_dep` can miss a section: twice a label less an absolute label is called
  constant and follows the label, but only the section of the absolute one is recorded
  (`Dependencies.DependencyMissed`). In all other trees what is recorded is enough
  (`Dependencies.RecordedDependencies`); such trees only are covered by the theorem about the list of
  sections (`Dependencies.ReadersRecord`, `Worklist.Resolve`).
- `join_sections` does not count alignment gaps between atoms (`vasm.c:878-879`): sections stay apart
  if and only if the padding inside each of them is no more than that in front of the next one
  (`Joining.SectionsApart`); `Joining.GapNotCounted` has two that overlap.
- The relocations of branches do not state a sign (`cpus/6502/cpu.c:876`, `cpus/6809/cpu.c:1148`), so
  linking accepts distances up to 2^n - 1 for n bits, which the processor takes for negative ones;
  `Joining.BranchLinked` says exactly which branches reach their targets.
- The Intel HEX writer observes the alignment limit of a space only when the space is empty, the
  resolver always: `IntelHex.PaddingAgrees` says exactly when both agree.
- -1 is the one number that a VOBJ file does not store in the fewest bytes: `Vobj.MinusOne`.
- The optimisation of `jmp` to `bra` in the 6502 backend is never reached for absolute operands
  (`Cpu6502.JumpStays`), and the inverted form of the HuC6280's `bsr` is no branch
  (`Cpu6502.SubroutineBranch`).
- In the 6809 backend the conversion of a branch can hit a row of the table that belongs to another
  processor; `Cpu6809.SameOperation` lists exactly when the operation stays the same.
- A constant offset from the program counter is treated there like a distance when its width is
  chosen, so -129 on the 6809 and -17, -18 and -257 on the HC12 do not fit the width they get
  (`Indexed6809.OffsetKept`).

`dafny verify dfyconfig.toml` checks everything.

## Model

| member | source | states |
|---|---|---|
| QuotientDigit.EstimateOffByOne | hugeint.c:443-461 | for a running remainder below divisor times base, the estimated digit is the true one or one more; it is one more exactly when subtracting it underflows, and then by less than the weight of the divisor's second digit |
| QuotientDigit.CarrylessLoses | hugeint.c:471-475 | an addition of digits that drops every carry ends at or below the true sum without its top carry |
| LongDivision.WrapBorrow | hugeint.c:462-469 | the low half of a wrapped 64-bit difference and the borrow computed from its high half give back the exact difference; the high half is zero exactly when the difference is not negative |
| LongDivision.CorrectedIsEstimate | hugeint.c:447-461 | the correction loop, entered at its test or at its middle, ends with the quotient of three dividend digits by two divisor digits, capped to one digit |
| LongDivision.EstimateDigit | hugeint.c:443-461 | the in-place correction loop returns that capped quotient |
| LongDivision.SubDigit | hugeint.c:463-465 | the digit stored and the borrow handed on represent the exact difference |
| LongDivision.MulSub | hugeint.c:462-469 | the window becomes its value minus digit times divisor, plus a carry of weight n + 1 digits exactly when that is negative; a borrow is reported exactly then; all other digits stay |
| LongDivision.AddBackDigits | hugeint.c:471-475 | with widened sums the digits and the carry are the exact sum; as written they are the sum without any carry |
| LongDivision.AddBack | hugeint.c:470-476 | the window with the divisor added back, in both forms; as written the top digit stays |
| LongDivision.WideRest | hugeint.c:470-476 | after an add-back with carries the window holds the exact remainder |
| LongDivision.NarrowRest | hugeint.c:470-476 | after one without carries it holds the remainder or less |
| LongDivision.DivideStep | hugeint.c:437-478 | a round of the loop always returns the true quotient digit; the rest is exact unless the add-back without widened sums was entered |
| Normalise.HiLo | hugeint.c:361-366 | the bits joined by a shift loop do not overlap |
| Normalise.ShiftDigits | hugeint.c:357-367 | the digits become their value times 2^sh, apart from the bits that leave the first one; other digits stay |
| Normalise.Denormalise | hugeint.c:481-488 | the digits become those of the value divided by 2^d, with the bits of the digit above moving in |
| DivisionLoop.RoundStep | hugeint.c:437-479 | from one round to the next, quotient digits so far times divisor plus rest plus what has been lost is the dividend so far |
| DivisionLoop.SteppedRound | hugeint.c:437-479 | a round keeps a run right exactly when its add-back is not entered or the carries that it drops are worth nothing |
| DivisionLoop.DivideDigits | hugeint.c:437-479 | the loop over all rounds, for all numbers of digits: right at the end if and only if no round did harm; always right with widened sums |
| Divmod.ShortDivide | hugeint.c:400-421 | division by a divisor of one digit is exact without any condition |
| Divmod.RunExact | hugeint.c:423-496 | through normalising and denormalising, quotient and remainder are exact if and only if nothing was lost in the rounds |
| Divmod.LongDivide | hugeint.c:423-496 | the long division of operands without leading zero digits, in both forms |
| Divmod.DivMod | hugeint.c:369-496 | a == q * b + r and r < b for every a and every b > 0 with widened sums; as written, if and only if the operands keep their carries, with conditions of their own for the quotient and for the remainder |
| Divmod.SmallDivisorsKept | hugeint.c:437-479 | all operands with a divisor below 2^64 keep their carries |
| Divmod.CarriesDropped | hugeint.c:472-472 | concrete operands that do not |
| HugeInt.Hneg | hugeint.c:147-155 | negation modulo 2^128 |
| HugeInt.AddExact | hugeint.c:220-230 | the sum is exact modulo 2^128 if and only if the right operand is not negative or its low word is 0 |
| HugeInt.SubExact | hugeint.c:233-243 | the same for the difference |
| HugeInt.CompareEqual | hugeint.c:246-253 | for which operands the comparison says "equal", in all cases |
| HugeInt.CompareOrder | hugeint.c:246-253 | for all operands, the comparison tells their order if and only if the difference fits 128 bits; with a negative right operand with low bits, if and only if the difference lies in one of three ranges that allow for the 2^64 by which the subtraction is off |
| HugeInt.Hdiv | hugeint.c:499-514 | the quotient rounded towards zero, modulo 2^128, if and only if (as written) what the dropped carries are worth at the end is at most the true remainder |
| HugeInt.Hmod | hugeint.c:517-532 | the magnitude of the remainder with the sign of the quotient, if and only if (as written) what the dropped carries are worth is a multiple of the divisor and no digit is left over |
| HugeInt.DivisionIdentity | hugeint.c:499-532 | x == q * y + r for these two if and only if y > 0 or y divides x |
| HugeProduct.MulExact | hugeint.c:337-354 | the product is exact modulo 2^128 if and only if the carry that is looked for is the one that there is |
| HugeProduct.SmallFactorsExact | hugeint.c:337-354 | it is for factors whose low words have 32 bits |
| HugeProduct.CarryMissed | hugeint.c:337-354 | factors for which it is not |
| HugeMemory.LeftExact | hugeint.c:296-313 | a shift to the left is multiplication by 2^k modulo 2^128, for all distances below 128 |
| HugeMemory.RightExact | hugeint.c:276-293 | a shift to the right is division by 2^k |
| HugeMemory.ArithmeticExact | hugeint.c:256-273 | and for signed numbers division by 2^k rounded down |
| HugeMemory.OrJoins | hugeint.c:256-313 | the parts that are or-ed together share no bit: or-ing is adding |
| HugeMemory.FromMemory | hugeint.c:68-97 | the loop reads the signed number that the bytes stand for, in either byte order |
| HugeMemory.ToMemory | hugeint.c:100-122 | the loop stores the low bytes of the number in either byte order, and no other byte changes |
| HugeMemory.MemoryBack | hugeint.c:68-122 | a number is read back as it was written if and only if it is in the signed range of so many bytes |
| HugeMemory.RangeMeans | hugeint.c:126-144 | the range check accepts exactly the numbers from -2^(n-1) to 2^n - 1 |
| Expressions.WrapIsMod | expr.c:1050-1218 | the arithmetic of a `taddr` is reduction to the signed 32-bit range |
| Operators.OperatorMeans | expr.c:1054-1178 | every binary operator yields its meaning, stated without its computation: sums, differences and products modulo 2^32, quotient and rest with `l == q * r + m`, the absolute rest below that of r and with the sign of l, and, or and xor bit by bit, shifts as multiplication and as division rounded down, comparisons by the sign of the exact difference |
| Operators.MeaningOnce | expr.c:1054-1178 | and that meaning leaves no choice |
| Operators.UnaryOperatorMeans | expr.c:1120-1136 | the same for negation, complement and logical not |
| Operators.NodeMeans | expr.c:1054-1178 | so the value of a node is the meaning of its operator for the values of its operands; a pc-relative difference exceeds it by its offset |
| Operators.UnaryNodeMeans | expr.c:1120-1136 | likewise |
| Operators.EvalInRange | expr.c:1050-1218 | every value is a number of 32 bits |
| Operators.ExactReduced | expr.c:1050-1218 | for sums, differences, products, negations and complements of numbers and symbols, reducing every intermediate value is reducing the exact one |
| Relocation.ConstantsStay | expr.c:1050-1218 | in every context, a value of safe differences that is reported as constant is the same under every placement of sections, imports and weak labels |
| Relocation.BaseRelocates | expr.c:1451-1500 | with a plain base, the linked value is the value plus the displacement of the base |
| Relocation.PcRelativeRelocates | expr.c:1067-1095 | with a pc-relative base, base address plus value minus linked program counter is the linked difference |
| Relocation.Soundness | expr.c:1050-1218 | all claims together, by induction over all trees whose differences are safe, with absolute and weak labels, equates, and any current section; and a value with a plain base is constant exactly if the base cannot move |
| Relocation.BasedDifferenceExact | expr.c:1067-1091 | a difference whose left side has a base is right for all placements if and only if it is safe, or is made relative to a program counter that is the origin of the base |
| Relocation.UnbasedDifferenceExact | expr.c:1088-1091 | an unsafe difference whose left side has no base is called constant, and is right exactly for the placements that leave the left side as it is |
| Relocation.RelocatedBlockUnsound | expr.c:1069-1073 | a label less a label of a relocated org block in the same section: called constant, and it moves |
| Relocation.AbsoluteRightSideUnsound | expr.c:1088-1091 | a difference without a base on its left side that is called constant and is not |
| Relocation.UnallocatedSectionUnsound | expr.c:1067-1095 | a difference in an unallocated section whose base is wrong |
| Bases.PlainBase | expr.c:1458-1482 | a plain base is found if and only if the expression, with its equates written out, is built from that symbol by adding and subtracting constants |
| Bases.RelativeBase | expr.c:1477-1488 | a pc-relative one if and only if it is a difference of two of these, the right one not constant and in the current section |
| Bases.AnyBase | expr.c:1451-1490 | there is no base if and only if neither holds for any symbol |
| Bases.NumbersAround | expr.c:1458-1482 | any symbol with numbers around it is its base, and the value is its address and their sum |
| Bases.FixedSymbol | expr.c:1182-1187 | which symbols are constant: absolute labels, labels of unallocated sections, and the current address in an absolute or unallocated section |
| Bases.FixedConstant | expr.c:1050-1218 | expressions of numbers and such symbols are constant, and without differences no others |
| Bases.DistanceConstant | expr.c:1069-1073 | the distance of two places in one section is constant |
| Dependencies.ShapeStays | expr.c:1050-1218 | for all trees and contexts, constness, base and recorded dependencies never depend on label addresses |
| Dependencies.RecordedDependencies | expr.c:1033-1044 | a constant, or a value with a plain or pc-relative base, is the same wherever the labels agree in the own section, the recorded ones and that of the base; for all trees in which an absolute label is only subtracted from something constant or with a plain base |
| Dependencies.UntracedDifference | expr.c:1088-1091 | elsewhere the result is a constant that follows the left side |
| Dependencies.DependencyMissed | expr.c:1088-1091 | a constant with one recorded section that changes with a label of another |
| Dependencies.ReadersRecord | expr.c:1033-1044 | a size function that reads constness, bases, and values that are constant or based in the own section, of such trees, depends on no section that is not recorded, inside and outside relocated org blocks: what the list of sections relies on |
| Simplification.SimplifyKeeps | expr.c:700-1031 | for every tree without a node that the code rearranges, simplifying changes neither value, constness, dependencies nor base; including wrap-around, division by 0 and the smallest number divided by -1 |
| Simplification.ShapeKept | expr.c:700-1031 | a simplified tree without such nodes has none either, and its root keeps its shape |
| Simplification.AllFolded | expr.c:722-1031 | a simplified tree has no operator over numbers only |
| Simplification.RearrangedValue | expr.c:712-721 | for every node that is rearranged, in every context: the value is kept if and only if twice the value of s2 is what the pc-relative parts of the four subtractions differ by, modulo 2^32 |
| Simplification.RearrangedConstness | expr.c:712-721 | what it is for: x - s1 - s2 with both symbols in one section is never constant, and rearranged it is as constant as x |
| Simplification.Node.Rearrange | expr.c:712-721 | relinking four pointers turns the tree into the rearranged one, with the same nodes and no sharing |
| Simplification.Node.SimplifyOperands | expr.c:700-711 | both operands are simplified in place, the node itself stays |
| Simplification.Node.Simplify | expr.c:700-1031 | the tree in place becomes the simplified expression, and no node is shared |
| Layout.BeforeDepends | vasm.c:286-351 | the address of an atom depends on the sizes of earlier atoms only |
| Layout.PaddingAligns | supp.c:671-675 | padding leads to the next multiple, or for negative addresses to the one behind it |
| Addresses.AtomAddress | vasm.c:286-355 | the address of an atom in closed form: outside of relocated org blocks the origin and all sizes and paddings before it, whatever blocks lie between; inside of one the address of the block and what lies between |
| Addresses.LabelAddress | vasm.c:307-319 | so this is where a resolved label lies |
| Addresses.SectionEnd | vasm.c:352-355 | a section ends behind all its bytes, even if its last block is left open |
| Layout.VisitSteps | vasm.c:286-351 | what one atom's visit does to sizes, labels, counters and flags |
| Layout.FinishedPass | vasm.c:274-359 | a pass that reports no change has changed nothing and leaves a consistent layout, in either phase |
| Layout.PassLays | vasm.c:296-319 | after any pass every label lies where the stored sizes put it, through relocated org blocks |
| Layout.UnfinishedResizes | vasm.c:274-359 | so any later pass that is not the last changes a size |
| Layout.OneInstruction | vasm.c:322-326 | a safe pass changes the size of at most one instruction |
| Layout.ChangesCounted | vasm.c:338-349 | the change counter of an atom counts its size changes in safe mode and no others |
| Layout.GrewMeans | vasm.c:346-358 | the extra-pass flag reports exactly that some atom has become larger |
| Layout.PassMovesOwn | vasm.c:307-319 | a pass moves no label of another section |
| BitVectors.WithBit | vasm.h:84-90 | setting or clearing a bit adds a number to the set or removes it, and touches no other |
| BitVectors.ClearBit | vasm.h:88-89 | the same in place |
| BitVectors.Union | vasm.c:363-368 | or-ing words is the union of the sets |
| BitVectors.Unite | vasm.c:363-368 | the same in place |
| BitVectors.Full | vasm.c:378-379 | all section numbers are in the initial list |
| BitVectors.Empty | expr.c:1033-1044 | no number is in a new vector |
| Resolver.SafeModeStarts | vasm.c:268-358 | a pass is in safe mode exactly when atoms have grown in 200 fast passes before it |
| Resolver.SafeModeStays | vasm.c:268-358 | safe mode never ends |
| Resolver.ChangesAccount | vasm.c:338-349 | over a whole run, the change counter is the number of safe passes in which the atom changed its size |
| Resolver.SafePassChangesOne | vasm.c:322-326 | in no safe pass of a run two instructions change their sizes |
| Resolver.EachPassShrinks | vasm.c:274-359 | while no atom grows, the sum of sizes falls with every pass from the second on |
| Resolver.ShrinkingEnds | vasm.c:274-359 | so there are at most as many unfinished passes as the initial sum of sizes, and one more |
| Resolver.RunEndsConsistent | vasm.c:266-361 | a run that ends because nothing changed ends in a consistent layout, whatever phase it was in, and a run of one pass has moved no label |
| Assembly.Shared.AddDep | expr.c:1033-1044 | the dependent is added to the set of the section read, no other set changes, and a section does not depend on itself |
| Assembly.Section.ReachAtom | vasm.c:287-319 | alignment, relocated org blocks and labels, in place, as one step of the layout |
| Assembly.Section.SizeAtom | vasm.c:327-349 | sizing in place, with counters, flags and recorded dependencies |
| Assembly.Section.VisitAtom | vasm.c:286-351 | the loop body is one visit of the layout |
| Assembly.Section.OnePass | vasm.c:285-355 | a pass in place is a pass of the layout |
| Assembly.Section.Resolve | vasm.c:266-361 | without an error the section is left consistent, with all sections it read recorded, after a run whose number of passes is returned; labels of other sections stay; the passes end when nothing changes, when there are errors, or when the limit is reached, which is exactly one more error |
| Assembly.Section.Assemble | vasm.c:398-549 | the address walk meets every atom at its resolved address if the backend writes as many bytes as it sized |
| Worklist.SettledStays | vasm.c:363-396 | a settled section stays settled when a section moves its labels that it is not a dependent of |
| Worklist.Step | vasm.c:385-394 | after one section is resolved, every section not on the list is settled |
| Worklist.Round | vasm.c:382-395 | the same for a round; a round is quiet if and only if it begins with an empty list, which it leaves |
| Worklist.Resolve | vasm.c:370-396 | when it comes to an end without an error, all sections are consistent at the same time; it ends with the first round that begins with an empty list, and otherwise uses up its rounds |
| Bitfields.InsertIsPut | supp.c:271-284 | masking out the old bits and or-ing in the new ones replaces exactly the bits of the field |
| Bitfields.PutBits | supp.c:271-284 | each bit of the result, inside and outside the field |
| Bitfields.NumberOfBytes | supp.c:197-222 | n bytes give back a number that fits, and the two's complement of a negative one |
| Bitfields.ReadVal | supp.c:170-194 | the number that the bytes stand for, in either byte order |
| Bitfields.SetVal | supp.c:197-222 | the bytes of the number are stored in either byte order, all other bytes stay |
| Bitfields.FieldWritten | supp.c:271-284 | in memory, the field takes the low bits of the number and every other bit stays, in either byte order |
| Bitfields.SetBits | supp.c:271-284 | the same in place |
| Bitfields.ReadBits | supp.c:256-268 | reading a field gives back the low bits of what it holds |
| Bitfields.HoldsStill | supp.c:271-284 | writing a field does not disturb another one that shares no bit with it |
| Joining.OverflowIsRange | reloc.c:209-226 | a relocation is reported as overflowing exactly when the value is outside the range of the field, for signed, unsigned and unspecified fields |
| Joining.PatchIsLinked | vasm.c:901-923 | what is written for a relocation is the linked value of the expression it was made for, absolute or as a difference to the current section, or, for a branch, the distance to it from the place that the processor counts from |
| Joining.PatchAtom | reloc.c:229-253 | all relocations of an atom, executed in place, in order, with the errors counted |
| Joining.PatchedFields | reloc.c:229-253 | with disjoint fields and no errors, every field holds its own value at the end |
| Joining.PatchedElsewhere | reloc.c:229-253 | every bit outside all fields is as it was |
| Joining.PieceMoves | vasm.c:894-929 | without alignment, all atoms move with their section |
| Joining.PatchPieces | vasm.c:894-929 | the walk over a section patches each atom for the address it has there |
| Joining.LinkedField | vasm.c:868-930 | after linking an atom without errors a field holds that number, cut to its size, and the number does not overflow the field |
| Joining.OtherBitsStay | vasm.c:868-930 | all other bits are untouched, errors or not |
| Joining.OriginsApart | vasm.c:874-882 | up to the end of the address space, origins are aligned modulo 2^32, and as far apart as the sizes without inner padding need |
| Joining.FirstOrigin | vasm.c:874-877 | the first section that gets a place lies at the aligned start address |
| Joining.WalkEnds | vasm.c:894-926 | the walk over a section ends at its origin plus the bytes of its atoms plus the padding inside |
| Joining.SectionsApart | vasm.c:874-882 | with all their padding, no two sections overlap if and only if the padding inside each of them is no more than that in front of the next one |
| Joining.PartsPlaced | vasm.c:874-882 | the same for two neighbours and the origins that have been assigned |
| Joining.GapNotCounted | vasm.c:878-879 | two sections that overlap because an alignment gap was not counted |
| Joining.AssignOrigins | vasm.c:874-882 | every section gets its place, absolute sections keep theirs |
| Joining.MoveLabels | vasm.c:885-891 | every label that was not absolute has moved by the origin of its section, the others stay |
| Joining.LabelsLinked | vasm.c:885-891 | so the address of every label in the list is its linked value, absolute or not |
| Joining.JoinSections | vasm.c:868-930 | the three phases together: places, labels, executed relocations in all sections that were not absolute before, errors or not, and the exact number of errors |
| Joining.AllFaultless | vasm.c:894-923 | there is none if and only if no relocation is unsupported, against an import or weak label, or without room for its value |
| Joining.LinksCleanly | vasm.c:868-930 | so a program whose relocations were made for its expressions is linked without an error if and only if all numbers that belong into the fields are in their ranges |
| Joining.FieldsLinked | vasm.c:868-930 | what follows for the image of the whole program: every field holds the linked value of the expression that its relocation was made for, or the distance to it |
| Joining.BranchLinked | vasm.c:903-910 | so the signed number in the field of a branch leads to its linked target, if and only if the distance is in the signed range of the field |
| Joining.RestUntouched | vasm.c:868-930 | and every bit outside all fields, and every section that was absolute, is as it was, errors or not |
| Dwarf.AddUleb | atom.c:555-566 | the loop writes the unsigned LEB128 bytes |
| Dwarf.AddSleb | atom.c:569-583 | the loop writes the signed LEB128 bytes |
| Dwarf.UlebBack | atom.c:555-566 | reading them (section 7.6 of the DWARF 3 standard) gives the number back and stops behind it |
| Dwarf.SlebBack | atom.c:569-583 | the same for signed numbers |
| Dwarf.SpecialAdvances | dwarf.c:498-500 | a special opcode encodes the advance of address and line that it was computed from |
| Dwarf.DecodeEncode | dwarf.c:320-521 | decoding the bytes of a line program gives its opcodes back |
| Dwarf.LineProgram.End | dwarf.c:349-379 | the end of a sequence appends an end row at the section's end, if a sequence was begun |
| Dwarf.LineProgram.Approach | dwarf.c:476-488 | a large address advance is reduced to one that a special opcode can have, and none is lost |
| Dwarf.LineProgram.PutRow | dwarf.c:498-515 | one row with the advances left; the internal error at line 507 cannot be reached |
| Dwarf.LineProgram.Line | dwarf.c:382-521 | a call appends exactly the row (address, file, line), as the first row of a sequence or a further one |
| Dwarf.WriteProgram | dwarf.c:320-521 | for every legal run of calls, the state machine of section 6.2.5 of the DWARF 3 standard reads exactly the rows that the run means |
| IntelHex.SealedSum | output_ihex.c:95-103 | with the checksum, the bytes of a record add up to 0 modulo 256 |
| IntelHex.LoadData | output_ihex.c:67-108 | loading a data record puts its bytes at base plus start |
| IntelHex.LoadLinear | output_ihex.c:45-65 | loading an extended address record sets the base |
| IntelHex.Writer.Flush | output_ihex.c:67-108 | the buffer becomes a record, with a new base first if needed, and a reader then has all bytes put in so far |
| IntelHex.Writer.Put | output_ihex.c:110-118 | a byte is added at the current address, flushed or still in the buffer |
| IntelHex.Writer.Pad | output_ihex.c:133-174 | padding of the given length, zeros first, then whole patterns |
| IntelHex.Writer.PutAtom | output_ihex.c:197-210 | an atom with its padding |
| IntelHex.Writer.PutSection | output_ihex.c:194-213 | the bytes of a section from its origin on, and an empty buffer at the end |
| IntelHex.WriteOutput | output_ihex.c:176-217 | replaying the records rebuilds exactly the bytes of all sections at their addresses, across flushes, sections and extended addresses |
| IntelHex.AtomPlaced | output_ihex.c:133-174 | the content of an atom lies behind its padding |
| IntelHex.PaddingFilled | output_ihex.c:133-174 | each byte of the padding: zeros until whole patterns are left, then the pattern over and over; an empty space brings its own pattern |
| IntelHex.RepeatedAt | output_ihex.c:205-210 | each byte of a filled space |
| IntelHex.PaddingAgrees | output_ihex.c:133-174 | at every address, the padding is that of the resolver unless a space that is not empty has a limit that it exceeds |
| IntelHex.TextBack | output_ihex.c:67-108 | the hexadecimal digits of a record give its bytes back |
| O65.RelocList.Add | output_o65.c:313-337 | an entry is inserted at its place; a sorted list stays sorted, and no entry is lost |
| O65.InsertedSorted | output_o65.c:329-336 | insertion keeps the list sorted |
| O65.InsertedStable | output_o65.c:329-336 | entries with one offset stay in the order of insertion |
| O65.DeltaBytes | output_o65.c:464-469 | no byte of a delta is 0, and exactly the last one is not the escape |
| O65.WriteRelocs | output_o65.c:453-488 | the loop writes the table that the reader below reads |
| O65.TableBack | output_o65.c:453-488 | reading a table of strictly rising offsets gives the list back and stops behind the table: of the addend the low byte for a high byte unless the file is aligned to pages, the low word for a segment byte, and nothing otherwise |
| Hunk.PickSplits | output_hunk.c:588-601 | moving a group out of the list splits it: nothing is lost or doubled |
| Hunk.GroupOrder | output_hunk.c:588-601 | a group is written in the order of the list that the call was given, whatever the call took out before |
| Hunk.WrittenSplits | output_hunk.c:577-656 | one call writes and leaves exactly the relocations it was given |
| Hunk.BlockBack | output_hunk.c:577-656 | reading a block gives the relocations written and stops behind it |
| Hunk.Conserved | output_hunk.c:1092-1097 | over all calls, written and left-over relocations are the input multiset |
| Hunk.LeftIsKept | output_hunk.c:1092-1097 | after any run of calls, the list holds what none of them takes, in its original order |
| Hunk.RunOrder | output_hunk.c:577-656 | in any call of a run, the group of a section is what is wanted for it and not taken by an earlier call, in the order of the original list |
| Hunk.AllWrittenIsGroups | output_hunk.c:1092-1097 | all that a run writes is the sequence of these groups |
| Hunk.AllBack | output_hunk.c:1092-1097 | reading all blocks gives all that was written |
| Hunk.ShortBlockAligned | output_hunk.c:647-655 | a short block has a length that is a multiple of four |
| Hunk.Writer.MoveGroup | output_hunk.c:588-601 | the group is moved from one list to the other, both in order |
| Hunk.Writer.WriteChunks | output_hunk.c:613-644 | a group is written in chunks of at most 65535 short or, in executables, 65536 long entries |
| Hunk.Writer.RelocHunk | output_hunk.c:577-656 | one call appends the bytes of a block, or nothing, and leaves the rest of the list |
| Hunk.Writer.Section | output_hunk.c:1092-1097 | the calls for a section: a reader gets the groups of all calls, each in the original order; with what is left, also in order, to be reported, they are the input multiset |
| Hunk.LeftOver | output_hunk.c:1092-1097 | what is left to be reported: relocations against no section of the file, and kinds that the file cannot hold, among them relative ones in an executable beyond 64K |
| Hunk.ShortTaken | output_hunk.c:588-590 | in an executable, offsets below 64K go into the short blocks |
| Hunk.ChunkCount | output_hunk.c:613-644 | a group is written in as few chunks as can hold it |
| Vobj.WriteNumber | output_vobj.c:68-98 | the loops that count and shift write the encoding of the format version |
| Vobj.ReadPayload | vobjdump.c:106-133 | the loop that or-s in bytes reads the number, or finds the file corrupt |
| Vobj.RoundTrip | output_vobj.c:68-98 | reading consumes exactly what was written; it gives a signed number in the address range back in every version, and the number modulo 2^bits in any case |
| Vobj.FewestBytes | output_vobj.c:68-98 | from version 2 on no shorter payload reads as the same number, except for 0..127 and -1 |
| Vobj.MinusOne | output_vobj.c:68-98 | -1 takes two bytes, although one byte without payload reads as -1 |
| Cpu6502.EmittedSize | cpus/6502/cpu.c:592-606 | an optimized instruction is written in as many bytes as predicted, with operands in either order |
| Cpu6502.Instruction.Optimize | cpus/6502/cpu.c:517-589 | the loop rewrites modes and opcode row as the selection function says |
| Cpu6502.Instruction.Size | cpus/6502/cpu.c:609-616 | the size is that of the optimized copy |
| Cpu6502.WriteInstruction | cpus/6502/cpu.c:677-1027 | the buffer is filled exactly, and every range error is counted |
| Cpu6502.EvalInstruction | cpus/6502/cpu.c:677-1027 | what is written has the size that `instruction_size` predicted for this place |
| Cpu6502.AbsoluteMeaning | cpus/6502/cpu.c:692-705 | an optimized instruction with an absolute operand is read in its whole length by the opcode that it gets, and its operand is where the source has it: in the direct page, in 16 or in 24 bits |
| Cpu6502.ShortestAddress | cpus/6502/cpu.c:534-561 | without selectors, it takes two bytes if and only if the address can be reached in the direct page, and four if and only if it cannot be reached otherwise |
| Cpu6502.AbsoluteErrors | cpus/6502/cpu.c:619-652 | a value that does not fit the form is an error, unless the processor or a selector cuts it |
| Cpu6502.BasedAddress | cpus/6502/cpu.c:534-561 | an operand with a base takes two bytes if the base is declared to be in the zero page, four if it is declared to be far, and three otherwise |
| Cpu6502.ShortestBranch | cpus/6502/cpu.c:563-575 | a branch stays short if and only if a signed byte reaches its target, or branches are not optimized |
| Cpu6502.FormMissing | cpus/6502/cpu.c:969-973 | an indexed operand that needs an absolute form which the instruction does not have is an error |
| Cpu6502.ImmediateBytes | cpus/6502/cpu.c:930-960 | the bytes of an immediate operand are those of its value that the selector asks for |
| Cpu6502.ImmediateErrors | cpus/6502/cpu.c:620-675 | without a selector, a value that does not fit is an error, with one never |
| Cpu6502.PointerWord | cpus/6502/cpu.c:968-985 | an indirect operand names its pointer by the word behind the opcode |
| Cpu6502.PointerByte | cpus/6502/cpu.c:988-1004 | or by a byte of the direct page |
| Cpu6502.PointerPrefixed | cpus/6502/cpu.c:988-992 | for a pointer of 32 bits with a prefix in front of the opcode |
| Cpu6502.PointerErrors | cpus/6502/cpu.c:619-652 | a pointer that does not fit is an error |
| Cpu6502.WideBranch | cpus/6502/cpu.c:926-928 | a long branch leads to its target |
| Cpu6502.WideBranchErrors | cpus/6502/cpu.c:663-666 | or is an error |
| Cpu6502.MoveMeaning | cpus/6502/cpu.c:712-720 | a block move has the bank of its second operand in front of that of the first |
| Cpu6502.BitNumber | cpus/6502/cpu.c:1012-1014 | a bit number is set in bits 4 to 6 of the opcode |
| Cpu6502.BitNumberErrors | cpus/6502/cpu.c:669-672 | one beyond 7 is an error |
| Cpu6502.PrefixedBytes | cpus/6502/cpu.c:707-711 | an instruction on a register of 32 bits has two prefixes in front of its opcode |
| Cpu6502.BranchMeaning | cpus/6502/cpu.c:563-583 | a conditional branch goes to its target or to the next instruction as its flag says, in the short form and as inverted branch around a jump, or an error is reported |
| Cpu6502.AlwaysMeaning | cpus/6502/cpu.c:563-583 | the same for branches that are always taken, short or as a jump |
| Cpu6502.SubroutineBranch | cpus/6502/cpu.c:563-583 | `bsr` of the HuC6280 is written with its opcode if and only if branches are not optimized or its target is in reach; otherwise with one that is no branch |
| Cpu6502.JumpStays | cpus/6502/cpu.c:534-582 | a jump with an absolute operand stays a jump |
| Cpu6502.ZeroPageMeaning | cpus/6502/cpu.c:534-551 | shortening to a zero page address keeps the address of a constant if and only if the index does not leave the page, and that of an operand with a zero page or near base, once linked, if and only if it is in the direct page |
| Cpu6809.Branch.Convert | cpus/6809/cpu.c:951-1013 | conversion in place keeps address and displacement in step with the new form |
| Cpu6809.Branch.Check | cpus/6809/cpu.c:1015-1044 | which displacements are accepted, and which lead around the address space |
| Cpu6809.Branch.Process | cpus/6809/cpu.c:938-1047 | the displacement is the distance from the end of the form chosen |
| Cpu6809.Branch.Eval | cpus/6809/cpu.c:1066-1160 | opcode and displacement fill exactly the predicted size |
| Cpu6809.ReachesTarget | cpus/6809/cpu.c:938-1047 | whatever form is chosen, displacement and address behind the instruction lead to the target modulo 2^16, or an error is reported |
| Cpu6809.ShortOnlyInReach | cpus/6809/cpu.c:1002-1011 | a branch becomes short only if its new displacement lies in -128..127 |
| Cpu6809.WidthChosen | cpus/6809/cpu.c:951-1013 | exactly which branches become long, all out of reach but brn, and which become short, all near ones, but on the KONAMI-2 only lbsr |
| Cpu6809.RowMeaning | cpus/6809/opcodes.h:493-588 | all six rows of a condition mean that condition on their processors |
| Cpu6809.SameOperation | cpus/6809/cpu.c:951-1013 | the row that is chosen for a branch does the same operation, except exactly when the `bsr` of the HC12 is made long, or the `lbsr` of the 6809 or a branch of the HC12 is made short |
| Indexed6809.Indexed.Process | cpus/6809/cpu.c:789-936 | the form and the value become those that the selection function gives, and reports exactly the values that are not accepted |
| Indexed6809.Indexed.Eval | cpus/6809/cpu.c:1309-1406 | postbyte and offset fill exactly the predicted size |
| Indexed6809.BytesBack09 | cpus/6809/cpu.c:1309-1406 | decoding the bytes as the 6809 does gives register, indirection and the offset cut to its field |
| Indexed6809.BytesBack12 | cpus/6809/cpu.c:1309-1406 | the same for the HC12 |
| Indexed6809.OffsetKept | cpus/6809/cpu.c:789-936 | unless an error is reported, the processor finds the register and indirection of the source, and its offset modulo 2^16 if and only if the operand is not one of a few constants, which get a field that they do not fit |
| Indexed6809.ShortestOffset | cpus/6809/cpu.c:789-936 | without selectors and base symbols the shortest form is chosen, except for a few constants relative to the program counter |

## Left out

- `hmuli`, the logical operations and floating point conversions of 128-bit numbers: single expressions.
- HugeMemory.RangeMeans: 64 bits, where the code shifts by -1 (`hugeint.c:136`), which is undefined; shift distances from 128 on or below 0 likewise.
- Divmod.DivMod: quotient digits are collected in a sequence and stored at the end instead of through a pointer into `qspace`; the parameter `wide` chooses between the code as written and sums widened first.
- Normalise.HiLo: or-ing of digit parts is modelled as addition after a proof that the parts do not overlap; likewise Bitfields.InsertIsPut for and-not and or.
- Expressions.WrapIsMod: `taddr` has 32 bits here; targets with 64-bit addresses differ in the width only.
- 128-bit and floating point leaves, the cpu's own unary operators and base finder (EXT_UNARY_EVAL, EXT_FIND_BASE), and the parser of expressions.
- Relocation.Soundness: equates are part of the tree, so circular definitions, which the code reports, do not occur. The guard is exact for a single difference; a larger tree can be right by accident when a part of it is wrong (0 times an unsafe difference).
- Operators.OperatorMeans: shifts by a negative distance, which are undefined in C and stand for no shift.
- Addresses.AtomAddress: sections in which no relocated org block is opened within another one, which the code reports as an error in every pass.
- Layout.FinishedPass: the size function of the cpu and of the directives is a parameter that may look at the place of the atom, an open block, the warning flag and all label addresses; OPTS atoms are part of it through the number of the atom.
- Linked lists of atoms, sections and relocations are sequences; `lastsize` and `changes` of a section's atoms are two sequences in a class; label addresses are a map.
- Resolver.ShrinkingEnds: bounds the passes while no atom grows; without that the code has only its pass limit.
- Worklist.Resolve: runs for at most a given number of rounds, because the source can run for ever when sections keep moving each other's labels.
- Assembly.Section.Assemble: padding inside relocated org blocks (`alignment_to_space`), listings, warnings and the address overflow check of the walk.
- Joining.FieldsLinked: is about absolute and pc-relative relocations against labels in fields of data atoms that share no bits; the code ignores the mask of a relocation, imports are reported as errors, and other kinds of relocation are unsupported there. A base has to be a label that can move: a current-address base is excluded.
- Joining.SectionsApart: sections that reach the end of the 32-bit address space, or go around it.
- Joining.PieceMoves: requires atoms without alignment, since an atom's padding changes with the origin.
- Dwarf.WriteProgram: the file and include tables, headers, address ranges and the relocations of addresses; `min_inst_len` is positive; a row for a macro or a repetition gets the file and line that the caller found.
- IntelHex.WriteOutput: the 16-bit segment format, whose addresses are shifted wrongly (`output_ihex.c:52`), and the 8-bit format above 64K, where an error is reported; a byte has one octet; overlapping sections are not detected here, the last byte written wins.
- Hunk.Writer.Section: external references, line debugging and symbol hunks; nodes of the two lists are elements of sequences.
- O65.WriteRelocs: offsets rise strictly, as the code demands with an internal error.
- Vobj.RoundTrip: numbers are those of the signed target-address range; symbols, sections and their headers are left out.
- Cpu6502.BranchMeaning: is about a branch as the only operand, with a target that needs no relocation; the opcode table, relocation records and the masks of selectors on relocated operands are parameters or left out.
- Cpu6502.EvalInstruction: a branch around a jump stands first or there is none, as the 6502's instructions have it.
- Indexed6809.Indexed.Process: automatic increment and decrement, the W register, the KONAMI-2, second postbytes and the modes of aggressive optimization; a distance that is left to the linker is decoded only in length.
- Cpu6809.Branch.Process: direct and immediate modes, HC12 MOVE, the decrement branches, and the modes opt-pc and aggressive; the alias mnemonics bhs and blo, which are never converted to long.
- Other output formats, syntax modules, the symbol table, file handling and error texts.
