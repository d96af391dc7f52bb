# asm51 in Dafny

A model of asm51, a small two-pass assembler for the Intel MCS-51 (8051),
and proofs about it. The whole assembler lives in one Python script,
`main.py`. This project models its core:

- the special-function-register tables;
- the operand recognisers of `syntax_match`;
- the symbol-table and image helpers `search_label`, `mark_label`,
  `write_rom` and `check_args`;
- the line normaliser `remove_space_comment`;
- `twos_comp`;
- the two passes `pass_1st` and `pass_2nd`.

The script keeps the image (`ROM`), the location counter (`LOCCTR`) and the
symbol table (`SYMTAB`) in globals. Here they are one immutable record,
`Machine.Assembler`, and every operation is a pure function from a state to
`Result<Assembler>`. A call to `err` or `ins_err` exits the script. A Python
exception (`IndexError` past the image or past the operand list,
`ValueError` from `int()`) stops it too. Both become the `Fail` alternative
of `Failures.Result`, and the first failure in source order wins.

Modules, in dependency order:

| module | what it holds |
|---|---|
| `Failures` | failure kinds, `Option`, `Result`, `Outcome` |
| `Text` | the Python string operations the script uses: `lstrip`, `upper`, `split`, `split(",")`, `replace`, and cutting a `;` comment |
| `Numerals` | `int(s, radix)`, the `"{:0Nb}"` binary format, `int(s, 2)` and bit reversal |
| `Registers` | the `SFRs` and `SFRs_bit` tables |
| `Syntax` | the regular-expression recognisers |
| `Operands` | operand classification on top of the recognisers |
| `Normaliser` | `remove_space_comment` |
| `Machine` | the state record and the helpers that read and write it |
| `FirstPass` | `pass_1st` |
| `SecondPass` | `pass_2nd` |
| `Encodings` | the opcode families of `pass_2nd` read against the MCS-51 opcode map |
| `Jumps` | the jump encoders read arithmetically |
| `Assembly` | `parser` without its output |

The model follows the code as written, quirks included. The image `ROM`
starts as 65536 zero bytes (main.py line 5). `pass_1st` binds every label
before any byte is written, and `pass_2nd` reads the finished symbol table
while it encodes, so there is no fix-up step for forward references: a
label is resolved the moment its instruction is encoded.

Behaviours of the code that the lemmas below pin down:

- `pass_1st` moves the location counter only at `ORG`. Every label is
  therefore bound to the target of the last `ORG` above it, or to 0
  (`FirstPass.LabelAddress`, `Assembly.LabelsAreOrgTargets`).
- Labels keep their case, but operands are upper-cased. A label with a
  lower-case letter can never be named by an instruction
  (`Assembly.LowerCaseLabelsAreUnreachable`).
- The code gives these encodings:
  - `NOP` is `0x01`;
  - `INC DPTR` is rejected, while the spelling `DLOCCTR` is accepted as
    `0xA3`;
  - the second `RET` branch (`0x32`) can never be reached;
  - `RLC` writes its byte before it checks for two operands;
  - `JNB`, `JC` and `JNC` write nothing;
  - an unknown mnemonic is skipped silently.
- Register digits are not range-checked: `@R2` encodes like `R0`, and `R8`
  and `R9` land in columns 0 and 1 of the next opcode row (`ADD A,R8` is
  0x30, the opcode of `JNB`). A bare `R` or `@R` raises `ValueError`.
- A hexadecimal bit address in `JB`/`JBC` always raises `ValueError`,
  because the whole token, `H` included, goes to `int(…, 16)`.
- Relative offsets reach their target only modulo 256. Only a target 1 to
  128 bytes behind the end of the jump gives the byte the MCS-51 reads as a
  jump to it. A target 129 to 255 bytes behind gives a byte the processor
  reads as a forward jump, and one further behind gives a value above 255.
  A target 1 to 255 bytes past the end of the jump gives a negative value,
  and an offset of 0 gives 256.
- `AJMP`/`ACALL`/`LJMP`/`LCALL` write the bits of each address slice in
  reverse order.
- The `SFRs` table gives `IE` the address `0xA2` (which is `P2.2`), while
  its bits are at `0xA8`–`0xAF`.

## Model

| member | source | states |
|---|---|---|
| Registers.Sfr | main.py:146-150 | a name is a register exactly when it is a key of the register table, and its address is in 0x80..0xFF |
| Registers.SfrBit | main.py:139-144 | a bit operand is recognised exactly when it is `REG.d` for a register and a digit in the bit table; its address is in 0x80..0xFF and is the register's address plus `d`, except that `IE.d` is at 0xA8 + `d` (not at `IE`'s table address 0xA2 + `d`) |
| Registers.SfrAddressesAreBytes | main.py:9-32 | every special-function register sits in the upper half of the direct space, 0x80..0xFF |
| Registers.SfrBitAddressesAreBytes | main.py:34-126 | every named bit address is in 0x80..0xFF |
| Registers.BitsFollowRegisters | main.py:9-126 | except for `IE`, bit `REG.d` is at the register's address plus `d` |
| Registers.InterruptEnableMismatch | main.py:16-88 | `IE` is listed at 0xA2, the address of `P2.2`, while its bits are at 0xA8 + d |
| Syntax.LabelDef | main.py:131 | a found label is a run of word characters that the line continues with `:`; when none is found, no `:` in the line is preceded only by word characters |
| Syntax.WordRun | main.py:131-132 | the run of leading word characters is exactly the word-character prefix |
| Syntax.Hex | main.py:133 | `nnnH` is recognised exactly when it is upper-case hex digits then `H`, and yields the digits |
| Syntax.Dec | main.py:134 | recognised exactly when the token is a non-empty run of decimal digits |
| Syntax.ImmHex | main.py:135 | recognised exactly for `#`, hex digits, `H`; yields the digits |
| Syntax.ImmDec | main.py:136 | recognised exactly for `#` followed by decimal digits |
| Operands.Literal | main.py:133-134 | a direct literal exists exactly when the token is a hex or decimal numeral, and its value is `int()` of the digits |
| Operands.Direct | main.py:146-150 | a register name gives its table address first; otherwise a literal gives its value |
| Operands.Immediate | main.py:135-136 | an immediate exists exactly for `#nnH` or `#nnn`, valued by `int()` |
| Operands.RegisterNumber | main.py:392-395 | `int(v[1])` of the optional register digit: its value, or `ValueError` when the digit is missing |
| Operands.Register | main.py:137-138 | `@R…`/`R…` is recognised on the prefix alone; it yields the digit, or `ValueError` when none follows |
| Operands.HexLiteralRoundTrip | main.py:252-253 | printing any number in hex with an `H` suffix reads back as that number |
| Operands.DecLiteralRoundTrip | main.py:254-255 | printing any number in decimal reads back as that number |
| Operands.ImmHexRoundTrip | main.py:402-403 | `#` + hex digits + `H` reads back as the number |
| Operands.ImmDecRoundTrip | main.py:404-405 | `#` + decimal digits reads back as the number |
| Text.LStrip | main.py:208 | the result is a suffix, everything dropped is whitespace, and it does not start with whitespace |
| Text.CutComment | main.py:209 | the result is the prefix before the first `;` (the whole line when there is none) |
| Text.SplitOn | main.py:206 | the pieces hold no separator and joined by it give back the input |
| Text.SplitWordsConcat | main.py:228-229 | the whitespace-split words concatenated are the input with whitespace removed |
| Text.ToUpper | main.py:231-232 | upper-casing keeps the length, moves every lower-case letter 32 code points down to its capital, leaves no lower-case letter and keeps every other character in place |
| Normaliser.NumberNonEmpty | main.py:206-212 | every kept line is non-empty, numbered from 1 by its position in the input, in increasing order |
| Normaliser.Normalise | main.py:204-213 | every line that comes out is non-empty and numbered between 1 and the number of source lines; the exact correspondence with the source lines is stated by the lemmas below |
| Normaliser.NormaliseKeepsLine | main.py:204-213 | source line `i` comes out, as line `i + 1`, exactly when it does not clean to the empty string |
| Normaliser.NormaliseLineAt | main.py:204-213 | each line that comes out is the cleaned source line its number names |
| Normaliser.NormalisedLinesAreClean | main.py:204-213 | every normalised line is numbered ≥ 1, non-empty, starts with a non-space and holds no `;` |
| Normaliser.NormaliseKeepsEveryLine | main.py:204-213 | input line `i` is kept, as line `i + 1`, exactly when its cleaned text is non-empty, and nothing else is kept |
| Machine.Initial | main.py:5-7 | the image has 65536 cells, every one 0, the counter is 0 and the symbol table is empty |
| Machine.Arg | main.py:281-284 | reading operand `i` succeeds exactly when it exists; otherwise `IndexError` |
| Machine.CheckArgs | main.py:195-197 | passes exactly when the operand count is allowed; otherwise an instruction error on that line |
| Machine.WriteRom | main.py:187-192 | the bytes land at the counter in order, the counter moves past them, nothing else changes; writing past the image is `IndexError` |
| Machine.MarkLabel | main.py:181-184 | a new label is bound to the counter with the old bindings kept; a bound one fails with the name |
| Machine.SearchLabel | main.py:174-178 | fails exactly for an unbound label; otherwise at least `width` binary digits whose value is the label's address |
| Machine.TwosComp | main.py:216-217 | the result is `v + 256·(1 + 2·⌊-v/256⌋)`; for `v` in -255..-1 it is the byte `v + 256` |
| Numerals.FormatBinRoundTrip | main.py:174-178 | `int(format(x, "0Nb"), 2)` is `x`, negative `x` included |
| Numerals.FormatBinExact | main.py:177 | a value below `2^w` prints as exactly its `w` low bits |
| Numerals.NumeralDigits | main.py:252-255 | `int()` of the digits of `n` in any radix 2..16 is `n` |
| Numerals.HexSuffixIsNotNumeral | main.py:309-310 | `int()` of a token ending in `H` in radix 16 raises `ValueError` |
| Numerals.ReverseBitsTwice | main.py:264-266 | reversing `n` bits twice gives the low `n` bits back |
| FirstPass.LineOp | main.py:228-232 | an instruction line yields an upper-case, space-free mnemonic and at least one comma-free operand; a line that is all whitespace raises `IndexError` |
| FirstPass.LineOpReadsLine | main.py:228-232 | the mnemonic is the upper-cased first word, and the operands joined by `,` are the upper-cased rest with whitespace removed |
| FirstPass.OperandsAreUpperCase | main.py:229-232 | no operand holds a lower-case letter |
| FirstPass.Org | main.py:234-241 | `ORG` succeeds exactly with one literal operand, and sets the counter to it and nothing else |
| FirstPass.OrgRoundTrip | main.py:234-239 | `ORG` with the hex or decimal spelling of `n` sets the counter to `n` |
| FirstPass.Scan | main.py:223-241 | one line never touches the image and never rebinds a label |
| FirstPass.PassOne | main.py:220-242 | the first pass leaves the image alone and keeps every earlier binding |
| FirstPass.ScanEffect | main.py:224-241 | a label line binds a new label to the counter; any other line appends its operation and moves the counter only for `ORG` |
| FirstPass.PassOneOps | main.py:228-232 | the operation table has one entry per non-label line, in order, each parsed from that line |
| FirstPass.PassOneLocation | main.py:220-242 | the final counter is the last `ORG` target, or the start value when there is none |
| FirstPass.PassOnePrefix | main.py:220-242 | a successful pass succeeds on every prefix, and its bindings survive to the end |
| FirstPass.LabelAddress | main.py:224-226 | each label is unbound before its line and bound to the last `ORG` target above it |
| FirstPass.LabelDefinedTwiceFails | main.py:181-183 | the same label on two lines stops the pass |
| FirstPass.LabelAlreadyBoundFails | main.py:181-183 | a label already in the table stops the pass |
| FirstPass.PassOneLabels | main.py:224-226 | the labels bound at the end are the starting ones plus exactly those the lines define |
| FirstPass.NormalisedLinesParse | main.py:204-232 | every normalised line splits into a mnemonic and operands without error, so the first pass can only fail on `ORG` and labels |
| SecondPass.Rotate | main.py:281-284 | `RR`/`RRC`/`RL A` give their one opcode; any other operand list is an instruction error, except the empty list, which is `IndexError` and which the first pass never produces |
| SecondPass.Source | main.py:386-407 | the operand is tried as `@R<i>` (`base + 2 + i`), then `R<n>` (`base + 4 + n`), then a direct register or literal `d` (`base + 1, d`), then, where allowed, `#v` (`base, v`); a register without its digit is `ValueError` and anything else an instruction error |
| SecondPass.IncDec | main.py:285-302 | exactly one operand; `A` gives the base opcode; `DLOCCTR` gives 0xA3 for `INC` only |
| SecondPass.Accumulator | main.py:386-407 | success needs `A` first and encodes the second operand as a source; another first operand is an instruction error |
| SecondPass.Logical | main.py:440-488 | `A,src` as for `ADD`; `dir,A` gives `base-2, dir`; `dir,#imm` gives `base-1, dir, imm`; everything else fails |
| SecondPass.PageJump | main.py:260-269 | succeeds exactly for one bound word operand and writes two bytes; an unbound word fails with the name |
| SecondPass.LongJump | main.py:270-280 | succeeds exactly for one bound word operand, writing the opcode and two bytes |
| SecondPass.BitAddress | main.py:307-314 | a bit name gives its table address; a hex literal raises `ValueError`; a decimal is its value; else an instruction error |
| SecondPass.BitJump | main.py:303-320 | succeeds exactly with a valid bit and a bound label, writing opcode, bit and `twos_comp(label - loc - 3)`; a wrong operand count or a non-word label is an instruction error, a bad bit fails as the bit operand does, and an unbound label is `LabelNotFound` |
| SecondPass.Encode | main.py:258-542 | no instruction is longer than three bytes |
| SecondPass.Step | main.py:247-542 | `ORG` only moves the counter; any other entry writes at most three bytes between the old and new counter and nothing else |
| SecondPass.PassTwo | main.py:245-248 | the second pass runs the table from counter 0, and a successful run keeps the image size and the symbol table |
| SecondPass.Run | main.py:245-249 | the run keeps the image size and the symbol table |
| SecondPass.RunAppend | main.py:245-249 | running two lists one after the other is running their concatenation, the first failure winning |
| SecondPass.RunWritesForward | main.py:245-542 | without `ORG`, a run advances the counter by at most 3 per entry and writes only the cells it passes |
| Encodings.SourceReadsOperand | main.py:386-407 | `@Ri`, `Rn`, a register name, an address and an immediate each encode to the MCS-51 column for that mode |
| Encodings.SourceSpellings | main.py:392-407 | `0FFH` and `007` are read by value, `R0X` is read as `R0`, and `FOO` is an instruction error |
| Encodings.AccumulatorForms | main.py:386-407 | `ADD`/`ADDC`/`ORL`/`ANL A,src` is the opcode-map entry of that row and mode |
| Encodings.IncDecForms | main.py:285-302 | `INC`/`DEC` of a register or address is the opcode-map entry; an immediate is an instruction error |
| Encodings.AccumulatorIncDec | main.py:285-288 | `INC A` is 0x04 and `DEC A` is 0x14 |
| Encodings.DataPointerSpelling | main.py:285-290 | `INC DLOCCTR` is 0xA3; `INC DPTR` and `DEC DLOCCTR` are instruction errors |
| Encodings.LogicalDirectForms | main.py:458-486 | `ORL`/`ANL dir,A` and `dir,#imm` give the opcode-map bytes |
| Encodings.RegisterNumberUnchecked | main.py:392-395 | `@Ri` for `i ≥ 2` encodes as `R(i-2)`, and `R8`/`R9` land in columns 0 and 1 of the next opcode row |
| Encodings.RegisterWithoutDigit | main.py:137-138 | `R` or `@R` with no digit raises `ValueError` |
| Encodings.FixedBytes | main.py:258-259 | `NOP` is 0x01 and `RET` (main.py lines 380-381) is 0x22 whatever the operands; the second `RET` branch (lines 410-411) is never reached |
| Encodings.RotateForms | main.py:281-284 | the rotates encode `A` to their opcode and reject every other operand |
| Encodings.BranchesWithoutCode | main.py:408-409 | `JNB`, and likewise `JC` and `JNC` (main.py lines 438-439, 489-490), only check their operand count and write nothing |
| Encodings.UnknownMnemonic | main.py:540-542 | an unknown mnemonic leaves the state unchanged |
| Encodings.RotateCarryForms | main.py:412-416 | `RLC A` alone fails after writing; `RLC A,x` writes 0x33 |
| Encodings.StepWritesEncoding | main.py:247-542 | apart from `ORG` and `RLC`, a step fails as the encoding fails; otherwise it succeeds exactly when the bytes fit, places them at the counter, moves the counter past them and changes no other cell and no label, and is `IndexError` when they do not fit |
| Jumps.PageJumpEncoding | main.py:260-269 | for a label below 2048, the bytes are the reversed low 3 bits above `00001`/`10001`, and the reversed address ÷ 8 |
| Jumps.PageJumpReadBack | main.py:260-269 | both bytes are bytes, the low five bits tell jump from call, and the label address can be read back from them |
| Jumps.LongJumpEncoding | main.py:270-280 | for a label below 65536, the opcode is followed by the reversed low byte and the reversed high byte |
| Jumps.LongJumpReadBack | main.py:270-280 | the label address is read back from the two reversed bytes |
| Jumps.RelativeOffset | main.py:216-217 | the offset reaches the target modulo 256; a target 1 to 255 bytes behind gives a byte that adds up to the target once 256 is taken off; no move gives 256; a target 1 to 255 bytes past the end of the jump gives a negative value |
| Jumps.OffsetAsSignedByte | main.py:216-217 | read as the MCS-51's signed byte, the offset reaches a target 1 to 128 bytes behind; 129 to 255 bytes behind it reads as a forward jump; further behind it is above 255 |
| Jumps.BitJumpReachesLabel | main.py:303-320 | `JB`/`JBC` write opcode, bit and an offset that reaches the label modulo 256 |
| Jumps.BitAddressLiterals | main.py:307-312 | a hex bit literal raises `ValueError`; a decimal bit literal is its value |
| Assembly.Assemble | main.py:545-548 | a successful assembly yields a full 65536-byte image |
| Assembly.AssembledLabels | main.py:545-548 | after success, the bound labels are exactly those the source defines |
| Assembly.DuplicateLabelStops | main.py:181-183 | a label defined twice stops the assembler |
| Assembly.LabelsAreOrgTargets | main.py:220-242 | every label holds the target of the last `ORG` above it, or 0 |
| Assembly.LowerCaseLabelsAreUnreachable | main.py:224-232 | a label with a lower-case letter is never an operand |
| Assembly.BareRotate | main.py:229-232 | a bare `RR` line reaches the second pass with the operand list `[""]`, which the operand check of line 282 rejects as an instruction error, not `IndexError` |
| Assembly.OrgThenNop | main.py:245-259 | `ORG 100H` then `NOP` writes 0x01 at 0x100, leaves every other cell 0 and ends at 0x101 |

## Left out

- `main`, `help`, `print_ROM`, reading the file, the per-instruction trace
  `print(f"I: {ins} {args}")` of `pass_2nd`, and the exit status and
  message text of `err`: these are I/O. A failure is modelled by its kind
  and the line or label it names.
- Character classes are modelled on ASCII. This covers `\w`, `\d`,
  `str.isspace` (including `\x1c`–`\x1f`), `str.split()` and `str.upper()`.
  Unicode letters, digits and spaces, and case mappings beyond `a`–`z`, are
  not modelled.
- Regular-expression `$` also matches before a final newline. After the
  split on `\n` no operand can end in one, so the model ignores this.
- Syntax.OptionalDigit, Syntax.IndirectReg, Syntax.GeneralReg: these only
  compute. Their behaviour is stated through Operands.Register.
- Syntax.IsNormalWord: this only computes: the whole token is ASCII word
  characters, the empty token included. Its behaviour is stated through
  SecondPass.PageJump, SecondPass.LongJump and SecondPass.BitJump.
- Jumps.PageJumpEncoding: assumes a label below 2048. With a larger
  address, `search_label` prints more digits and the slices take other
  bits; SecondPass.PageJump models that case, but no arithmetic reading is
  proved for it.
- Jumps.PageJumpReadBack: assumes a label below 2048, for the same reason.
- Jumps.LongJumpEncoding: assumes a label below 65536. A larger address is
  modelled by SecondPass.LongJump, but no arithmetic reading is proved for
  it.
- Jumps.LongJumpReadBack: assumes a label below 65536, for the same reason.
- SecondPass.Encode: its contract only bounds the length. The byte-level
  behaviour of each family is stated by the Encodings and Jumps lemmas.
  `JBC`, `ACALL` and `LCALL` are covered through their shared encoders.
- Assembly.Assemble: the second pass is stated generally (Step, Run,
  RunWritesForward) and on one concrete program (Assembly.OrgThenNop).
  There is no closed form of the whole image of an arbitrary program.
