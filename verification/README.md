# Mippet lowering core in Dafny

Mippet is a macro-assembler for MIPS. Its source dialect has named procedures
with parameter bindings, pseudo-instructions (`push`, `pop`, `muli`, `modi`,
`mod`, `call`, `syscall <name>`, `ret`) and automatic saving of the
callee-saved registers. Mippet lowers that dialect to plain MIPS assembly.
This project models the lowering core and proves properties of it:

- **The spill engine** (`SpillContext.spill`/`unspill`). It saves register
  tuples below `$sp` and restores them, using `$t9` as scratch. A `depth`
  argument slides the save under the `depth` words of `$sp`-relative
  parameters, so those words keep their offsets. The engine also keeps a LIFO
  list of the groups it spilled. Modules: `Spill` (the code), `SpillLaws`
  (what the code does on a machine).
- **A small register/memory machine** (`Machine`). It gives meaning to
  `addi`, `li`, `lw`, `sw`, `move`, `mul`, `div`, `mfhi` and a bare
  `syscall`. `div` rounds toward zero, as MIPS does; a zero divisor stops the
  machine. Integers are unbounded.
- **The instruction layer** (`Instructions`, `InstructionLaws`). This covers:
  - the closed mnemonic registry, with fallback to a generic instruction;
  - the per-mnemonic operand validators, each with its exact error message;
  - the operands each instruction exposes, and its one-line rendering;
  - the lowering of each pseudo-instruction, with its effect on the machine.
- **Registration** (`Registration`). One walk builds the `Context`: the
  procedure table and the symbol use counts.
- **Procedure, section and data code generation** (`Procedures`). This covers:
  - the documentation block and prologue of a procedure;
  - the `entry` / `call main` / `syscall halt` preamble of a text section;
  - the `.ktext` header of a kernel-text section;
  - the reserved `_return` word of the data section.

  Output is a list of lines (`Ast.Line`): directives, labels, instructions,
  comments and data values.
- **Leaf renderers** of the newer node model (`Render`) and of the older flat
  node model (`LegacyNodes`). Lemmas compare the two.
- **The preprocessor** (`Preprocessor`). It rewrites `syscall <name>` over
  the older node model.

Shared modules: `Wrappers` (`Result`, `Option`, the Python exception kinds as
an `Error` datatype), `Text` (joining, splitting, decimal rendering and
parsing), `Ast` (registers, operands, instructions, statements, sections,
`Context`, output lines), and `Convention` (the eight callee-saved registers
and the spill depth of a parameter list).

Errors the source raises become `Err` values with the same exception kind and
message:

- `ValueError` from a validator, or for an unknown syscall;
- `KeyError` for a call to an unknown procedure;
- `IndexError` for a missing first operand, or for a pop from an empty spill
  list;
- `TypeError` from the preprocessor;
- `ValueError` with Python's tuple-unpacking message (`not enough values to
  unpack (expected 2, got 1)`, `too many values to unpack (expected 3)`) for a
  wrong operand count.

The docstring of `muli` says its destination cannot be `$t9`. The model shows
that a `$t9` destination is harmless (`MultiplyImmediate`). The hazard is a
`$t9` *source*, which the `li $t9, k` overwrites
(`MultiplyImmediateSourceHazard`).

## Model

| member | source | states |
|---|---|---|
| Render.RenderNumberRoundTrip | mippet/nodes/node.py:14-19 | a rendered number is decimal text that parses back to the same number |
| Render.RenderPointerInjective | mippet/nodes/node.py:55-61 | the text `offset(base)` determines the offset and the rendered base |
| Render.RenderLabelLines | mippet/nodes/node.py:64-69 | a label occupies two lines, an empty one then `name:` |
| Render.RenderSectionLines | mippet/nodes/node.py:83-89 | a section is its type line, its body lines, then one empty line |
| Render.ConstructFlat | mippet/nodes/node.py:92-95 | when no list is empty, constructing a nested list newline-joins its leaves in order |
| Render.EmptyGroupIsBlankLine | mippet/nodes/node.py:92-95 | an empty list constructs to `''`, and inside a list it still adds one empty line |
| Convention.SpDepthBounds | mippet/nodes/instruction.py:359 | the spill depth is 0 exactly when no parameter is a `$sp` pointer, and is the parameter count exactly when all are |
| Convention.SpDepthConcat | mippet/nodes/instruction.py:359 | the spill depth of concatenated parameter lists is the sum of their depths |
| Convention.SpDepthExample | mippet/nodes/procedures.py:124-127 | `(a: $a0, b: 4($sp))` has spill depth 1 |
| Convention.ProcedureSpillsWellFormed | mippet/nodes/procedures.py:8 | the callee-saved tuple is eight distinct registers, and contains neither `$sp` nor `$t9` |
| Spill.SpillNothing | mippet/nodes/instruction.py:20-21 | spilling no registers emits nothing and pushes no group |
| Spill.ShallowSpillCode | mippet/nodes/instruction.py:22-30 | at depth 0: `addi $sp,$sp,-4n`, then `sw r_i, 4i($sp)` for i = 1..n; the tuple is pushed as one group |
| Spill.SpillAppends | mippet/nodes/instruction.py:19-47 | the emitted code does not depend on the group list, and a spill only appends to that list |
| Spill.SpillGroupCount | mippet/nodes/instruction.py:22-35 | a spill first pushes its whole tuple; a multi-register spill at positive depth pushes 2n-1 groups, the last being the first register alone |
| Spill.SpillThenUnspillTop | mippet/nodes/instruction.py:49-51 | `unspill()` right after a spill pops the whole tuple at depth 0, but only the first register after a multi-register spill at positive depth |
| Spill.SpillCodeLength | mippet/nodes/instruction.py:19-47 | a spill is n+1 instructions at depth 0 and n(2d+2) at depth d > 0 |
| Spill.SpillCodeSplit | mippet/nodes/instruction.py:31-35 | a multi-register spill at positive depth spills the last register, then the others |
| Spill.SingleSpillCode | mippet/nodes/instruction.py:36-47 | one register at depth d: reserve a word, do d `$t9` word shifts, then store the register at word d+1 |
| Spill.UnspillCode | mippet/nodes/instruction.py:52-57 | `unspill` is `lw r_i, 4i($sp)` for each i, then `addi $sp,$sp,4n` |
| Spill.UnspillAtZero | mippet/nodes/instruction.py:49-57 | the depth-aware restore equals `unspill` at depth 0 |
| SpillLaws.StoresEffect | mippet/nodes/instruction.py:26-29 | executed, the stores put register i in word first+i and change no register |
| SpillLaws.LoadsEffect | mippet/nodes/instruction.py:52-54 | executed, the loads set register i from word first+i; the stack stays as it was |
| SpillLaws.ShiftsEffect | mippet/nodes/instruction.py:39-45 | executed, the d shifts move words 2..d+1 up one slot; only `$t9` changes among the registers |
| SpillLaws.ShallowSpillEffect | mippet/nodes/instruction.py:23-30 | executed at depth 0: `$sp` drops by 4n, the registers fill words 1..n in order, and older words are renumbered |
| SpillLaws.SingleDeepSpillEffect | mippet/nodes/instruction.py:36-47 | executed for one register at depth d: the d parameter words keep their offsets from the new `$sp`, and the register lands at word d+1 |
| SpillLaws.SpilledCompose | mippet/nodes/instruction.py:31-35 | a spill of the last register, then a spill of the rest, has the layout of one spill of them all |
| SpillLaws.SpillEffect | mippet/nodes/instruction.py:19-47 | executed at any depth d: the d parameter words keep their offsets, register i lands at word d+1+i, older words move n slots down, and `$sp` drops by 4n; only `$sp` and `$t9` change among the registers |
| SpillLaws.UnspillEffect | mippet/nodes/instruction.py:49-57 | executed, `unspill` loads register i from word i whatever the spill depth, then releases n words |
| SpillLaws.SpillUnspillRoundTrip | mippet/nodes/instruction.py:19-57 | a depth-0 spill then `unspill` of distinct registers (no `$sp`) restores `$sp`, every register, and every stack word from `4($sp)` up |
| SpillLaws.SpillBodyUnspill | mippet/nodes/instruction.py:19-57 | the same restore holds with any code in between that leaves `$sp` and the n saved words in place |
| SpillLaws.DeepSpillUnspillLoadsParameter | mippet/nodes/instruction.py:36-57 | one register spilled at depth d > 0 and restored by `unspill` gets the first parameter word, not its own value |
| SpillLaws.DeepSpillUnspillLosesRegister | mippet/nodes/instruction.py:36-57 | concretely: `$sp`=1000, `$ra`=7 and word `4($sp)`=5; spilling `$ra` at depth 1 and then unspilling leaves `$ra`=5 |
| SpillLaws.UnspillAtEffect | mippet/nodes/instruction.py:49-57 | the depth-aware restore loads register i from word d+1+i, moves the d parameter words back, and releases n words |
| SpillLaws.SpillUnspillAtRoundTrip | mippet/nodes/instruction.py:19-57 | a spill at any depth followed by the depth-aware restore gives back `$sp`, every register except `$t9`, and every stack word |
| Instructions.ParseRoundTrip | mippet/nodes/instruction.py:92-97 | parsing a well-formed instruction's own mnemonic and operands gives back that instruction |
| Instructions.RoundTripFirst | mippet/nodes/instruction.py:117-162 | the round trip for `j`, `jal`, `jr`, `push` and `call` |
| Instructions.RoundTripOptional | mippet/nodes/instruction.py:256-272 | the round trip for `pop` and `syscall`, with or without their operand |
| Instructions.RoundTripLi | mippet/nodes/instruction.py:165-181 | the round trip for `li` with a number |
| Instructions.RoundTripLw | mippet/nodes/instruction.py:184-200 | the round trip for `lw` with a pointer or label address |
| Instructions.RoundTripStores | mippet/nodes/instruction.py:203-238 | the round trip for `sw` (register written first) and `move` (destination written first) |
| Instructions.RoundTripMathInt | mippet/nodes/instruction.py:275-294 | the round trip for `addi`, `muli` and `modi` |
| Instructions.RoundTripMathReg | mippet/nodes/instruction.py:297-316 | the round trip for `mul`, `mod` and the empty mnemonic |
| Instructions.ParseSound | mippet/nodes/instruction.py:92-97 | anything `parse` accepts is well-formed, carries the mnemonic asked for, and is built from a prefix of the operands; only registered mnemonics can be rejected |
| Instructions.ParseFirstSound | mippet/nodes/instruction.py:117-162 | soundness of the validators that read only the first operand |
| Instructions.ParsePopSound | mippet/nodes/instruction.py:265-272 | soundness of the `pop` validator |
| Instructions.ParseSyscallSound | mippet/nodes/instruction.py:406-413 | soundness of the `syscall` validator |
| Instructions.ParseTwoSound | mippet/nodes/instruction.py:174-238 | soundness of the two-operand validators |
| Instructions.ParseThreeSound | mippet/nodes/instruction.py:285-316 | soundness of the three-operand validators |
| Instructions.ParseMissingOperand | mippet/nodes/instruction.py:126-127 | a first-operand validator given no operands fails with IndexError |
| Instructions.ParseUnpackTwo | mippet/nodes/instruction.py:176 | a two-operand validator given 0, 1 or more than 2 operands fails with the ValueError that Python's two-name unpacking raises, with its exact message |
| Instructions.ParseUnpackThree | mippet/nodes/instruction.py:287 | a three-operand validator given 0, 1, 2 or more than 3 operands fails with the ValueError that Python's three-name unpacking raises, with its exact message |
| Instructions.ParseIgnoresExtra | mippet/nodes/instruction.py:88-90 | validators that read only `arguments[0]` ignore the rest, and `ret` ignores all operands |
| Instructions.ParseRejectsExample | mippet/nodes/instruction.py:179-180 | `li` with a register where the number belongs fails with the message naming the second argument |
| Instructions.RenderInstructionShape | mippet/nodes/instruction.py:85-86 | an instruction line is four spaces, the mnemonic, then a space, so it is never blank when the mnemonic starts with a visible character |
| Instructions.LowerPushPopShapes | mippet/nodes/instruction.py:241-272 | `push r` is a depth-0 spill of r; `pop r` is `unspill((r,))`; a bare `pop` is `addi $sp,$sp,4` |
| Instructions.LowerCallShape | mippet/nodes/instruction.py:357-366 | `call p` is a spill of `$ra` at p's spill depth, then `jal p`, then `unspill` of `$ra` |
| Instructions.LowerSyscallShape | mippet/nodes/instruction.py:385-404 | `syscall name` is: spill `$v0`, `li $v0, id`, `syscall`, `sw $v0, _return`, unspill |
| Instructions.SyscallLinesKept | mippet/nodes/instruction.py:393-404 | the blank-line filter keeps all seven rendered lines of a named syscall |
| Instructions.LowerRetShape | mippet/nodes/procedures.py:138-143 | `ret` is `lw $s_i, 4(i+1)($sp)` for i = 0..7, then `addi $sp,$sp,32`, then `jr $ra` |
| Instructions.LowerFails | mippet/nodes/instruction.py:357-391 | lowering fails exactly on a call to an unknown procedure (KeyError) and on an unknown syscall name (ValueError) |
| Instructions.SpillNative | mippet/nodes/instruction.py:19-47 | spill code at any depth contains only machine instructions |
| Instructions.LowerNative | mippet/nodes/instruction.py:241-404 | every successful lowering contains only machine instructions, and a machine instruction lowers to itself |
| Instructions.LowerIdempotent | mippet/nodes/instruction.py:241-404 | lowering already-lowered code changes nothing |
| InstructionLaws.PushPop | mippet/nodes/instruction.py:241-272 | executing `push a; pop b` copies a's value into b and restores `$sp` and the stack |
| InstructionLaws.PopDiscards | mippet/nodes/instruction.py:260-262 | a bare `pop` raises `$sp` by 4 and changes no other register |
| InstructionLaws.MultiplyImmediate | mippet/nodes/instruction.py:322-330 | when S is not `$t9`, `muli D, S, k` leaves S*k in D, even when D is `$t9`; only D and `$t9` change |
| InstructionLaws.MultiplyImmediateSourceHazard | mippet/nodes/instruction.py:322-330 | the lowering of `muli D, $t9, k`, executed, leaves k*k in D; with `$t9`=5 and k=3 that is 9, not 15 |
| InstructionLaws.ModuloRegister | mippet/nodes/instruction.py:345-350 | `mod D, S, V` leaves the truncating remainder of S by V in D, and stops the machine on a zero divisor |
| InstructionLaws.ModuloExample | mippet/nodes/instruction.py:345-350 | for the values 7 and 3 the remainder is 1; for -7 and 3 it is -1 |
| InstructionLaws.ModuloImmediate | mippet/nodes/instruction.py:337-342 | for every immediate k: `modi D, S, k` lowers to `li $t9, k` and `mod D, S, $t9`; with k = 0 the unguarded `div` stops the machine; otherwise D gets the remainder of S by k when S is not `$t9`, and 0 when it is |
| InstructionLaws.SyscallCodeEffect | mippet/nodes/instruction.py:392-404 | executed, a named syscall with a decimal id leaves every register and stack word unchanged and stores the service's result in `_return` |
| InstructionLaws.NamedSyscall | mippet/nodes/instruction.py:385-404 | the same, for the code `syscall name` lowers to through the table |
| InstructionLaws.CallAtDepthZero | mippet/nodes/instruction.py:357-366 | at depth 0, a callee that returns with `$sp` and the saved word intact gets `$ra` and `$sp` back |
| InstructionLaws.CallAtDepthLoadsParameter | mippet/nodes/instruction.py:357-366 | at positive depth, `$ra` receives the first parameter word even if the callee changes nothing |
| InstructionLaws.CorrectedCallRestores | mippet/nodes/instruction.py:357-366 | at any depth, the spill keeps the parameter words in place and puts `$ra` under them; for any callee that returns with `$sp` and those words intact, the depth-aware restore gives back `$ra`, `$sp` and the parameter words; at depth 0 this is exactly the sequence the source emits |
| InstructionLaws.RetAfterShallowPrologue | mippet/nodes/procedures.py:138-143 | after a depth-0 prologue and a balanced body, `ret` restores `$s0`…`$s7` and `$sp` |
| InstructionLaws.RetAfterDeepPrologue | mippet/nodes/procedures.py:138-143 | after a prologue at positive depth, `ret` loads `$s0` from the first parameter word |
| InstructionLaws.CorrectedRetRestores | mippet/nodes/procedures.py:138-143 | the depth-aware restore gives back all eight registers, `$sp` and every stack word at any prologue depth |
| Registration.RegisterOperandsEffect | mippet/nodes/instruction.py:80-83 | registering operands adds each identifier's occurrences to its count and adds exactly those names as symbols; the procedure table is untouched |
| Registration.RegisterStatementEffect | mippet/nodes/instruction.py:80-83 | one statement adds its operand uses to the counts, and the names it declares or uses to the symbols |
| Registration.RegisterCounts | mippet/nodes/procedures.py:16-17 | after a body, each count is the old count plus the body's operand uses of that name |
| Registration.RegisterDeclares | mippet/nodes/procedures.py:16-17 | after a body, the symbols are the old ones plus every name the body declares or uses |
| Registration.RegisterProcedures | mippet/nodes/procedures.py:98-102 | after a body, each procedure maps to its last declaration in the body, or else to its earlier entry |
| Registration.RegisterMonotone | mippet/nodes/procedures.py:16-17 | registration never removes a symbol or procedure and never lowers a count |
| Registration.RegisterConcat | mippet/nodes/procedures.py:16-17 | registering a concatenation registers the first part, then the second |
| Registration.RegisterProcedureIdempotent | mippet/nodes/procedures.py:98-102 | registering a procedure twice equals registering it once, and does not reset an existing count |
| Registration.CallIsNotUse | mippet/nodes/instruction.py:353-366 | `call p` registers nothing (it exposes no operands), while `j p` is one use of p |
| Registration.RegisterBindingsEffect | mippet/nodes/procedures.py:75-79 | a data section declares exactly its labels, with no uses |
| Procedures.ProcedureDocsShape | mippet/nodes/procedures.py:105-114 | the documentation is the doc comments in order, then (with parameters) an empty comment and `<operand>: <name>` per parameter in declaration order |
| Procedures.PrologueShape | mippet/nodes/procedures.py:121-129 | the prologue spills `$s0`…`$s7` at the `$sp`-parameter count: 9 instructions at depth 0, 16d+16 at depth d |
| Procedures.ProcedureLinesShape | mippet/nodes/procedures.py:104-135 | a procedure is its documentation lines, then its label, then its prologue, and nothing else |
| Procedures.ProcedureNative | mippet/nodes/procedures.py:115-129 | a procedure emits only machine instructions |
| Procedures.BodyLinesFails | mippet/nodes/node.py:92-95 | constructing a body fails exactly when one of its statements fails |
| Procedures.BodyLinesConcat | mippet/nodes/node.py:92-95 | the lines of a concatenated body are the two bodies' lines, in order |
| Procedures.TextSectionShape | mippet/nodes/procedures.py:19-27 | a text section fails on unknown `main` (checked first), on unknown `halt`, or on a failing body; otherwise it is: type, `entry:`, the call of `main`, the `halt` syscall, the body, a newline |
| Procedures.KernelTextShape | mippet/nodes/procedures.py:35-40 | a kernel-text section is `.ktext <address>`, the body, and a newline, with no entry sequence; it fails exactly when its body does |
| Procedures.DataSectionShape | mippet/nodes/procedures.py:81-89 | a data section never fails: `.data`, label `_return`, `.word` and 0, then for each binding in order its label, its definition's directive line and its payload |
| Procedures.DataDirectiveCases | mippet/nodes/procedures.py:47-89 | in an emitted data section, the directive line before each definition is `.asciiz` exactly for a null-terminated string, `.ascii` exactly for any other string, and `.word` exactly for a number or array; the reserved `_return` word is `.word` |
| Procedures.SectionNative | mippet/nodes/procedures.py:19-89 | every section that constructs emits only machine instructions |
| LegacyNodes.RegisterRenderings | mippet/nodes.py:20-25 | the older model prints registers verbatim; it agrees with the newer one except on `$0` |
| LegacyNodes.NumberRenderings | mippet/nodes.py:28-33 | both models render numbers alike, and the text parses back |
| LegacyNodes.LabelRenderings | mippet/nodes.py:44-49 | the newer label is the older `name:` preceded by a newline |
| LegacyNodes.SectionRenderings | mippet/nodes.py:52-58 | the newer section is the older one followed by a newline |
| LegacyNodes.OperandRenderings | mippet/nodes.py:20-41 | any register other than `$0`, number or identifier renders alike in both models |
| LegacyNodes.InstructionRenderings | mippet/nodes.py:11-17 | an instruction over such operands renders alike in both models |
| LegacyNodes.SectionLines | mippet/nodes.py:52-64 | an older section is its type line followed by the body's lines, with no empty line after |
| Preprocessor.SyscallTable | mippet/preprocessor.py:8-19 | every service number lies in 1..10; print_int is 1, print_string 4, exit 10 |
| Preprocessor.VisitSyscallCases | mippet/preprocessor.py:50-65 | a bare syscall is kept; a non-identifier argument gives TypeError; an unknown name gives ValueError `Unknown syscall <name>`; a known name expands to `lw $v0, <id>` then a bare `syscall` |
| Preprocessor.VisitListConcat | mippet/preprocessor.py:26-35 | visiting a concatenated list gives the two visited lists spliced in order |
| Preprocessor.VisitListExpands | mippet/preprocessor.py:26-48 | after a successful walk, no syscall with arguments remains anywhere the walk reaches |
| Preprocessor.VisitListKeeps | mippet/preprocessor.py:36-48 | a walk over code with no named syscall returns it unchanged |
| Preprocessor.VisitIdempotent | mippet/preprocessor.py:22-40 | preprocessing twice equals preprocessing once |
| Preprocessor.VisitListLength | mippet/preprocessor.py:26-35 | a successful walk lengthens a list by exactly its named syscalls |
| Preprocessor.ExpansionServiceNumber | mippet/preprocessor.py:61-64 | executed, the expansion traps with the memory word at the service number's address in `$v0` |
| Preprocessor.ExpansionRequestsWrongService | mippet/preprocessor.py:50-65 | in the model, where every address holds a word and empty memory reads 0, `syscall print_int` traps with service 0 rather than 1; on MIPS the load itself faults |
| Preprocessor.CorrectedExpansionServiceNumber | mippet/preprocessor.py:61-64 | with `li`, the trap receives the service number whatever memory holds, and only `$v0` changes |

## Left out

- The lexer, the parser, the command-line driver and the package re-exports
  (mippet/lexer.py, mippet/tokens.py, mippet/parse.py, mippet.py,
  mippet/__init__.py). They are input and output plumbing. The model starts
  from the tree.
- Reading `syscalls.txt` when the class is defined is file input. The table
  is a parameter `syscalls: map<string, string>` of lowering and of section
  code generation. The ids stay text, as the source reads them, and the
  machine reads them as decimal numbers. The table is assumed to hold ids
  free of line breaks: the source splits each line on spaces only, so a line
  with exactly two fields keeps its trailing line break in the id. The
  seven-line lowering of a named syscall and the decimal reading of its id
  rest on that assumption.
- The newer `node.py`, with `Context`, `register` and the context-taking
  `construct`, is not part of this model. The context-taking construct is
  modelled as a newline join over text, nodes and lists (`Render.Construct`).
  The registration rules are inferred from their use sites:
  - an identifier operand is one use;
  - a label declares its name with count 0.
- `Context.validate` and the unused-symbol warnings are not part of this
  model, since they are diagnostics.
- Symbols are keyed by name. The procedure registration keys its symbol
  entry by the identifier node, whose equality is not shown.
- `CommentNode`, `DocCommentNode`, `StringNode` and `ArrayNode` are not part
  of this model, so comments, string payloads and array payloads stay
  structural (`CommentLine`, `Value`).
- Procedures.ProcedureLines: does not model the `lstrip` of the label or the
  dropping of blank parts when the documentation, label and prologue are
  joined. Output is kept as a list of lines rather than text.
- Instructions.ParseThree: the source interpolates `cls.mneumonic` into its
  messages. On the class this is a property object, not a string. The model
  interpolates the mnemonic itself.
- The `assert isinstance(mneumonic, IdentifierNode)` in
  `GenericInstruction.parse_arguments` is not modelled, because the mnemonic
  is always a string here.
- Jumps (`j`, `jal`, `jr`) do not execute on the machine.
  - The call lemmas take the callee's effect on the state as a hypothesis.
  - The `ret` lemmas stop before `jr $ra`.
- Machine.Exec: a `div` by zero is modelled as the machine stopping (no
  next state). On MIPS, such a `div` does not trap and leaves HI and LO
  unpredictable, so the promises about a zero divisor (`ModuloRegister`,
  `ModuloImmediate`) say only that no result is defined.
- Machine.Exec: a bare `syscall` is modelled as a service `sys` that
  always returns, reads only `$v0` and writes only `$v0`. Real services can
  read other registers (`sbrk` reads `$a0`), write memory (`read_string`
  fills the buffer at `$a0`, which may be a stack word) or never return
  (`exit`).
- InstructionLaws.SyscallCodeEffect: its promises that every register and
  stack word is unchanged and that `_return` holds `sys(id)` rest on that
  model of the trap.
- InstructionLaws.NamedSyscall: rests on the same model of the trap.
- Instructions.UnpackMessage: uses CPython's long-standing wording of the
  unpacking messages. Interpreters that word them differently are not
  modelled.
- InstructionLaws.MultiplyImmediate: integers are unbounded, so the 32-bit
  wrap-around of `mul` and `addi` is not modelled.
- Machine.Set: `$zero` is modelled as an ordinary, writable register. On
  MIPS a write to `$zero` is discarded and it always reads 0. The lexer
  accepts `$zero` as an operand, so the promises below that name a
  destination register hold for the model machine but not on MIPS when that
  register is `$zero`.
- InstructionLaws.PushPop: `$zero` is modelled as writable, so `pop $zero`
  leaves a's value in `$zero`, where MIPS discards the write.
- InstructionLaws.MultiplyImmediate: `$zero` is modelled as writable, so
  with D = `$zero` the product is kept in `$zero`, where MIPS discards it.
- InstructionLaws.MultiplyImmediateSourceHazard: `$zero` is modelled as
  writable, so with D = `$zero` the value k*k is kept in `$zero`, where MIPS
  discards it.
- InstructionLaws.ModuloRegister: `$zero` is modelled as writable, so with
  D = `$zero` the remainder is kept in `$zero`, where MIPS discards it.
- InstructionLaws.ModuloImmediate: `$zero` is modelled as writable, so with
  D = `$zero` the remainder is kept in `$zero`, where MIPS discards it.
- Machine.Load: no alignment or address-range faults. Every address holds a
  word, and an absent one reads 0. On MIPS a `lw` from an unaligned or
  unmapped low address raises an address-error exception.
- Preprocessor.ExpansionServiceNumber: rests on that model of `lw`. The
  expansion's `lw $v0, <id>` reads the word at address id; on MIPS, for the
  ids of the table, the load itself raises an exception.
- Preprocessor.ExpansionRequestsWrongService: the service number it exhibits
  (0, the word at address 1 in empty memory) is an artefact of the model's
  `lw`. What it shows for MIPS is only that the trap does not receive 1.
- Preprocessor.SyscallTable: states only the range of the ids and three
  entries. It does not state that the ten ids are distinct.
- The preprocessor's `visit_<TypeName>` lookup is modelled as a match over
  the older node kinds. A list nested directly inside a list cannot occur in
  this node type.

## Findings

| source | as written | input that shows it | evidently intended | confidence | as-written member | corrected member |
|---|---|---|---|---|---|---|
| mippet/nodes/instruction.py:49-57 | `unspill` loads register i from `4i($sp)` whatever depth the matching `spill` used | spill `$ra` at depth 1 with `$sp`=1000, `$ra`=7 and word `4($sp)`=5, then unspill: `$ra` becomes 5 | load from `4(depth+i)($sp)` and move the parameter words back up (`Spill.UnspillAt`) | high; not executed | SpillLaws.DeepSpillUnspillLosesRegister | SpillLaws.SpillUnspillAtRoundTrip |
| mippet/nodes/instruction.py:357-366 | `call p` restores `$ra` with `unspill()` after spilling it at p's stack-parameter depth | any callee with one `$sp` parameter: `$ra` receives that parameter's word | restore `$ra` from under the parameter words (`InstructionLaws.CorrectedCallCode`) | high; not executed | InstructionLaws.CallAtDepthLoadsParameter | InstructionLaws.CorrectedCallRestores |
| mippet/nodes/procedures.py:138-143 | `ret` unspills `$s0`…`$s7` from words 1…8, while a procedure with d `$sp` parameters saved them under d parameter words | a procedure with one `$sp` parameter whose body changes nothing: `$s0` receives the parameter word | the depth-aware restore at the prologue's depth | high; not executed | InstructionLaws.RetAfterDeepPrologue | InstructionLaws.CorrectedRetRestores |
| mippet/preprocessor.py:61-64 | a named syscall becomes `lw $v0, <id>`, a load from address id | `syscall print_int`: in the model, where every address holds a word, the trap receives the word at address 1 (0 in empty memory) instead of 1; on MIPS the load itself raises an exception | `li $v0, <id>`, as the newer syscall lowering emits (instruction.py:398) | high; not executed | Preprocessor.ExpansionRequestsWrongService | Preprocessor.CorrectedExpansionServiceNumber |
