/** The node model of the assembler: operands, instructions (one variant per
    registered mnemonic plus the generic pass-through), statements, procedures,
    sections, the registration `Context`, and the lines code generation emits. */
module Ast {
  import opened Wrappers

  /** A machine register, compared by its name (`RegisterNode` is a frozen
      dataclass over the name). */
  datatype Register = Register(name: string)

  const SP := Register("$sp")
  const RA := Register("$ra")
  const V0 := Register("$v0")
  /** The scratch register the lowering uses for shifts and immediates. */
  const T9 := Register("$t9")

  /** Instruction operands and procedure parameter bindings. */
  datatype Operand =
    | Num(value: int)
      /** A number node whose value is text, as the syscall table supplies it. */
    | Literal(text: string)
    | Ident(name: string)
    | Reg(reg: Register)
    | Ptr(base: Register, offset: int)

  /** The memory operand of `lw`/`sw`: `offset(base)` or a label. */
  datatype Address = AtOffset(base: Register, offset: int) | AtLabel(name: string)

  function AddressOperand(a: Address): (o: Operand)
    ensures o.Ptr? || o.Ident?
  {
    match a
    case AtOffset(b, off) => Ptr(b, off)
    case AtLabel(n) => Ident(n)
  }

  /** The register-immediate arithmetic mnemonics: `addi`, `muli`, `modi`. */
  datatype IntOp = AddI | MulI | ModI

  /** The register-register arithmetic mnemonics: `mul`, `mod`, and the
      abstract base class whose tag is the empty string. */
  datatype RegOp = Mul | Mod | Unnamed

  datatype Instruction =
    | Generic(mnemonic: string, args: seq<Operand>)
    | J(target: string)
    | Jal(target: string)
    | Jr(via: Register)
    | Li(reg: Register, value: Operand)
    | Lw(destination: Register, source: Address)
    | Sw(dest: Address, src: Register)
    | Move(from: Register, to: Register)
    | Push(pushed: Register)
    | Pop(popped: Option<Register>)
    | MathInt(iop: IntOp, dst: Register, lhs: Register, value: Operand)
    | MathReg(rop: RegOp, rdst: Register, rlhs: Register, rrhs: Register)
    | Call(proc: string)
    | Syscall(name: Option<string>)
    | Ret

  /** `## subject` followed by comment lines. */
  datatype DocComment = DocComment(subject: string, comments: seq<string>)

  /** A parameter binding `name: register` or `name: offset(base)`, in
      declaration order. */
  type Parameters = seq<(string, Operand)>

  datatype Procedure = Procedure(name: string, parameters: Parameters, documentation: seq<DocComment>)

  datatype Statement =
    | LabelStmt(labelName: string)
    | InstrStmt(instr: Instruction)
    | ProcStmt(proc: Procedure)
    | CommentStmt(comment: string)

  datatype DataDef =
    | WordNumber(word: int)
    | WordArray(words: seq<int>)
    | StringDef(text: string, nullTerminated: bool)

  datatype Section =
    | TextSection(typ: string, body: seq<Statement>)
    | KernelText(address: int, code: seq<Statement>)
    | DataSection(bindings: seq<(string, DataDef)>)

  /** The table the registration pass builds: parameter bindings per procedure
      and a usage count per symbol. */
  datatype Context = Context(procedures: map<string, Parameters>, symbols: map<string, int>)

  const EmptyContext := Context(map[], map[])

  /** One line of generated assembly. */
  datatype Line =
    | Directive(text: string)
    | LabelDecl(name: string)
    | Emit(instr: Instruction)
    | CommentLine(text: string)
      /** The payload of a data definition: its number, array or string. */
    | Value(def: DataDef)
}
