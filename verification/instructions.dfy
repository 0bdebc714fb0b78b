/** The instruction layer (mippet/nodes/instruction.py and `ReturnInstruction`
    in mippet/nodes/procedures.py): the closed registry of mnemonics, the
    operand-shape validators `parse_arguments`, the operands each instruction
    exposes, its one-line rendering, and the lowering of the
    pseudo-instructions to native ones. */
module Instructions {
  import opened Wrappers
  import opened Text
  import opened Ast
  import opened Render
  import opened Convention
  import opened Spill

  // ---------------------------------------------------------------------
  // The registry.

  /** Every mnemonic a class registers. The empty tag is registered by three
      abstract classes in turn; the last of them, the register-register math
      class, keeps it. */
  const Registry: set<string> := {
    "j", "jal", "jr", "li", "lw", "sw", "move", "push", "pop",
    "addi", "muli", "modi", "mul", "mod", "", "call", "syscall", "ret"
  }

  /** Mnemonics whose validator reads `arguments[0]` and ignores the rest. */
  const FirstOperandOnly: set<string> := {"j", "jal", "jr", "push", "call"}

  /** Mnemonics whose validator reads the first operand only when there is one. */
  const OptionalOperand: set<string> := {"pop", "syscall"}

  /** Mnemonics whose validator unpacks exactly two operands. */
  const TwoOperands: set<string> := {"li", "lw", "sw", "move"}

  /** Mnemonics whose validator unpacks exactly three operands. */
  const ThreeOperands: set<string> := {"addi", "muli", "modi", "mul", "mod", ""}

  /** The mnemonic an instruction is registered under (for a generic
      instruction, the one it was parsed with). */
  function Mnemonic(i: Instruction): string
  {
    match i
    case Generic(m, _) => m
    case J(_) => "j"
    case Jal(_) => "jal"
    case Jr(_) => "jr"
    case Li(_, _) => "li"
    case Lw(_, _) => "lw"
    case Sw(_, _) => "sw"
    case Move(_, _) => "move"
    case Push(_) => "push"
    case Pop(_) => "pop"
    case MathInt(AddI, _, _, _) => "addi"
    case MathInt(MulI, _, _, _) => "muli"
    case MathInt(ModI, _, _, _) => "modi"
    case MathReg(Mul, _, _, _) => "mul"
    case MathReg(Mod, _, _, _) => "mod"
    case MathReg(Unnamed, _, _, _) => ""
    case Call(_) => "call"
    case Syscall(_) => "syscall"
    case Ret => "ret"
  }

  /** A number node: an integer, or the text a syscall id is given as. */
  predicate IsNumber(o: Operand)
  {
    o.Num? || o.Literal?
  }

  /** The operands an instruction can hold in each position. A generic
      instruction never carries a registered mnemonic, since `parse` only
      falls back to it for unregistered ones. */
  predicate WellFormed(i: Instruction)
  {
    match i
    case Generic(m, _) => m !in Registry
    case Li(_, v) => IsNumber(v)
    case MathInt(_, _, _, v) => IsNumber(v)
    case _ => true
  }

  /** The `arguments` property: what registration visits and the default
      rendering prints. The classes that do not override it (push, pop,
      call, syscall, ret) expose no operands. `sw` lists its register first;
      `move` lists its destination first. */
  function Arguments(i: Instruction): seq<Operand>
  {
    match i
    case Generic(_, args) => args
    case J(t) => [Ident(t)]
    case Jal(t) => [Ident(t)]
    case Jr(r) => [Reg(r)]
    case Li(r, v) => [Reg(r), v]
    case Lw(d, a) => [Reg(d), AddressOperand(a)]
    case Sw(a, r) => [Reg(r), AddressOperand(a)]
    case Move(from, to) => [Reg(to), Reg(from)]
    case MathInt(_, d, s, v) => [Reg(d), Reg(s), v]
    case MathReg(_, d, s, v) => [Reg(d), Reg(s), Reg(v)]
    case _ => []
  }

  /** The operands the instruction was written with, in source order. */
  function Operands(i: Instruction): seq<Operand>
  {
    match i
    case Push(r) => [Reg(r)]
    case Pop(None) => []
    case Pop(Some(r)) => [Reg(r)]
    case Call(p) => [Ident(p)]
    case Syscall(None) => []
    case Syscall(Some(n)) => [Ident(n)]
    case _ => Arguments(i)
  }

  // ---------------------------------------------------------------------
  // Validators.

  /** `type(o).__name__` of an operand node. */
  function TypeName(o: Operand): string
  {
    match o
    case Num(_) => "NumberNode"
    case Literal(_) => "NumberNode"
    case Ident(_) => "IdentifierNode"
    case Reg(_) => "RegisterNode"
    case Ptr(_, _) => "PointerNode"
  }

  /** The memory operand a pointer or identifier node denotes. */
  function ToAddress(o: Operand): (a: Address)
    requires o.Ptr? || o.Ident?
    ensures AddressOperand(a) == o
  {
    if o.Ptr? then AtOffset(o.base, o.offset) else AtLabel(o.name)
  }

  /** `InstructionNode.parse`: dispatch on the mnemonic, then validate the
      operands the way the registered class's `parse_arguments` does. */
  function Parse(m: string, args: seq<Operand>): Result<Instruction>
  {
    if m !in Registry then Ok(Generic(m, args))
    else if m in FirstOperandOnly then ParseFirst(m, args)
    else if m in OptionalOperand then ParseOptional(m, args)
    else if m in TwoOperands then ParseTwo(m, args)
    else if m in ThreeOperands then ParseThree(m, args)
    else Ok(Ret)
  }

  function ParseFirst(m: string, args: seq<Operand>): Result<Instruction>
    requires m in FirstOperandOnly
  {
    if |args| == 0 then Err(IndexError("list index out of range"))
    else
      var a := args[0];
      if m == "j" then
        if a.Ident? then Ok(J(a.name)) else Err(ValueError("Expected an identifier as the argument to `j`"))
      else if m == "jal" then
        if a.Ident? then Ok(Jal(a.name)) else Err(ValueError("`jal` expected an identifier as the first parameter"))
      else if m == "jr" then
        if a.Reg? then Ok(Jr(a.reg)) else Err(ValueError("`jr` expected a register as the parameter"))
      else if m == "push" then
        if a.Reg? then Ok(Push(a.reg)) else Err(ValueError("`push` expects a pointer as the argument"))
      else
        if a.Ident? then Ok(Call(a.name)) else Err(ValueError("`call` expects a procedure to call"))
  }

  function ParseOptional(m: string, args: seq<Operand>): Result<Instruction>
    requires m in OptionalOperand
  {
    if m == "pop" then
      if |args| == 0 then Ok(Pop(None))
      else if args[0].Reg? then Ok(Pop(Some(args[0].reg)))
      else Err(ValueError("`pop` expects a pointer as the argument"))
    else
      if |args| == 0 then Ok(Syscall(None))
      else if args[0].Ident? then Ok(Syscall(Some(args[0].name)))
      else Err(ValueError("Expected an identifier if `syscall` is to be given an argument"))
  }

  /** The message of the ValueError Python raises when a list of `got`
      values is unpacked into `expected` names. */
  function UnpackMessage(expected: nat, got: nat): string
  {
    if got < expected then
      "not enough values to unpack (expected " + IntToString(expected) + ", got " + IntToString(got) + ")"
    else "too many values to unpack (expected " + IntToString(expected) + ")"
  }

  function ParseTwo(m: string, args: seq<Operand>): Result<Instruction>
    requires m in TwoOperands
  {
    if |args| != 2 then Err(ValueError(UnpackMessage(2, |args|)))
    else
      var a, b := args[0], args[1];
      if m == "li" then
        if !a.Reg? then Err(ValueError("Expected a reg as the first argument to `li`"))
        else if !IsNumber(b) then Err(ValueError("Expected an integer as the second argument to `li`"))
        else Ok(Li(a.reg, b))
      else if m == "lw" then
        if !a.Reg? then Err(ValueError("Expected a register as the first argument to `lw`"))
        else if !(b.Ptr? || b.Ident?) then
          Err(ValueError("Expected a pointer or identifier as the second argument to `lw`, got `" + TypeName(b) + "`"))
        else Ok(Lw(a.reg, ToAddress(b)))
      else if m == "sw" then
        if !a.Reg? then Err(ValueError("Expected a register as the first argument to `lw`"))
        else if !(b.Ptr? || b.Ident?) then Err(ValueError("Expected a pointer as the second argument to `lw`"))
        else Ok(Sw(ToAddress(b), a.reg))
      else
        if !a.Reg? then Err(ValueError("`move` expected a register as the first argument"))
        else if !b.Reg? then Err(ValueError("`move` expected a register as the second argument"))
        else Ok(Move(b.reg, a.reg))
  }

  function ParseThree(m: string, args: seq<Operand>): Result<Instruction>
    requires m in ThreeOperands
  {
    if |args| != 3 then Err(ValueError(UnpackMessage(3, |args|)))
    else
      var d, s, v := args[0], args[1], args[2];
      if !d.Reg? then Err(ValueError("Expected a register as the first argument to `" + m + "`"))
      else if !s.Reg? then Err(ValueError("Expected a register as the second argument to `" + m + "`"))
      else if m == "addi" || m == "muli" || m == "modi" then
        if !IsNumber(v) then Err(ValueError("Expected an integer as the third argument to `" + m + "`"))
        else Ok(MathInt(if m == "addi" then AddI else if m == "muli" then MulI else ModI, d.reg, s.reg, v))
      else
        if !v.Reg? then Err(ValueError("Expected an register as the third argument to `" + m + "`"))
        else Ok(MathReg(if m == "mul" then Mul else if m == "mod" then Mod else Unnamed, d.reg, s.reg, v.reg))
  }

  // ---------------------------------------------------------------------
  // Laws of the validators.

  lemma RoundTripFirst(i: Instruction)
    requires i.J? || i.Jal? || i.Jr? || i.Push? || i.Call?
    ensures Parse(Mnemonic(i), Operands(i)) == Ok(i)
  {
    assert Mnemonic(i) in FirstOperandOnly;
  }

  lemma RoundTripOptional(i: Instruction)
    requires i.Pop? || i.Syscall?
    ensures Parse(Mnemonic(i), Operands(i)) == Ok(i)
  {
    assert Mnemonic(i) in OptionalOperand;
  }

  lemma RoundTripLi(i: Instruction)
    requires i.Li? && IsNumber(i.value)
    ensures Parse(Mnemonic(i), Operands(i)) == Ok(i)
  {
    assert Mnemonic(i) in TwoOperands;
  }

  lemma RoundTripLw(i: Instruction)
    requires i.Lw?
    ensures Parse(Mnemonic(i), Operands(i)) == Ok(i)
  {
    assert Mnemonic(i) in TwoOperands;
  }

  lemma RoundTripStores(i: Instruction)
    requires i.Sw? || i.Move?
    ensures Parse(Mnemonic(i), Operands(i)) == Ok(i)
  {
    assert Mnemonic(i) in TwoOperands;
  }

  lemma RoundTripMathInt(i: Instruction)
    requires i.MathInt? && IsNumber(i.value)
    ensures Parse(Mnemonic(i), Operands(i)) == Ok(i)
  {
    assert Mnemonic(i) in ThreeOperands;
  }

  lemma RoundTripMathReg(i: Instruction)
    requires i.MathReg?
    ensures Parse(Mnemonic(i), Operands(i)) == Ok(i)
  {
    assert Mnemonic(i) in ThreeOperands;
  }

  /** Every well-formed instruction is what `parse` makes of its own
      mnemonic and operands. */
  lemma ParseRoundTrip(i: Instruction)
    requires WellFormed(i)
    ensures Parse(Mnemonic(i), Operands(i)) == Ok(i)
  {
    if i.J? || i.Jal? || i.Jr? || i.Push? || i.Call? {
      RoundTripFirst(i);
    } else if i.Pop? || i.Syscall? {
      RoundTripOptional(i);
    } else if i.Li? {
      RoundTripLi(i);
    } else if i.Lw? {
      RoundTripLw(i);
    } else if i.Sw? || i.Move? {
      RoundTripStores(i);
    } else if i.MathInt? {
      RoundTripMathInt(i);
    } else if i.MathReg? {
      RoundTripMathReg(i);
    }
  }

  /** What a validator accepts is well formed, carries the mnemonic it was
      asked for, and was built from a prefix of the operands given. */
  ghost predicate Accepted(m: string, args: seq<Operand>, r: Result<Instruction>)
  {
    r.Ok? ==> WellFormed(r.value) && Mnemonic(r.value) == m && Operands(r.value) <= args
  }

  lemma ParseFirstSound(m: string, args: seq<Operand>)
    requires m in FirstOperandOnly
    ensures Accepted(m, args, ParseFirst(m, args))
  {
    if |args| > 0 {
      assert [args[0]] <= args;
    }
  }

  lemma ParsePopSound(args: seq<Operand>)
    ensures Accepted("pop", args, ParseOptional("pop", args))
  {
    if |args| > 0 {
      assert [args[0]] <= args;
    }
  }

  lemma ParseSyscallSound(args: seq<Operand>)
    ensures Accepted("syscall", args, ParseOptional("syscall", args))
  {
    if |args| > 0 {
      assert [args[0]] <= args;
    }
  }

  lemma ParseTwoSound(m: string, args: seq<Operand>)
    requires m in TwoOperands
    ensures Accepted(m, args, ParseTwo(m, args))
  {
    if |args| == 2 {
      assert args == [args[0], args[1]];
    }
  }

  lemma ParseThreeSound(m: string, args: seq<Operand>)
    requires m in ThreeOperands
    ensures Accepted(m, args, ParseThree(m, args))
  {
    if |args| == 3 {
      assert args == [args[0], args[1], args[2]];
    }
  }

  /** Whatever `parse` accepts is well formed, carries the mnemonic it was
      asked for, and was built from a prefix of the operands given. Only a
      registered mnemonic can be rejected. */
  lemma ParseSound(m: string, args: seq<Operand>)
    ensures Parse(m, args).Ok? ==>
      var i := Parse(m, args).value;
      WellFormed(i) && Mnemonic(i) == m && Operands(i) <= args
    ensures Parse(m, args).Err? ==> m in Registry
  {
    if m !in Registry {
    } else if m in FirstOperandOnly {
      ParseFirstSound(m, args);
    } else if m == "pop" {
      ParsePopSound(args);
    } else if m == "syscall" {
      ParseSyscallSound(args);
    } else if m in TwoOperands {
      ParseTwoSound(m, args);
    } else if m in ThreeOperands {
      ParseThreeSound(m, args);
    } else {
      assert m == "ret";
    }
  }

  /** The error paths that depend on the operand count: a missing first
      operand is an IndexError, a wrong count for an unpacking validator the
      ValueError of Python's tuple unpacking. */
  lemma ParseMissingOperand(m: string)
    requires m in FirstOperandOnly
    ensures Parse(m, []) == Err(IndexError("list index out of range"))
  {
  }

  lemma ParseUnpackTwo(m: string, args: seq<Operand>)
    requires m in TwoOperands && |args| != 2
    ensures |args| == 0 ==> Parse(m, args) == Err(ValueError("not enough values to unpack (expected 2, got 0)"))
    ensures |args| == 1 ==> Parse(m, args) == Err(ValueError("not enough values to unpack (expected 2, got 1)"))
    ensures |args| > 2 ==> Parse(m, args) == Err(ValueError("too many values to unpack (expected 2)"))
  {
    assert m in Registry && m !in FirstOperandOnly && m !in OptionalOperand;
    assert Parse(m, args) == ParseTwo(m, args) == Err(ValueError(UnpackMessage(2, |args|)));
    UnpackMessages();
  }

  lemma ParseUnpackThree(m: string, args: seq<Operand>)
    requires m in ThreeOperands && |args| != 3
    ensures |args| == 0 ==> Parse(m, args) == Err(ValueError("not enough values to unpack (expected 3, got 0)"))
    ensures |args| == 1 ==> Parse(m, args) == Err(ValueError("not enough values to unpack (expected 3, got 1)"))
    ensures |args| == 2 ==> Parse(m, args) == Err(ValueError("not enough values to unpack (expected 3, got 2)"))
    ensures |args| > 3 ==> Parse(m, args) == Err(ValueError("too many values to unpack (expected 3)"))
  {
    assert m in Registry && m !in FirstOperandOnly && m !in OptionalOperand && m !in TwoOperands;
    assert Parse(m, args) == ParseThree(m, args) == Err(ValueError(UnpackMessage(3, |args|)));
    UnpackMessages();
  }

  /** The messages for the operand counts the validators can meet. */
  lemma UnpackMessages()
    ensures UnpackMessage(2, 0) == "not enough values to unpack (expected 2, got 0)"
    ensures UnpackMessage(2, 1) == "not enough values to unpack (expected 2, got 1)"
    ensures UnpackMessage(3, 0) == "not enough values to unpack (expected 3, got 0)"
    ensures UnpackMessage(3, 1) == "not enough values to unpack (expected 3, got 1)"
    ensures UnpackMessage(3, 2) == "not enough values to unpack (expected 3, got 2)"
    ensures forall n :: n > 2 ==> UnpackMessage(2, n) == "too many values to unpack (expected 2)"
    ensures forall n :: n > 3 ==> UnpackMessage(3, n) == "too many values to unpack (expected 3)"
  {
    assert IntToString(0) == "0" && IntToString(1) == "1";
    assert IntToString(2) == "2" && IntToString(3) == "3";
  }

  /** Operands past the first are ignored where the validator only reads
      `arguments[0]`, and `ret` ignores all of them. */
  lemma ParseIgnoresExtra(m: string, args: seq<Operand>)
    requires |args| > 0
    ensures m in FirstOperandOnly + OptionalOperand ==> Parse(m, args) == Parse(m, [args[0]])
    ensures Parse("ret", args) == Ok(Ret)
  {
  }

  /** `li` with a register where a number belongs fails naming the position. */
  lemma ParseRejectsExample()
    ensures Parse("li", [Reg(T9), Reg(V0)]) == Err(ValueError("Expected an integer as the second argument to `li`"))
  {
  }

  // ---------------------------------------------------------------------
  // Rendering.

  function RenderOperands(os: seq<Operand>): (r: seq<string>)
    ensures |r| == |os|
    ensures forall k :: 0 <= k < |os| ==> r[k] == RenderOperand(os[k])
  {
    seq(|os|, k requires 0 <= k < |os| => RenderOperand(os[k]))
  }

  /** `InstructionNode.construct`: four spaces, the mnemonic, a space, and
      the rendered `arguments` joined by `, `. */
  function RenderInstruction(i: Instruction): string
  {
    "    " + Mnemonic(i) + " " + Join(", ", RenderOperands(Arguments(i)))
  }

  function RenderLines(code: seq<Instruction>): (r: seq<string>)
    ensures |r| == |code|
    ensures forall k :: 0 <= k < |code| ==> r[k] == RenderInstruction(code[k])
  {
    seq(|code|, k requires 0 <= k < |code| => RenderInstruction(code[k]))
  }

  /** A rendered line shows its mnemonic after the indentation, so it is not
      blank whenever the mnemonic starts with a visible character. */
  lemma RenderInstructionShape(i: Instruction)
    ensures var line, m := RenderInstruction(i), Mnemonic(i);
      |line| > 4 + |m| && line[..4] == "    " && line[4..4 + |m|] == m && line[4 + |m|] == ' '
    ensures |Mnemonic(i)| > 0 && !IsSpace(Mnemonic(i)[0]) ==> !IsBlank(RenderInstruction(i))
  {
    var line, m := RenderInstruction(i), Mnemonic(i);
    var rest := Join(", ", RenderOperands(Arguments(i)));
    assert line == "    " + m + " " + rest;
    if |m| > 0 && !IsSpace(m[0]) {
      assert line[4] == m[0];
    }
  }

  // ---------------------------------------------------------------------
  // Lowering.

  /** An instruction the target assembler understands as written. */
  predicate IsNative(i: Instruction)
  {
    match i
    case Push(_) => false
    case Pop(_) => false
    case MathInt(MulI, _, _, _) => false
    case MathInt(ModI, _, _, _) => false
    case MathReg(Mod, _, _, _) => false
    case Call(_) => false
    case Syscall(n) => n.None?
    case Ret => false
    case _ => true
  }

  predicate AllNative(code: seq<Instruction>)
  {
    forall k :: 0 <= k < |code| ==> IsNative(code[k])
  }

  /** `mod D, S, V`: `div S, V` then `mfhi D`. */
  function ModCode(d: Register, s: Register, v: Register): seq<Instruction>
  {
    [Generic("div", [Reg(s), Reg(v)]), Generic("mfhi", [Reg(d)])]
  }

  /** The lowering of one instruction (`construct` of each class), given the
      procedure table of the Context and the syscall name table. Every
      pseudo-instruction uses a fresh spill stack, as the source creates a
      new `SpillContext` for each. */
  function Lower(i: Instruction, ctx: Context, syscalls: map<string, string>): Result<seq<Instruction>>
  {
    match i
    case Push(r) => Ok(Spill.Spill([], [r], 0).0)
    case Pop(None) => Ok([AddSp(4)])
    case Pop(Some(r)) => Ok(Unspill([r]))
    case MathInt(MulI, d, s, v) => Ok([Li(T9, v), MathReg(Mul, d, T9, s)])
    case MathInt(ModI, d, s, v) => Ok([Li(T9, v)] + ModCode(d, s, T9))
    case MathReg(Mod, d, s, v) => Ok(ModCode(d, s, v))
    case Call(p) =>
      if p !in ctx.procedures then Err(KeyError(p))
      else
        var saved := Spill.Spill([], [RA], SpDepth(ctx.procedures[p]));
        (match UnspillTop(saved.1)
         case Ok(restored) => Ok(saved.0 + [Jal(p)] + restored.0)
         case Err(e) => Err(e))
    case Syscall(Some(n)) =>
      if n !in syscalls then Err(ValueError("Unknown syscall " + n))
      else
        var saved := Spill.Spill([], [V0], 0);
        (match UnspillTop(saved.1)
         case Ok(restored) => Ok(saved.0 + [Li(V0, Literal(syscalls[n])), Syscall(None), Sw(AtLabel("_return"), V0)] + restored.0)
         case Err(e) => Err(e))
    case Ret => Ok(Unspill(ProcedureSpills) + [Jr(RA)])
    case _ => Ok([i])
  }

  /** The code `call p` lowers to at spill depth d. */
  function CallCode(p: string, d: nat): seq<Instruction>
  {
    SpillCode([RA], d) + [Jal(p)] + Unspill([RA])
  }

  /** The code a named syscall with id text `id` lowers to. */
  function SyscallCode(id: string): seq<Instruction>
  {
    [AddSp(-4), Sw(Slot(1), V0), Li(V0, Literal(id)), Syscall(None), Sw(AtLabel("_return"), V0),
     Lw(V0, Slot(1)), AddSp(4)]
  }

  /** The middle of a named syscall: load the id, trap, store the result. */
  function SyscallBody(id: string): seq<Instruction>
  {
    [Li(V0, Literal(id)), Syscall(None), Sw(AtLabel("_return"), V0)]
  }

  /** The seven instructions are a depth-0 spill of `$v0`, the body, and the
      matching unspill. */
  lemma SyscallCodeSplit(id: string)
    ensures SyscallCode(id) == SpillCode([V0], 0) + SyscallBody(id) + Unspill([V0])
  {
    assert Stores([V0], 1) == [Sw(Slot(1), V0)];
    assert Loads([V0], 1) == [Lw(V0, Slot(1))];
  }

  /** `call p` spills `$ra` at p's depth around `jal p`; the unspill pops the
      single group that spill pushed. */
  lemma LowerCallShape(ctx: Context, syscalls: map<string, string>, p: string)
    requires p in ctx.procedures
    ensures Lower(Call(p), ctx, syscalls) == Ok(CallCode(p, SpDepth(ctx.procedures[p])))
  {
    SpillThenUnspillTop([], [RA], SpDepth(ctx.procedures[p]));
  }

  /** A named syscall lowers to seven native instructions. */
  lemma LowerSyscallShape(ctx: Context, syscalls: map<string, string>, n: string)
    requires n in syscalls
    ensures Lower(Syscall(Some(n)), ctx, syscalls) == Ok(SyscallCode(syscalls[n]))
  {
    SpillThenUnspillTop([], [V0], 0);
    var saved := Spill.Spill([], [V0], 0);
    assert Stores([V0], 1) == [Sw(Slot(1), V0)];
    assert saved.0 == [AddSp(-4), Sw(Slot(1), V0)];
    assert Loads([V0], 1) == [Lw(V0, Slot(1))];
    assert Unspill([V0]) == [Lw(V0, Slot(1)), AddSp(4)];
    assert UnspillTop(saved.1) == Ok((Unspill([V0]), []));
    var middle := [Li(V0, Literal(syscalls[n])), Syscall(None), Sw(AtLabel("_return"), V0)];
    assert Lower(Syscall(Some(n)), ctx, syscalls) == Ok(saved.0 + middle + Unspill([V0]));
    assert saved.0 + middle + Unspill([V0]) == SyscallCode(syscalls[n]);
  }

  /** `push r` is a depth-0 spill; `pop r` is an unspill of r alone and a
      bare `pop` only releases one word. */
  lemma LowerPushPopShapes(ctx: Context, syscalls: map<string, string>, r: Register)
    ensures Lower(Push(r), ctx, syscalls) == Ok(SpillCode([r], 0))
    ensures Lower(Pop(Some(r)), ctx, syscalls) == Ok(Unspill([r]))
    ensures Lower(Pop(None), ctx, syscalls) == Ok([AddSp(4)])
  {
  }

  /** `ret` restores `$s0`…`$s7` from words 1…8, releases 32 bytes and jumps
      through `$ra`. */
  lemma LowerRetShape(ctx: Context, syscalls: map<string, string>)
    ensures Lower(Ret, ctx, syscalls) == Ok(Loads(ProcedureSpills, 1) + [AddSp(32), Jr(RA)])
  {
    var loads := Loads(ProcedureSpills, 1);
    assert |ProcedureSpills| == 8;
    assert Unspill(ProcedureSpills) == loads + [AddSp(32)];
    assert Lower(Ret, ctx, syscalls) == Ok(loads + [AddSp(32)] + [Jr(RA)]);
    assert loads + [AddSp(32)] + [Jr(RA)] == loads + [AddSp(32), Jr(RA)];
  }

  /** Lowering fails exactly on a call to a procedure missing from the table
      and on a syscall name missing from the syscall table. */
  lemma LowerFails(i: Instruction, ctx: Context, syscalls: map<string, string>)
    ensures Lower(i, ctx, syscalls).Err? <==>
      (i.Call? && i.proc !in ctx.procedures) || (i.Syscall? && i.name.Some? && i.name.value !in syscalls)
    ensures i.Call? && i.proc !in ctx.procedures ==> Lower(i, ctx, syscalls) == Err(KeyError(i.proc))
    ensures i.Syscall? && i.name.Some? && i.name.value !in syscalls ==>
      Lower(i, ctx, syscalls) == Err(ValueError("Unknown syscall " + i.name.value))
  {
    match i
    case Call(p) =>
      if p in ctx.procedures {
        LowerCallShape(ctx, syscalls, p);
      }
    case Syscall(Some(n)) =>
      if n in syscalls {
        LowerSyscallShape(ctx, syscalls, n);
      }
    case _ =>
  }

  lemma {:induction false} StoresNative(regs: seq<Register>, first: int)
    ensures AllNative(Stores(regs, first))
    decreases |regs|
  {
    if |regs| > 0 {
      StoresNative(regs[1..], first + 1);
    }
  }

  lemma {:induction false} LoadsNative(regs: seq<Register>, first: int)
    ensures AllNative(Loads(regs, first))
    decreases |regs|
  {
    if |regs| > 0 {
      LoadsNative(regs[1..], first + 1);
    }
  }

  lemma {:induction false} ShiftsNative(depth: nat)
    ensures AllNative(Shifts(depth))
  {
    if depth > 0 {
      ShiftsNative(depth - 1);
    }
  }

  /** Spill code at any depth is native. */
  lemma {:induction false} SpillNative(regs: seq<Register>, depth: nat)
    ensures AllNative(SpillCode(regs, depth))
    decreases |regs|
  {
    if |regs| > 0 {
      if depth == 0 {
        StoresNative(regs, 1);
      } else if |regs| > 1 {
        SpillCodeSplit(regs, depth);
        SpillNative([regs[|regs| - 1]], depth);
        SpillNative(regs[..|regs| - 1], depth);
      } else {
        SingleSpillCode(regs[0], depth);
        ShiftsNative(depth);
      }
    }
  }

  lemma CallNative(ctx: Context, syscalls: map<string, string>, p: string)
    requires p in ctx.procedures
    ensures AllNative(CallCode(p, SpDepth(ctx.procedures[p])))
  {
    var d := SpDepth(ctx.procedures[p]);
    SpillNative([RA], d);
    LoadsNative([RA], 1);
    assert CallCode(p, d) == SpillCode([RA], d) + [Jal(p)] + (Loads([RA], 1) + [AddSp(4)]);
  }

  lemma RetNative()
    ensures AllNative(Loads(ProcedureSpills, 1) + [AddSp(32), Jr(RA)])
  {
    LoadsNative(ProcedureSpills, 1);
  }

  lemma PushPopNative(ctx: Context, syscalls: map<string, string>, i: Instruction)
    requires i.Push? || i.Pop?
    ensures AllNative(Lower(i, ctx, syscalls).value)
  {
    if i.Push? {
      LowerPushPopShapes(ctx, syscalls, i.pushed);
      SpillNative([i.pushed], 0);
    } else if i.popped.Some? {
      LowerPushPopShapes(ctx, syscalls, i.popped.value);
      LoadsNative([i.popped.value], 1);
    }
  }

  /** The output of every pseudo-instruction's lowering is native. */
  lemma LowerPseudoNative(i: Instruction, ctx: Context, syscalls: map<string, string>)
    requires !IsNative(i) && Lower(i, ctx, syscalls).Ok?
    ensures AllNative(Lower(i, ctx, syscalls).value)
  {
    if i.Push? || i.Pop? {
      PushPopNative(ctx, syscalls, i);
    } else if i.Call? {
      LowerCallShape(ctx, syscalls, i.proc);
      CallNative(ctx, syscalls, i.proc);
    } else if i.Syscall? {
      LowerSyscallShape(ctx, syscalls, i.name.value);
    } else if i.Ret? {
      LowerRetShape(ctx, syscalls);
      RetNative();
    }
  }

  /** Lowering leaves nothing to lower: its output is native, and a native
      instruction lowers to itself. */
  lemma LowerNative(i: Instruction, ctx: Context, syscalls: map<string, string>)
    ensures Lower(i, ctx, syscalls).Ok? ==> AllNative(Lower(i, ctx, syscalls).value)
    ensures IsNative(i) ==> Lower(i, ctx, syscalls) == Ok([i])
  {
    if !IsNative(i) && Lower(i, ctx, syscalls).Ok? {
      LowerPseudoNative(i, ctx, syscalls);
    }
  }

  /** Lowering the output of lowering again changes nothing. */
  lemma LowerIdempotent(i: Instruction, ctx: Context, syscalls: map<string, string>)
    requires Lower(i, ctx, syscalls).Ok?
    ensures forall k :: 0 <= k < |Lower(i, ctx, syscalls).value| ==>
      var j := Lower(i, ctx, syscalls).value[k];
      Lower(j, ctx, syscalls) == Ok([j])
  {
    LowerNative(i, ctx, syscalls);
    var code := Lower(i, ctx, syscalls).value;
    forall k | 0 <= k < |code|
      ensures Lower(code[k], ctx, syscalls) == Ok([code[k]])
    {
      LowerNative(code[k], ctx, syscalls);
    }
  }

  /** The mnemonic starts with a visible character. */
  predicate Visible(i: Instruction)
  {
    |Mnemonic(i)| > 0 && !IsSpace(Mnemonic(i)[0])
  }

  /** Rendered lines of instructions with visible mnemonics survive the
      source's filter of whitespace-only lines unchanged. */
  lemma VisibleLinesKept(code: seq<Instruction>)
    requires forall k :: 0 <= k < |code| ==> Visible(code[k])
    ensures DropBlank(RenderLines(code)) == RenderLines(code)
  {
    var lines := RenderLines(code);
    forall k | 0 <= k < |lines|
      ensures !IsBlank(lines[k])
    {
      RenderInstructionShape(code[k]);
    }
    DropBlankKeepsNonBlank(lines);
  }

  /** The lines of a named syscall's lowering are never blank, so the
      source's filter of whitespace-only lines keeps all seven of them. */
  lemma SyscallLinesKept(id: string)
    ensures |RenderLines(SyscallCode(id))| == 7
    ensures DropBlank(RenderLines(SyscallCode(id))) == RenderLines(SyscallCode(id))
  {
    var code := SyscallCode(id);
    assert Visible(code[0]) && Visible(code[1]) && Visible(code[2]) && Visible(code[3]);
    assert Visible(code[4]) && Visible(code[5]) && Visible(code[6]);
    VisibleLinesKept(code);
  }
}
