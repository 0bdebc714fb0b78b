/** The registration pass: one walk over the tree that builds the `Context`,
    recording each procedure's parameters and counting how often each symbol
    is used (`register` in mippet/nodes/instruction.py and
    mippet/nodes/procedures.py). An identifier operand is one use; a label or
    a procedure declares its name with no use. */
module Registration {
  import opened Wrappers
  import opened Ast
  import opened Instructions

  /** The use count of a symbol; an absent symbol counts 0. */
  function Count(ctx: Context, n: string): int
  {
    if n in ctx.symbols then ctx.symbols[n] else 0
  }

  /** An identifier operand: one more use of the name. */
  function Use(ctx: Context, n: string): Context
  {
    ctx.(symbols := ctx.symbols[n := Count(ctx, n) + 1])
  }

  /** A label or procedure name: an entry with count 0 unless one exists. */
  function Declare(ctx: Context, n: string): Context
  {
    if n in ctx.symbols then ctx else ctx.(symbols := ctx.symbols[n := 0])
  }

  function RegisterOperand(o: Operand, ctx: Context): Context
  {
    if o.Ident? then Use(ctx, o.name) else ctx
  }

  function RegisterOperands(os: seq<Operand>, ctx: Context): Context
    decreases |os|
  {
    if |os| == 0 then ctx else RegisterOperands(os[1..], RegisterOperand(os[0], ctx))
  }

  /** `InstructionNode.register`: each operand of `arguments`, in order. */
  function RegisterInstruction(i: Instruction, ctx: Context): Context
  {
    RegisterOperands(Arguments(i), ctx)
  }

  /** `ProcedureNode.register`: the parameters replace any earlier entry
      under the name, and the name is declared. */
  function RegisterProcedure(p: Procedure, ctx: Context): Context
  {
    Declare(ctx.(procedures := ctx.procedures[p.name := p.parameters]), p.name)
  }

  function RegisterStatement(st: Statement, ctx: Context): Context
  {
    match st
    case LabelStmt(n) => Declare(ctx, n)
    case InstrStmt(i) => RegisterInstruction(i, ctx)
    case ProcStmt(p) => RegisterProcedure(p, ctx)
    case CommentStmt(_) => ctx
  }

  /** `register` of a list: each element in order, threading the Context. */
  function RegisterStatements(body: seq<Statement>, ctx: Context): Context
    decreases |body|
  {
    if |body| == 0 then ctx else RegisterStatements(body[1..], RegisterStatement(body[0], ctx))
  }

  /** A data section declares each label in turn; a data definition holds no
      identifier and registers nothing. */
  function RegisterBindings(bindings: seq<(string, DataDef)>, ctx: Context): Context
    decreases |bindings|
  {
    if |bindings| == 0 then ctx else RegisterBindings(bindings[1..], Declare(ctx, bindings[0].0))
  }

  function RegisterSection(sec: Section, ctx: Context): Context
  {
    match sec
    case TextSection(_, body) => RegisterStatements(body, ctx)
    case KernelText(_, body) => RegisterStatements(body, ctx)
    case DataSection(bindings) => RegisterBindings(bindings, ctx)
  }

  function RegisterProgram(sections: seq<Section>, ctx: Context): Context
    decreases |sections|
  {
    if |sections| == 0 then ctx else RegisterProgram(sections[1..], RegisterSection(sections[0], ctx))
  }

  // ---------------------------------------------------------------------
  // Reference definitions: what a body uses and declares.

  /** How many operands are the identifier n. */
  function Occurrences(os: seq<Operand>, n: string): nat
  {
    if |os| == 0 then 0 else (if os[0] == Ident(n) then 1 else 0) + Occurrences(os[1..], n)
  }

  /** How many times the statements use n as an instruction operand. */
  function Uses(body: seq<Statement>, n: string): nat
  {
    if |body| == 0 then 0
    else (if body[0].InstrStmt? then Occurrences(Arguments(body[0].instr), n) else 0) + Uses(body[1..], n)
  }

  /** Every name the statements declare or use. */
  function Names(body: seq<Statement>): set<string>
  {
    if |body| == 0 then {}
    else
      var here := match body[0]
        case LabelStmt(n) => {n}
        case InstrStmt(i) => set k | 0 <= k < |Arguments(i)| && Arguments(i)[k].Ident? :: Arguments(i)[k].name
        case ProcStmt(p) => {p.name}
        case CommentStmt(_) => {};
      here + Names(body[1..])
  }

  /** The parameters of the last procedure named n among the statements. */
  function LastDeclaration(body: seq<Statement>, n: string): Option<Parameters>
  {
    if |body| == 0 then None
    else
      var later := LastDeclaration(body[1..], n);
      if later.Some? then later
      else if body[0].ProcStmt? && body[0].proc.name == n then Some(body[0].proc.parameters)
      else None
  }

  // ---------------------------------------------------------------------
  // Laws.

  /** Registering operands adds their identifier occurrences to each count,
      adds exactly their identifiers as symbols, and leaves the procedure
      table alone. */
  lemma {:induction false} RegisterOperandsEffect(os: seq<Operand>, ctx: Context)
    ensures forall n :: Count(RegisterOperands(os, ctx), n) == Count(ctx, n) + Occurrences(os, n)
    ensures RegisterOperands(os, ctx).symbols.Keys
         == ctx.symbols.Keys + set k | 0 <= k < |os| && os[k].Ident? :: os[k].name
    ensures RegisterOperands(os, ctx).procedures == ctx.procedures
    decreases |os|
  {
    if |os| > 0 {
      var next := RegisterOperand(os[0], ctx);
      RegisterOperandsEffect(os[1..], next);
      var idents := set k | 0 <= k < |os| && os[k].Ident? :: os[k].name;
      var rest := set k | 0 <= k < |os[1..]| && os[1..][k].Ident? :: os[1..][k].name;
      assert idents == (if os[0].Ident? then {os[0].name} else {}) + rest by {
        forall x | x in idents
          ensures x in (if os[0].Ident? then {os[0].name} else {}) + rest
        {
          var k :| 0 <= k < |os| && os[k].Ident? && os[k].name == x;
          if k > 0 {
            assert os[1..][k - 1] == os[k];
          }
        }
        forall x | x in rest
          ensures x in idents
        {
          var k :| 0 <= k < |os[1..]| && os[1..][k].Ident? && os[1..][k].name == x;
          assert os[k + 1] == os[1..][k];
        }
      }
    }
  }

  /** One statement: counts grow by its uses and the label, procedure or
      identifiers it names become symbols. */
  lemma RegisterStatementEffect(st: Statement, ctx: Context)
    ensures forall n ::
      Count(RegisterStatement(st, ctx), n) == Count(ctx, n) + (if st.InstrStmt? then Occurrences(Arguments(st.instr), n) else 0)
    ensures RegisterStatement(st, ctx).symbols.Keys == ctx.symbols.Keys + Names([st])
  {
    assert [st][1..] == [];
    if st.InstrStmt? {
      RegisterOperandsEffect(Arguments(st.instr), ctx);
    }
  }

  /** After registering a body, each symbol's count is its count before plus
      the number of times the body uses it as an operand: labels, procedure
      names, `call` and named `syscall` add nothing. */
  lemma {:induction false} RegisterCounts(body: seq<Statement>, ctx: Context, n: string)
    ensures Count(RegisterStatements(body, ctx), n) == Count(ctx, n) + Uses(body, n)
    decreases |body|
  {
    if |body| > 0 {
      RegisterStatementEffect(body[0], ctx);
      RegisterCounts(body[1..], RegisterStatement(body[0], ctx), n);
    }
  }

  /** After registering a body the symbols are those before plus every name
      the body declares or uses. */
  lemma {:induction false} RegisterDeclares(body: seq<Statement>, ctx: Context)
    ensures RegisterStatements(body, ctx).symbols.Keys == ctx.symbols.Keys + Names(body)
    decreases |body|
  {
    if |body| > 0 {
      RegisterStatementEffect(body[0], ctx);
      RegisterDeclares(body[1..], RegisterStatement(body[0], ctx));
      assert Names([body[0]]) + Names(body[1..]) == Names(body) by {
        assert [body[0]][1..] == [];
      }
    }
  }

  /** After registering a body each procedure maps to the parameters of its
      last declaration in the body, or to what it mapped to before. */
  lemma {:induction false} RegisterProcedures(body: seq<Statement>, ctx: Context, n: string)
    ensures var r := RegisterStatements(body, ctx);
      match LastDeclaration(body, n)
      case Some(ps) => n in r.procedures && r.procedures[n] == ps
      case None => (n in r.procedures <==> n in ctx.procedures) &&
                   (n in ctx.procedures ==> r.procedures[n] == ctx.procedures[n])
    decreases |body|
  {
    if |body| > 0 {
      var next := RegisterStatement(body[0], ctx);
      assert n in next.procedures <==> n in ctx.procedures || (body[0].ProcStmt? && body[0].proc.name == n) by {
        if body[0].InstrStmt? {
          RegisterOperandsEffect(Arguments(body[0].instr), ctx);
        }
      }
      assert body[0].ProcStmt? && body[0].proc.name == n ==> next.procedures[n] == body[0].proc.parameters;
      assert !(body[0].ProcStmt? && body[0].proc.name == n) && n in ctx.procedures ==>
        next.procedures[n] == ctx.procedures[n] by {
        if body[0].InstrStmt? {
          RegisterOperandsEffect(Arguments(body[0].instr), ctx);
        }
      }
      RegisterProcedures(body[1..], next, n);
    }
  }

  /** Registration only adds: no symbol disappears or loses uses, and no
      procedure disappears. */
  lemma RegisterMonotone(body: seq<Statement>, ctx: Context)
    requires forall n :: n in ctx.symbols ==> ctx.symbols[n] >= 0
    ensures var r := RegisterStatements(body, ctx);
      && ctx.symbols.Keys <= r.symbols.Keys
      && (forall n :: n in ctx.symbols ==> r.symbols[n] >= ctx.symbols[n])
      && ctx.procedures.Keys <= r.procedures.Keys
  {
    var r := RegisterStatements(body, ctx);
    RegisterDeclares(body, ctx);
    forall n | n in ctx.symbols
      ensures r.symbols[n] >= ctx.symbols[n]
    {
      RegisterCounts(body, ctx, n);
    }
    forall n | n in ctx.procedures
      ensures n in r.procedures
    {
      RegisterProcedures(body, ctx, n);
    }
  }

  /** Registering a concatenation registers the first part, then the second. */
  lemma {:induction false} RegisterConcat(a: seq<Statement>, b: seq<Statement>, ctx: Context)
    ensures RegisterStatements(a + b, ctx) == RegisterStatements(b, RegisterStatements(a, ctx))
    decreases |a|
  {
    if |a| == 0 {
      assert a + b == b;
    } else {
      assert (a + b)[1..] == a[1..] + b;
      RegisterConcat(a[1..], b, RegisterStatement(a[0], ctx));
    }
  }

  /** Registering the same procedure twice is registering it once, and a
      procedure's registration never resets a count already there. */
  lemma RegisterProcedureIdempotent(p: Procedure, ctx: Context)
    ensures RegisterProcedure(p, RegisterProcedure(p, ctx)) == RegisterProcedure(p, ctx)
    ensures Count(RegisterProcedure(p, ctx), p.name) == Count(ctx, p.name)
    ensures p.name in RegisterProcedure(p, ctx).symbols
  {
    var once := RegisterProcedure(p, ctx);
    assert once.procedures[p.name := p.parameters] == once.procedures;
  }

  /** `call p` is not a use of p: the call class exposes no operands. A jump
      to p is one use. */
  lemma CallIsNotUse(p: string, ctx: Context)
    ensures RegisterInstruction(Call(p), ctx) == ctx
    ensures Count(RegisterInstruction(J(p), ctx), p) == Count(ctx, p) + 1
  {
    RegisterOperandsEffect([Ident(p)], ctx);
  }

  /** A data section declares exactly its labels, with no use of any. */
  lemma {:induction false} RegisterBindingsEffect(bindings: seq<(string, DataDef)>, ctx: Context)
    ensures forall n :: Count(RegisterBindings(bindings, ctx), n) == Count(ctx, n)
    ensures RegisterBindings(bindings, ctx).symbols.Keys
         == ctx.symbols.Keys + set k | 0 <= k < |bindings| :: bindings[k].0
    ensures RegisterBindings(bindings, ctx).procedures == ctx.procedures
    decreases |bindings|
  {
    if |bindings| > 0 {
      RegisterBindingsEffect(bindings[1..], Declare(ctx, bindings[0].0));
      var all := set k | 0 <= k < |bindings| :: bindings[k].0;
      var rest := set k | 0 <= k < |bindings[1..]| :: bindings[1..][k].0;
      assert all == {bindings[0].0} + rest by {
        forall x | x in all
          ensures x in {bindings[0].0} + rest
        {
          var k :| 0 <= k < |bindings| && bindings[k].0 == x;
          if k > 0 {
            assert bindings[1..][k - 1] == bindings[k];
          }
        }
        forall x | x in rest
          ensures x in all
        {
          var k :| 0 <= k < |bindings[1..]| && bindings[1..][k].0 == x;
          assert bindings[k + 1] == bindings[1..][k];
        }
      }
    }
  }
}
