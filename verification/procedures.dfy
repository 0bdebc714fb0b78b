/** Code generation for procedures and sections (mippet/nodes/procedures.py):
    the documentation block and callee-saved prologue of a procedure, the
    entry sequence of a text section, the kernel-text header, and the data
    section with its reserved `_return` word. Output is a list of lines. */
module Procedures {
  import opened Wrappers
  import opened Text
  import opened Ast
  import opened Render
  import opened Convention
  import opened Spill
  import opened Instructions

  function Emits(code: seq<Instruction>): (lines: seq<Line>)
    ensures |lines| == |code|
    ensures forall k :: 0 <= k < |code| ==> lines[k] == Emit(code[k])
  {
    seq(|code|, k requires 0 <= k < |code| => Emit(code[k]))
  }

  function Comments(texts: seq<string>): (lines: seq<Line>)
    ensures |lines| == |texts|
    ensures forall k :: 0 <= k < |texts| ==> lines[k] == CommentLine(texts[k])
  {
    seq(|texts|, k requires 0 <= k < |texts| => CommentLine(texts[k]))
  }

  // ---------------------------------------------------------------------
  // Procedures.

  /** The comments of every doc comment, in order. */
  function DocText(docs: seq<DocComment>): seq<string>
  {
    if |docs| == 0 then [] else docs[0].comments + DocText(docs[1..])
  }

  /** One `<operand>: <name>` comment per parameter, in declaration order. */
  function ParameterText(params: Parameters): (r: seq<string>)
    ensures |r| == |params|
  {
    seq(|params|, k requires 0 <= k < |params| => RenderOperand(params[k].1) + ": " + params[k].0)
  }

  /** The documentation block: the doc comments, then, when there are
      parameters, an empty comment and one comment per parameter. */
  function ProcedureDocs(p: Procedure): seq<string>
  {
    DocText(p.documentation) + (if |p.parameters| > 0 then [""] + ParameterText(p.parameters) else [])
  }

  /** The prologue: `$s0`…`$s7` spilled at the depth of the procedure's own
      `$sp`-relative parameters, so those stay addressable. */
  function Prologue(p: Procedure): seq<Instruction>
  {
    SpillCode(ProcedureSpills, SpDepth(p.parameters))
  }

  /** `ProcedureNode.construct`: documentation, label, prologue. */
  function ProcedureLines(p: Procedure): seq<Line>
  {
    Comments(ProcedureDocs(p)) + [LabelDecl(p.name)] + Emits(Prologue(p))
  }

  // ---------------------------------------------------------------------
  // Statement lists.

  function StatementLines(st: Statement, ctx: Context, syscalls: map<string, string>): Result<seq<Line>>
  {
    match st
    case LabelStmt(n) => Ok([LabelDecl(n)])
    case InstrStmt(i) =>
      (match Lower(i, ctx, syscalls)
       case Ok(code) => Ok(Emits(code))
       case Err(e) => Err(e))
    case ProcStmt(p) => Ok(ProcedureLines(p))
    case CommentStmt(c) => Ok([CommentLine(c)])
  }

  /** The results of constructing each element of a list, joined in
      order; the first error ends the whole construction. */
  function Collect(results: seq<Result<seq<Line>>>): Result<seq<Line>>
  {
    if |results| == 0 then Ok([])
    else
      match results[0]
      case Err(e) => Err(e)
      case Ok(first) =>
        match Collect(results[1..])
        case Err(e) => Err(e)
        case Ok(rest) => Ok(first + rest)
  }

  function StatementResults(body: seq<Statement>, ctx: Context, syscalls: map<string, string>): (r: seq<Result<seq<Line>>>)
    ensures |r| == |body|
    ensures forall k :: 0 <= k < |body| ==> r[k] == StatementLines(body[k], ctx, syscalls)
  {
    seq(|body|, k requires 0 <= k < |body| => StatementLines(body[k], ctx, syscalls))
  }

  /** `construct` of a statement list. */
  function BodyLines(body: seq<Statement>, ctx: Context, syscalls: map<string, string>): Result<seq<Line>>
  {
    Collect(StatementResults(body, ctx, syscalls))
  }

  // ---------------------------------------------------------------------
  // Sections.

  /** The directive naming a data definition's kind. */
  function DataDirective(d: DataDef): string
  {
    match d
    case StringDef(_, nullTerminated) => if nullTerminated then ".asciiz" else ".ascii"
    case _ => ".word"
  }

  /** `construct` of a data definition: its directive line, then its
      payload. */
  function DefinitionLines(d: DataDef): seq<Line>
  {
    [Directive(DataDirective(d)), Value(d)]
  }

  /** Each binding as its label followed by its definition. */
  function BindingLines(bindings: seq<(string, DataDef)>): seq<Line>
  {
    if |bindings| == 0 then [] else [LabelDecl(bindings[0].0)] + DefinitionLines(bindings[0].1) + BindingLines(bindings[1..])
  }

  /** `construct` of each kind of section. A text section opens with its
      type, the label `entry`, `call main` and `syscall halt`; a kernel-text
      section with `.ktext <address>` alone; a data section with `.data` and
      the reserved word `_return: .word 0`; every data definition is its
      directive line followed by its payload. Text sections end with a newline
      element. */
  function SectionLines(sec: Section, ctx: Context, syscalls: map<string, string>): Result<seq<Line>>
  {
    match sec
    case TextSection(typ, body) =>
      var callMain :- Lower(Call("main"), ctx, syscalls);
      var halt :- Lower(Syscall(Some("halt")), ctx, syscalls);
      var lines :- BodyLines(body, ctx, syscalls);
      Ok([Directive(typ), LabelDecl("entry")] + Emits(callMain) + Emits(halt) + lines + [Directive("\n")])
    case KernelText(address, body) =>
      var lines :- BodyLines(body, ctx, syscalls);
      Ok([Directive(".ktext " + RenderNumber(address))] + lines + [Directive("\n")])
    case DataSection(bindings) =>
      Ok([Directive(".data"), LabelDecl("_return")] + DefinitionLines(WordNumber(0)) + BindingLines(bindings))
  }

  // ---------------------------------------------------------------------
  // Laws.

  /** The layout of the documentation block, position by position: the doc
      comments, then an empty separator and the parameters in declaration
      order, each as `<operand>: <name>`; with no parameters there is no
      separator. It describes the format only. */
  lemma ProcedureDocsShape(p: Procedure)
    ensures var docs, n := ProcedureDocs(p), |DocText(p.documentation)|;
      && docs[..n] == DocText(p.documentation)
      && (|p.parameters| == 0 ==> |docs| == n)
      && (|p.parameters| > 0 ==> |docs| == n + 1 + |p.parameters| && docs[n] == "")
      && (forall k :: 0 <= k < |p.parameters| ==>
            docs[n + 1 + k] == RenderOperand(p.parameters[k].1) + ": " + p.parameters[k].0)
  {
  }

  /** The prologue spills the eight callee-saved registers at the number of
      `$sp`-relative parameters: nine instructions at depth 0, and 16d + 16
      at depth d > 0. The group pushed first is the whole tuple. */
  lemma PrologueShape(p: Procedure)
    ensures SpDepth(p.parameters) == 0 ==> |Prologue(p)| == 9
    ensures SpDepth(p.parameters) > 0 ==> |Prologue(p)| == 16 * SpDepth(p.parameters) + 16
    ensures |SpillGroups(ProcedureSpills, SpDepth(p.parameters))| > 0
    ensures SpillGroups(ProcedureSpills, SpDepth(p.parameters))[0] == ProcedureSpills
  {
    ProcedureSpillsWellFormed();
    SpillCodeLength(ProcedureSpills, SpDepth(p.parameters));
    SpillGroupCount(ProcedureSpills, SpDepth(p.parameters));
  }

  /** Where the parts of `a + [x] + b` sit. */
  lemma Layout<T>(a: seq<T>, x: T, b: seq<T>)
    ensures |a + [x] + b| == |a| + 1 + |b|
    ensures forall k :: 0 <= k < |a| ==> (a + [x] + b)[k] == a[k]
    ensures (a + [x] + b)[|a|] == x
    ensures forall k :: 0 <= k < |b| ==> (a + [x] + b)[|a| + 1 + k] == b[k]
  {
  }

  /** A procedure renders its documentation, then its label, then the
      prologue, and nothing else. */
  lemma ProcedureLinesShape(p: Procedure)
    ensures var lines, n := ProcedureLines(p), |ProcedureDocs(p)|;
      && |lines| == n + 1 + |Prologue(p)|
      && (forall k :: 0 <= k < n ==> lines[k] == CommentLine(ProcedureDocs(p)[k]))
      && lines[n] == LabelDecl(p.name)
      && (forall k :: 0 <= k < |Prologue(p)| ==> lines[n + 1 + k] == Emit(Prologue(p)[k]))
  {
    Layout(Comments(ProcedureDocs(p)), LabelDecl(p.name), Emits(Prologue(p)));
  }

  lemma {:induction false} CollectFails(results: seq<Result<seq<Line>>>)
    ensures Collect(results).Err? <==> exists k :: 0 <= k < |results| && results[k].Err?
    decreases |results|
  {
    if |results| > 0 {
      CollectFails(results[1..]);
      if results[0].Ok? {
        if exists k :: 0 <= k < |results| && results[k].Err? {
          var k :| 0 <= k < |results| && results[k].Err?;
          assert results[1..][k - 1] == results[k];
        }
        if exists k :: 0 <= k < |results[1..]| && results[1..][k].Err? {
          var k :| 0 <= k < |results[1..]| && results[1..][k].Err?;
          assert results[k + 1] == results[1..][k];
        }
      }
    }
  }

  lemma {:induction false} CollectConcat(a: seq<Result<seq<Line>>>, b: seq<Result<seq<Line>>>)
    requires Collect(a).Ok? && Collect(b).Ok?
    ensures Collect(a + b) == Ok(Collect(a).value + Collect(b).value)
    decreases |a|
  {
    if |a| == 0 {
      assert a + b == b;
      assert [] + Collect(b).value == Collect(b).value;
    } else {
      assert (a + b)[1..] == a[1..] + b;
      assert (a + b)[0] == a[0];
      CollectConcat(a[1..], b);
      assert a[0].value + (Collect(a[1..]).value + Collect(b).value)
          == (a[0].value + Collect(a[1..]).value) + Collect(b).value;
    }
  }

  /** A body fails exactly when one of its statements fails. */
  lemma BodyLinesFails(body: seq<Statement>, ctx: Context, syscalls: map<string, string>)
    ensures BodyLines(body, ctx, syscalls).Err? <==>
      exists k :: 0 <= k < |body| && StatementLines(body[k], ctx, syscalls).Err?
  {
    CollectFails(StatementResults(body, ctx, syscalls));
  }

  /** The lines of a concatenated body are the two bodies' lines, in order. */
  lemma BodyLinesConcat(a: seq<Statement>, b: seq<Statement>, ctx: Context, syscalls: map<string, string>)
    requires BodyLines(a, ctx, syscalls).Ok? && BodyLines(b, ctx, syscalls).Ok?
    ensures BodyLines(a + b, ctx, syscalls) == Ok(BodyLines(a, ctx, syscalls).value + BodyLines(b, ctx, syscalls).value)
  {
    assert StatementResults(a + b, ctx, syscalls) == StatementResults(a, ctx, syscalls) + StatementResults(b, ctx, syscalls);
    CollectConcat(StatementResults(a, ctx, syscalls), StatementResults(b, ctx, syscalls));
  }

  /** A text section fails when `main` is not a known procedure (checked
      first), when `halt` is not in the syscall table, or when its body
      fails; otherwise it is its type, `entry:`, the call of `main` at main's
      spill depth, the `halt` syscall, the body, and a final newline. */
  lemma TextSectionShape(typ: string, body: seq<Statement>, ctx: Context, syscalls: map<string, string>)
    ensures "main" !in ctx.procedures ==> SectionLines(TextSection(typ, body), ctx, syscalls) == Err(KeyError("main"))
    ensures "main" in ctx.procedures && "halt" !in syscalls ==>
      SectionLines(TextSection(typ, body), ctx, syscalls) == Err(ValueError("Unknown syscall halt"))
    ensures "main" in ctx.procedures && "halt" in syscalls && BodyLines(body, ctx, syscalls).Ok? ==>
      SectionLines(TextSection(typ, body), ctx, syscalls) ==
        Ok([Directive(typ), LabelDecl("entry")]
           + Emits(CallCode("main", SpDepth(ctx.procedures["main"])))
           + Emits(SyscallCode(syscalls["halt"]))
           + BodyLines(body, ctx, syscalls).value
           + [Directive("\n")])
    ensures BodyLines(body, ctx, syscalls).Err? ==> SectionLines(TextSection(typ, body), ctx, syscalls).Err?
  {
    LowerFails(Call("main"), ctx, syscalls);
    LowerFails(Syscall(Some("halt")), ctx, syscalls);
    if "main" in ctx.procedures {
      LowerCallShape(ctx, syscalls, "main");
    }
    assert "Unknown syscall " + "halt" == "Unknown syscall halt";
    if "halt" in syscalls {
      LowerSyscallShape(ctx, syscalls, "halt");
    }
  }

  /** A kernel-text section has no entry sequence: its header, its body, a
      final newline. */
  lemma KernelTextShape(address: int, body: seq<Statement>, ctx: Context, syscalls: map<string, string>)
    ensures SectionLines(KernelText(address, body), ctx, syscalls).Err? <==> BodyLines(body, ctx, syscalls).Err?
    ensures BodyLines(body, ctx, syscalls).Ok? ==>
      SectionLines(KernelText(address, body), ctx, syscalls) ==
        Ok([Directive(".ktext " + RenderNumber(address))] + BodyLines(body, ctx, syscalls).value + [Directive("\n")])
  {
  }

  lemma {:induction false} BindingLinesShape(bindings: seq<(string, DataDef)>)
    ensures |BindingLines(bindings)| == 3 * |bindings|
    ensures forall k :: 0 <= k < |bindings| ==>
      && BindingLines(bindings)[3 * k] == LabelDecl(bindings[k].0)
      && BindingLines(bindings)[3 * k + 1] == Directive(DataDirective(bindings[k].1))
      && BindingLines(bindings)[3 * k + 2] == Value(bindings[k].1)
    decreases |bindings|
  {
    if |bindings| > 0 {
      BindingLinesShape(bindings[1..]);
      var lines, rest := BindingLines(bindings), BindingLines(bindings[1..]);
      assert lines == [LabelDecl(bindings[0].0), Directive(DataDirective(bindings[0].1)), Value(bindings[0].1)] + rest;
      forall k | 1 <= k < |bindings|
        ensures lines[3 * k] == LabelDecl(bindings[k].0)
        ensures lines[3 * k + 1] == Directive(DataDirective(bindings[k].1))
        ensures lines[3 * k + 2] == Value(bindings[k].1)
      {
        assert bindings[1..][k - 1] == bindings[k];
        assert lines[3 * k] == rest[3 * (k - 1)];
        assert lines[3 * k + 1] == rest[3 * (k - 1) + 1];
        assert lines[3 * k + 2] == rest[3 * (k - 1) + 2];
      }
    }
  }

  /** A data section never fails: `.data`, the reserved `_return` word
      holding 0, then each binding's label and definition in order, every
      definition as its directive line and its payload. */
  lemma DataSectionShape(bindings: seq<(string, DataDef)>, ctx: Context, syscalls: map<string, string>)
    ensures SectionLines(DataSection(bindings), ctx, syscalls).Ok?
    ensures var lines := SectionLines(DataSection(bindings), ctx, syscalls).value;
      && |lines| == 4 + 3 * |bindings|
      && lines[..4] == [Directive(".data"), LabelDecl("_return"), Directive(".word"), Value(WordNumber(0))]
      && (forall k :: 0 <= k < |bindings| ==>
            && lines[4 + 3 * k] == LabelDecl(bindings[k].0)
            && lines[5 + 3 * k] == Directive(DataDirective(bindings[k].1))
            && lines[6 + 3 * k] == Value(bindings[k].1))
  {
    BindingLinesShape(bindings);
    var head := [Directive(".data"), LabelDecl("_return")] + DefinitionLines(WordNumber(0));
    assert head == [Directive(".data"), LabelDecl("_return"), Directive(".word"), Value(WordNumber(0))];
    var lines := head + BindingLines(bindings);
    assert SectionLines(DataSection(bindings), ctx, syscalls) == Ok(lines);
    forall k | 0 <= k < |bindings|
      ensures lines[4 + 3 * k] == LabelDecl(bindings[k].0)
      ensures lines[5 + 3 * k] == Directive(DataDirective(bindings[k].1))
      ensures lines[6 + 3 * k] == Value(bindings[k].1)
    {
      assert lines[4 + 3 * k] == BindingLines(bindings)[3 * k];
      assert lines[5 + 3 * k] == BindingLines(bindings)[3 * k + 1];
      assert lines[6 + 3 * k] == BindingLines(bindings)[3 * k + 2];
    }
  }

  /** Every emitted instruction is a machine instruction. */
  predicate NativeLines(lines: seq<Line>)
  {
    forall k :: 0 <= k < |lines| && lines[k].Emit? ==> IsNative(lines[k].instr)
  }

  lemma NativeLinesConcat(a: seq<Line>, b: seq<Line>)
    requires NativeLines(a) && NativeLines(b)
    ensures NativeLines(a + b)
  {
    forall k | 0 <= k < |a + b| && (a + b)[k].Emit?
      ensures IsNative((a + b)[k].instr)
    {
      if k >= |a| {
        assert (a + b)[k] == b[k - |a|];
      }
    }
  }

  lemma EmitsNative(code: seq<Instruction>)
    requires AllNative(code)
    ensures NativeLines(Emits(code))
  {
  }

  /** A procedure emits only its prologue, which is native. */
  lemma ProcedureNative(p: Procedure)
    ensures NativeLines(ProcedureLines(p))
  {
    SpillNative(ProcedureSpills, SpDepth(p.parameters));
    var docs, prologue := Comments(ProcedureDocs(p)), Emits(Prologue(p));
    NativeLinesConcat(docs, [LabelDecl(p.name)]);
    NativeLinesConcat(docs + [LabelDecl(p.name)], prologue);
  }

  lemma StatementNative(st: Statement, ctx: Context, syscalls: map<string, string>)
    ensures StatementLines(st, ctx, syscalls).Ok? ==> NativeLines(StatementLines(st, ctx, syscalls).value)
  {
    match st
    case InstrStmt(i) =>
      LowerNative(i, ctx, syscalls);
    case ProcStmt(p) =>
      ProcedureNative(p);
    case _ =>
  }

  lemma {:induction false} CollectNative(results: seq<Result<seq<Line>>>)
    requires forall k :: 0 <= k < |results| && results[k].Ok? ==> NativeLines(results[k].value)
    ensures Collect(results).Ok? ==> NativeLines(Collect(results).value)
    decreases |results|
  {
    if |results| > 0 && Collect(results).Ok? {
      assert results[0].Ok?;
      forall k | 0 <= k < |results[1..]| && results[1..][k].Ok?
        ensures NativeLines(results[1..][k].value)
      {
        assert results[1..][k] == results[k + 1];
      }
      CollectNative(results[1..]);
      NativeLinesConcat(results[0].value, Collect(results[1..]).value);
    }
  }

  lemma BodyNative(body: seq<Statement>, ctx: Context, syscalls: map<string, string>)
    ensures BodyLines(body, ctx, syscalls).Ok? ==> NativeLines(BodyLines(body, ctx, syscalls).value)
  {
    var results := StatementResults(body, ctx, syscalls);
    forall k | 0 <= k < |results| && results[k].Ok?
      ensures NativeLines(results[k].value)
    {
      StatementNative(body[k], ctx, syscalls);
    }
    CollectNative(results);
  }

  /** Every section that constructs emits only machine instructions: no
      push, pop, call, named syscall, ret or immediate multiply/modulo
      survives code generation. */
  lemma SectionNative(sec: Section, ctx: Context, syscalls: map<string, string>)
    ensures SectionLines(sec, ctx, syscalls).Ok? ==> NativeLines(SectionLines(sec, ctx, syscalls).value)
  {
    if SectionLines(sec, ctx, syscalls).Ok? {
      match sec
      case TextSection(typ, body) =>
        BodyNative(body, ctx, syscalls);
        LowerNative(Call("main"), ctx, syscalls);
        LowerNative(Syscall(Some("halt")), ctx, syscalls);
        var main := Emits(Lower(Call("main"), ctx, syscalls).value);
        var halt := Emits(Lower(Syscall(Some("halt")), ctx, syscalls).value);
        var body' := BodyLines(body, ctx, syscalls).value;
        var head := [Directive(typ), LabelDecl("entry")];
        NativeLinesConcat(head, main);
        NativeLinesConcat(head + main, halt);
        NativeLinesConcat(head + main + halt, body');
        NativeLinesConcat(head + main + halt + body', [Directive("\n")]);
      case KernelText(address, body) =>
        BodyNative(body, ctx, syscalls);
        var body' := BodyLines(body, ctx, syscalls).value;
        NativeLinesConcat([Directive(".ktext " + RenderNumber(address))], body');
        NativeLinesConcat([Directive(".ktext " + RenderNumber(address))] + body', [Directive("\n")]);
      case DataSection(bindings) =>
        DataSectionShape(bindings, ctx, syscalls);
        var lines := SectionLines(sec, ctx, syscalls).value;
        forall k | 0 <= k < |lines| ensures !lines[k].Emit? {
          if k < 4 {
            assert lines[k] == lines[..4][k];
          } else {
            var j := (k - 4) / 3;
            if k == 4 + 3 * j {
              assert lines[k] == LabelDecl(bindings[j].0);
            } else if k == 5 + 3 * j {
              assert lines[k] == Directive(DataDirective(bindings[j].1));
            } else {
              assert lines[k] == Value(bindings[j].1);
            }
          }
        }
    }
  }

  /** The directive line before each definition in a data section says
      what it holds: `.asciiz` exactly for a null-terminated string, `.ascii`
      exactly for any other string, and `.word` exactly for a number or an
      array, the reserved `_return` word included. */
  lemma DataDirectiveCases(bindings: seq<(string, DataDef)>, ctx: Context, syscalls: map<string, string>)
    ensures SectionLines(DataSection(bindings), ctx, syscalls).Ok?
    ensures |SectionLines(DataSection(bindings), ctx, syscalls).value| == 4 + 3 * |bindings|
    ensures var lines := SectionLines(DataSection(bindings), ctx, syscalls).value;
      && lines[2] == Directive(".word")
      && forall k :: 0 <= k < |bindings| ==>
        var d, directive := bindings[k].1, lines[5 + 3 * k];
        && (directive == Directive(".asciiz") <==> d.StringDef? && d.nullTerminated)
        && (directive == Directive(".ascii") <==> d.StringDef? && !d.nullTerminated)
        && (directive == Directive(".word") <==> !d.StringDef?)
  {
    DataSectionShape(bindings, ctx, syscalls);
  }
}
