/** The older, flat node model (mippet/nodes.py) that the preprocessor
    rewrites, and how its renderings differ from the newer leaf renderers. */
module LegacyNodes {
  import opened Text
  import opened Ast
  import Render
  import Instructions

  datatype Node =
    | InstructionNode(mnemonic: string, arguments: seq<Node>)
    | RegisterNode(register: string)
    | NumberNode(value: int)
    | IdentifierNode(name: string)
    | LabelNode(labelName: string)
    | SectionNode(typ: string, body: seq<Node>)

  /** `construct` of one node. Registers are printed verbatim, labels as
      `name:` and a section without a trailing newline. */
  function Construct(n: Node): string
    decreases n, 0
  {
    match n
    case InstructionNode(m, args) => "    " + m + " " + Join(", ", ConstructEach(args))
    case RegisterNode(r) => r
    case NumberNode(v) => IntToString(v)
    case IdentifierNode(name) => name
    case LabelNode(name) => name + ":"
    case SectionNode(typ, body) => typ + "\n" + ConstructList(body)
  }

  function ConstructEach(ns: seq<Node>): (r: seq<string>)
    ensures |r| == |ns|
    decreases ns, 0
  {
    if |ns| == 0 then [] else [Construct(ns[0])] + ConstructEach(ns[1..])
  }

  /** `construct` of a list: the elements newline-joined. */
  function ConstructList(ns: seq<Node>): string
    decreases ns, 1
  {
    JoinLines(ConstructEach(ns))
  }

  /** The node form of an operand, where one exists: pointers and raw
      literals have none. */
  predicate Representable(o: Operand)
  {
    o.Num? || o.Ident? || o.Reg?
  }

  function Lift(o: Operand): Node
    requires Representable(o)
  {
    match o
    case Num(n) => NumberNode(n)
    case Ident(n) => IdentifierNode(n)
    case Reg(r) => RegisterNode(r.name)
  }

  function LiftAll(os: seq<Operand>): (r: seq<Node>)
    requires forall k :: 0 <= k < |os| ==> Representable(os[k])
    ensures |r| == |os|
    ensures forall k :: 0 <= k < |os| ==> r[k] == Lift(os[k])
  {
    seq(|os|, k requires 0 <= k < |os| && Representable(os[k]) => Lift(os[k]))
  }

  // ---------------------------------------------------------------------
  // Laws.

  lemma {:induction false} ConstructEachIndex(ns: seq<Node>)
    ensures forall k :: 0 <= k < |ns| ==> ConstructEach(ns)[k] == Construct(ns[k])
    decreases ns
  {
    if |ns| > 0 {
      ConstructEachIndex(ns[1..]);
      forall k | 1 <= k < |ns|
        ensures ConstructEach(ns)[k] == Construct(ns[k])
      {
        assert ns[1..][k - 1] == ns[k];
      }
    }
  }

  /** The older register rendering agrees with the newer one on every
      register except `$0`, which only the newer one spells `$zero`. */
  lemma RegisterRenderings(r: Register)
    ensures Construct(RegisterNode(r.name)) == r.name
    ensures Render.RenderRegister(r) == Construct(RegisterNode(r.name)) <==> r.name != "$0"
  {
  }

  /** The newer label rendering is the older one preceded by a newline. */
  lemma LabelRenderings(name: string)
    ensures Render.RenderLabel(name) == "\n" + Construct(LabelNode(name))
  {
  }

  /** The newer section rendering is the older one followed by a newline. */
  lemma SectionRenderings(typ: string, body: seq<Node>)
    ensures Render.RenderSection(typ, ConstructList(body)) == Construct(SectionNode(typ, body)) + "\n"
  {
  }

  /** A number renders the same in both models and reads back as itself. */
  lemma NumberRenderings(v: int)
    ensures Construct(NumberNode(v)) == Render.RenderNumber(v)
    ensures ParseInt(Construct(NumberNode(v))) == v
  {
    Render.RenderNumberRoundTrip(v);
  }

  /** An operand without `$0` renders the same in both models. */
  lemma OperandRenderings(o: Operand)
    requires Representable(o)
    requires o.Reg? ==> o.reg.name != "$0"
    ensures Construct(Lift(o)) == Render.RenderOperand(o)
  {
  }

  /** An instruction line over operands that both models can express, none
      of them `$0`, renders the same in both models. */
  lemma InstructionRenderings(m: string, os: seq<Operand>)
    requires forall k :: 0 <= k < |os| ==> Representable(os[k]) && (os[k].Reg? ==> os[k].reg.name != "$0")
    ensures Construct(InstructionNode(m, LiftAll(os))) ==
      "    " + m + " " + Join(", ", Instructions.RenderOperands(os))
  {
    var lifted := LiftAll(os);
    ConstructEachIndex(lifted);
    forall k | 0 <= k < |os|
      ensures ConstructEach(lifted)[k] == Render.RenderOperand(os[k])
    {
      OperandRenderings(os[k]);
    }
    assert ConstructEach(lifted) == Instructions.RenderOperands(os);
  }

  /** A section whose body is a list of one-line nodes is the type line
      followed by those lines: no blank line before or after. */
  lemma SectionLines(typ: string, body: seq<Node>)
    requires |body| > 0
    ensures Construct(SectionNode(typ, body)) == JoinLines([typ] + ConstructEach(body))
  {
    JoinConcat("\n", [typ], ConstructEach(body));
  }
}
