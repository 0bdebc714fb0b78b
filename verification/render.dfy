/** The leaf renderers of the node model (mippet/nodes/node.py) and the
    `construct` of a nested list of already-rendered pieces. */
module Render {
  import opened Ast
  import opened Text

  /** `NumberNode.construct`: the decimal `str` of the value. */
  function RenderNumber(n: int): string
  {
    IntToString(n)
  }

  /** `RegisterNode.construct`: `$0` is spelled `$zero`, every other name as is. */
  function RenderRegister(r: Register): string
  {
    if r.name == "$0" then "$zero" else r.name
  }

  /** `PointerNode.construct`: `offset(base)`. */
  function RenderPointer(base: Register, offset: int): string
  {
    RenderNumber(offset) + "(" + RenderRegister(base) + ")"
  }

  function RenderOperand(o: Operand): string
  {
    match o
    case Num(n) => RenderNumber(n)
    case Literal(t) => t
    case Ident(n) => n
    case Reg(r) => RenderRegister(r)
    case Ptr(b, off) => RenderPointer(b, off)
  }

  /** `LabelNode.construct`: a newline, then `name:`. */
  function RenderLabel(name: string): string
  {
    "\n" + name + ":"
  }

  /** `SectionNode.construct`: the type, a newline, the body, a newline. */
  function RenderSection(typ: string, body: string): string
  {
    typ + "\n" + body + "\n"
  }

  /** The rendered number reads back as the number it renders. */
  lemma RenderNumberRoundTrip(n: int)
    ensures IsDecimal(RenderNumber(n)) && ParseInt(RenderNumber(n)) == n
  {
    IntToStringRoundTrip(n);
  }

  /** A rendered pointer determines its offset and the rendering of its base. */
  lemma RenderPointerInjective(b1: Register, o1: int, b2: Register, o2: int)
    requires RenderPointer(b1, o1) == RenderPointer(b2, o2)
    ensures o1 == o2
    ensures RenderRegister(b1) == RenderRegister(b2)
  {
    var n1, n2 := RenderNumber(o1), RenderNumber(o2);
    var r1, r2 := RenderRegister(b1), RenderRegister(b2);
    IntToStringChars(o1, '(');
    IntToStringChars(o2, '(');
    assert RenderPointer(b1, o1) == n1 + ['('] + (r1 + ")");
    assert RenderPointer(b2, o2) == n2 + ['('] + (r2 + ")");
    FirstIndexAfterPrefix('(', n1, r1 + ")");
    FirstIndexAfterPrefix('(', n2, r2 + ")");
    var s := RenderPointer(b1, o1);
    assert |n1| == |n2|;
    assert n1 == s[..|n1|] == n2;
    IntToStringInjective(o1, o2);
    assert r1 == s[|n1| + 1..|s| - 1] == r2;
  }

  /** A label occupies two lines: an empty one, then `name:`. */
  lemma RenderLabelLines(name: string)
    requires '\n' !in name
    ensures SplitLines(RenderLabel(name)) == ["", name + ":"]
  {
    assert RenderLabel(name) == Join("\n", ["", name + ":"]);
    SplitJoin('\n', ["", name + ":"]);
  }

  /** A section over a non-empty list of body lines is the type line, the
      body lines, then one empty line. */
  lemma RenderSectionLines(typ: string, body: seq<string>)
    requires |body| > 0
    ensures RenderSection(typ, JoinLines(body)) == JoinLines([typ] + body + [""])
  {
    JoinConcat("\n", [typ], body);
    JoinConcat("\n", [typ] + body, [""]);
  }

  // ---------------------------------------------------------------------
  // `construct` over `str | Node | list`: a node is represented by its
  // rendering, a list by the group of its elements.

  datatype Piece = Text(s: string) | Group(items: seq<Piece>)

  /** Lists are newline-joined, element by element. */
  function Construct(p: Piece): string
    decreases p
  {
    match p
    case Text(s) => s
    case Group(items) => JoinLines(ConstructAll(items))
  }

  function ConstructAll(items: seq<Piece>): (r: seq<string>)
    ensures |r| == |items|
    decreases items
  {
    if |items| == 0 then [] else [Construct(items[0])] + ConstructAll(items[1..])
  }

  /** The rendered leaves, in order. */
  function Leaves(p: Piece): seq<string>
    decreases p
  {
    match p
    case Text(s) => [s]
    case Group(items) => LeavesAll(items)
  }

  function LeavesAll(items: seq<Piece>): seq<string>
    decreases items
  {
    if |items| == 0 then [] else Leaves(items[0]) + LeavesAll(items[1..])
  }

  /** No list, at any depth, is empty. */
  predicate NoEmptyGroup(p: Piece)
    decreases p
  {
    match p
    case Text(_) => true
    case Group(items) => |items| > 0 && forall k :: 0 <= k < |items| ==> NoEmptyGroup(items[k])
  }

  /** Without empty lists, nested joining is the same as joining the leaves. */
  lemma {:induction false} ConstructFlat(p: Piece)
    requires NoEmptyGroup(p)
    ensures |Leaves(p)| > 0
    ensures Construct(p) == JoinLines(Leaves(p))
    decreases p, 1
  {
    match p
    case Text(s) =>
    case Group(items) =>
      ConstructAllFlat(items);
  }

  lemma {:induction false} ConstructAllFlat(items: seq<Piece>)
    requires |items| > 0
    requires forall k :: 0 <= k < |items| ==> NoEmptyGroup(items[k])
    ensures |LeavesAll(items)| > 0
    ensures JoinLines(ConstructAll(items)) == JoinLines(LeavesAll(items))
    decreases items, 0
  {
    ConstructFlat(items[0]);
    assert ConstructAll(items) == [Construct(items[0])] + ConstructAll(items[1..]);
    assert LeavesAll(items) == Leaves(items[0]) + LeavesAll(items[1..]);
    if |items| == 1 {
      assert LeavesAll(items) == Leaves(items[0]);
    } else {
      ConstructAllFlat(items[1..]);
      JoinConcat("\n", [Construct(items[0])], ConstructAll(items[1..]));
      JoinConcat("\n", Leaves(items[0]), LeavesAll(items[1..]));
    }
  }

  /** An empty list renders as the empty string, and inside a list it still
      contributes a line of its own: an empty one. */
  lemma EmptyGroupIsBlankLine(a: string, b: string)
    ensures Construct(Group([])) == ""
    ensures Construct(Group([Text(a), Group([]), Text(b)])) == a + "\n\n" + b
  {
    var items := [Text(a), Group([]), Text(b)];
    assert ConstructAll(items[2..]) == [b];
    assert ConstructAll(items[1..]) == ["", b];
    assert ConstructAll(items) == [a, "", b];
    assert [a, "", b][1..] == ["", b];
    assert ["", b][1..] == [b];
    assert Join("\n", ["", b]) == "" + "\n" + b;
    assert Join("\n", [a, "", b]) == a + "\n" + ("" + "\n" + b);
  }
}
