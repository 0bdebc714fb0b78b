/** The preprocessor (mippet/preprocessor.py): a walk over the older node
    model that replaces each named `syscall <name>` by the instructions that
    put the service number in `$v0` and trap. Lists are rebuilt element by
    element, splicing in the lists that a rewrite returns. */
module Preprocessor {
  import opened Wrappers
  import opened Ast
  import opened Machine
  import opened LegacyNodes

  /** The service numbers of the standard SPIM/MARS system calls. */
  const Syscalls: map<string, int> := map[
    "print_int" := 1, "print_float" := 2, "print_double" := 3, "print_string" := 4,
    "read_int" := 5, "read_float" := 6, "read_double" := 7, "read_string" := 8,
    "sbrk" := 9, "exit" := 10]

  /** The rewrite of a named syscall, as written: `lw $v0, <id>` then a bare
      `syscall`. */
  function Expansion(id: int): seq<Node>
  {
    [InstructionNode("lw", [RegisterNode("$v0"), NumberNode(id)]), InstructionNode("syscall", [])]
  }

  /** `visit_InstructionNode_syscall`: a bare `syscall` is kept; otherwise the
      first argument must be an identifier naming a known system call. */
  function VisitSyscall(args: seq<Node>): Result<seq<Node>>
  {
    if |args| == 0 then Ok([InstructionNode("syscall", args)])
    else if !args[0].IdentifierNode? then Err(TypeError("Expected the name of a syscall"))
    else if args[0].name !in Syscalls then Err(ValueError("Unknown syscall " + args[0].name))
    else Ok(Expansion(Syscalls[args[0].name]))
  }

  /** `visit` of one node, as the list it contributes to its parent: sections
      are rebuilt over their visited body, syscalls rewritten, every other
      node kept as it is. */
  function VisitNode(n: Node): Result<seq<Node>>
    decreases n, 1
  {
    match n
    case SectionNode(typ, body) =>
      (match VisitList(body)
       case Ok(b) => Ok([SectionNode(typ, b)])
       case Err(e) => Err(e))
    case InstructionNode(m, args) =>
      if m == "syscall" then VisitSyscall(args) else Ok([n])
    case _ => Ok([n])
  }

  /** `visit` of a list: each element's contribution in order; the first
      error ends the walk. */
  function VisitList(ns: seq<Node>): Result<seq<Node>>
    decreases ns, 0
  {
    if |ns| == 0 then Ok([])
    else
      match VisitNode(ns[0])
      case Err(e) => Err(e)
      case Ok(first) =>
        match VisitList(ns[1..])
        case Err(e) => Err(e)
        case Ok(rest) => Ok(first + rest)
  }

  // ---------------------------------------------------------------------
  // Reference definitions.

  /** A node the walk leaves as it is: no syscall with arguments in it or in
      the body of any section it contains. */
  predicate Expanded(n: Node)
    decreases n
  {
    match n
    case InstructionNode(m, args) => m == "syscall" ==> |args| == 0
    case SectionNode(_, body) => forall k :: 0 <= k < |body| ==> Expanded(body[k])
    case _ => true
  }

  predicate AllExpanded(ns: seq<Node>)
  {
    forall k :: 0 <= k < |ns| ==> Expanded(ns[k])
  }

  /** The number of named syscalls directly in a list. */
  function NamedSyscalls(ns: seq<Node>): nat
  {
    if |ns| == 0 then 0
    else
      var named := ns[0].InstructionNode? && ns[0].mnemonic == "syscall" && |ns[0].arguments| > 0;
      (if named then 1 else 0) + NamedSyscalls(ns[1..])
  }

  // ---------------------------------------------------------------------
  // Laws.

  /** Every service number in the table lies between 1 and 10. */
  lemma SyscallTable()
    ensures forall n :: n in Syscalls ==> 1 <= Syscalls[n] <= 10
    ensures Syscalls["print_int"] == 1 && Syscalls["print_string"] == 4 && Syscalls["exit"] == 10
  {
  }

  /** The outcomes of rewriting one syscall: kept, refused for a non-name,
      refused for an unknown name, or expanded. */
  lemma VisitSyscallCases(args: seq<Node>)
    ensures |args| == 0 ==> VisitSyscall(args) == Ok([InstructionNode("syscall", [])])
    ensures |args| > 0 && !args[0].IdentifierNode? ==>
      VisitSyscall(args) == Err(TypeError("Expected the name of a syscall"))
    ensures |args| > 0 && args[0].IdentifierNode? && args[0].name !in Syscalls ==>
      VisitSyscall(args) == Err(ValueError("Unknown syscall " + args[0].name))
    ensures |args| > 0 && args[0].IdentifierNode? && args[0].name in Syscalls ==>
      VisitSyscall(args) == Ok(Expansion(Syscalls[args[0].name]))
    ensures VisitSyscall(args).Ok? <==> |args| == 0 || (args[0].IdentifierNode? && args[0].name in Syscalls)
  {
  }

  lemma {:induction false} VisitListConcat(a: seq<Node>, b: seq<Node>)
    requires VisitList(a).Ok? && VisitList(b).Ok?
    ensures VisitList(a + b) == Ok(VisitList(a).value + VisitList(b).value)
    decreases |a|
  {
    if |a| == 0 {
      assert a + b == b;
      assert [] + VisitList(b).value == VisitList(b).value;
    } else {
      assert (a + b)[1..] == a[1..] + b;
      assert (a + b)[0] == a[0];
      VisitListConcat(a[1..], b);
      var first := VisitNode(a[0]).value;
      assert first + (VisitList(a[1..]).value + VisitList(b).value)
          == (first + VisitList(a[1..]).value) + VisitList(b).value;
    }
  }

  /** After a successful walk no syscall with arguments remains anywhere the
      walk reaches. */
  lemma {:induction false} VisitNodeExpands(n: Node)
    ensures VisitNode(n).Ok? ==> AllExpanded(VisitNode(n).value)
    decreases n, 1
  {
    match n
    case SectionNode(typ, body) =>
      VisitListExpands(body);
    case InstructionNode(m, args) =>
    case _ =>
  }

  lemma {:induction false} VisitListExpands(ns: seq<Node>)
    ensures VisitList(ns).Ok? ==> AllExpanded(VisitList(ns).value)
    decreases ns, 0
  {
    if |ns| > 0 && VisitList(ns).Ok? {
      VisitNodeExpands(ns[0]);
      VisitListExpands(ns[1..]);
      var first, rest := VisitNode(ns[0]).value, VisitList(ns[1..]).value;
      assert VisitList(ns).value == first + rest;
      forall k | 0 <= k < |first + rest|
        ensures Expanded((first + rest)[k])
      {
        if k >= |first| {
          assert (first + rest)[k] == rest[k - |first|];
        }
      }
    }
  }

  /** The walk leaves expanded code untouched. */
  lemma {:induction false} VisitNodeKeeps(n: Node)
    requires Expanded(n)
    ensures VisitNode(n) == Ok([n])
    decreases n, 1
  {
    match n
    case SectionNode(typ, body) =>
      VisitListKeeps(body);
    case _ =>
  }

  lemma {:induction false} VisitListKeeps(ns: seq<Node>)
    requires AllExpanded(ns)
    ensures VisitList(ns) == Ok(ns)
    decreases ns, 0
  {
    if |ns| > 0 {
      VisitNodeKeeps(ns[0]);
      assert AllExpanded(ns[1..]) by {
        forall k | 0 <= k < |ns[1..]| ensures Expanded(ns[1..][k]) {
          assert ns[1..][k] == ns[k + 1];
        }
      }
      VisitListKeeps(ns[1..]);
      assert [ns[0]] + ns[1..] == ns;
    }
  }

  /** Preprocessing is idempotent: a second walk changes nothing. */
  lemma VisitIdempotent(ns: seq<Node>)
    requires VisitList(ns).Ok?
    ensures VisitList(VisitList(ns).value) == VisitList(ns)
  {
    VisitListExpands(ns);
    VisitListKeeps(VisitList(ns).value);
  }

  /** Each named syscall becomes two nodes and every other node one, so a
      successful walk grows a list by exactly its named syscalls. */
  lemma {:induction false} VisitListLength(ns: seq<Node>)
    ensures VisitList(ns).Ok? ==> |VisitList(ns).value| == |ns| + NamedSyscalls(ns)
    decreases |ns|
  {
    if |ns| > 0 && VisitList(ns).Ok? {
      VisitListLength(ns[1..]);
      match ns[0]
      case SectionNode(_, _) =>
      case InstructionNode(m, args) =>
        if m == "syscall" && |args| > 0 { VisitSyscallCases(args); }
      case _ =>
    }
  }

  // ---------------------------------------------------------------------
  // What the rewrite loads into `$v0`.

  /** The older nodes the rewrite produces, executed: `lw r, <number>` reads
      the word at that absolute address (the assemblers' `lw r, addr`
      pseudo-instruction), `li r, <number>` sets r to the number, and a bare
      `syscall` replaces `$v0` by `sys($v0)`. */
  function ExecNode(s: State, n: Node, sys: int -> int): Option<State>
  {
    match n
    case InstructionNode(m, args) =>
      if m == "syscall" && |args| == 0 then Some(Set(s, V0, sys(Get(s, V0))))
      else if (m == "lw" || m == "li") && |args| == 2 && args[0].RegisterNode? && args[1].NumberNode? then
        Some(Set(s, Register(args[0].register), if m == "lw" then Load(s.mem, args[1].value) else args[1].value))
      else None
    case _ => None
  }

  function RunNodes(s: State, ns: seq<Node>, sys: int -> int): Option<State>
    decreases |ns|
  {
    if |ns| == 0 then Some(s)
    else match ExecNode(s, ns[0], sys)
      case None => None
      case Some(t) => RunNodes(t, ns[1..], sys)
  }

  /** As written, the trap receives the word stored at the service number's
      address, not the service number. */
  lemma ExpansionServiceNumber(s: State, id: int, sys: int -> int)
    ensures RunNodes(s, Expansion(id), sys) == Some(Set(Set(s, V0, Load(s.mem, id)), V0, sys(Load(s.mem, id))))
  {
    var e, t := Expansion(id), Set(s, V0, Load(s.mem, id));
    var u := Set(t, V0, sys(Load(s.mem, id)));
    assert ExecNode(s, e[0], sys) == Some(t);
    assert ExecNode(t, e[1], sys) == Some(u);
    assert e[1..][1..] == [];
    assert RunNodes(u, e[1..][1..], sys) == Some(u);
    assert RunNodes(t, e[1..], sys) == Some(u);
  }

  /**
   * In the model, where every address holds a word and empty memory reads 0,
   * `syscall print_int` asks the system for service 0 rather than 1. On MIPS
   * the load from address 1 itself faults.
   */
  lemma ExpansionRequestsWrongService()
    ensures var s := State(map[], map[], map[], 0, 0);
      var r := VisitList([InstructionNode("syscall", [IdentifierNode("print_int")])]);
      && r.Ok? && r.value == Expansion(1)
      && RunNodes(s, r.value, x => 100 + x) == Some(Set(s, V0, 100))
  {
    var s := State(map[], map[], map[], 0, 0);
    var n := InstructionNode("syscall", [IdentifierNode("print_int")]);
    assert VisitNode(n) == Ok(Expansion(1));
    assert [n][1..] == [];
    ExpansionServiceNumber(s, 1, x => 100 + x);
    assert Set(Set(s, V0, 0), V0, 100) == Set(s, V0, 100);
  }

  /** The intended rewrite: `li $v0, <id>`, the form the newer lowering of a
      named syscall also uses. */
  function CorrectedExpansion(id: int): seq<Node>
  {
    [InstructionNode("li", [RegisterNode("$v0"), NumberNode(id)]), InstructionNode("syscall", [])]
  }

  /** Corrected, the trap receives the service number whatever memory holds,
      and only `$v0` changes. */
  lemma CorrectedExpansionServiceNumber(s: State, id: int, sys: int -> int)
    ensures RunNodes(s, CorrectedExpansion(id), sys) == Some(Set(s, V0, sys(id)))
  {
    var e, t := CorrectedExpansion(id), Set(s, V0, id);
    var u := Set(t, V0, sys(id));
    assert ExecNode(s, e[0], sys) == Some(t);
    assert ExecNode(t, e[1], sys) == Some(u);
    assert e[1..][1..] == [];
    assert RunNodes(u, e[1..][1..], sys) == Some(u);
    assert RunNodes(t, e[1..], sys) == Some(u);
    assert u == Set(s, V0, sys(id));
  }
}
