/** What the lowered pseudo-instructions do on the machine: `push`/`pop`,
    `muli`, `modi`/`mod`, a named syscall, and the register saves around
    `call` and `ret`. */
module InstructionLaws {
  import opened Wrappers
  import opened Text
  import opened Ast
  import opened Machine
  import opened Convention
  import opened Spill
  import opened SpillLaws
  import opened Instructions

  // ---------------------------------------------------------------------
  // push and pop.

  lemma PushPopLayout(s: State, t: State, u: State, a: Register, b: Register)
    requires Spilled(s, t, [a], 0) && Unspilled(t, u, [b])
    ensures Get(u, b) == Get(s, a)
    ensures forall r :: r != b ==> Get(u, r) == Get(s, r)
    ensures forall k :: k >= 1 ==> Word(u, k) == Word(s, k)
  {
    assert Get(u, [b][0]) == Word(t, 1 + 0);
    assert Word(t, 0 + 1 + 0) == Get(s, [a][0]);
    forall k | k >= 1
      ensures Word(u, k) == Word(s, k)
    {
      assert Word(t, k + |[a]|) == Word(s, k);
      assert Word(u, (k + 1) - |[b]|) == Word(t, k + 1);
    }
  }

  /** `push a` then `pop b` copies a's value into b and changes nothing else:
      `$sp` and every stack word at or above it end as they began. */
  lemma PushPop(s: State, a: Register, b: Register, ctx: Context, syscalls: map<string, string>, sys: int -> int)
    returns (u: State)
    requires a != SP && b != SP
    ensures Lower(Push(a), ctx, syscalls).Ok? && Lower(Pop(Some(b)), ctx, syscalls).Ok?
    ensures Run(s, Lower(Push(a), ctx, syscalls).value + Lower(Pop(Some(b)), ctx, syscalls).value, sys) == Some(u)
    ensures Get(u, b) == Get(s, a)
    ensures forall r :: r != b ==> Get(u, r) == Get(s, r)
    ensures forall k :: k >= 1 ==> Word(u, k) == Word(s, k)
  {
    LowerPushPopShapes(ctx, syscalls, a);
    LowerPushPopShapes(ctx, syscalls, b);
    var t := SpillEffect(s, [a], 0, sys);
    u := UnspillEffect(t, [b], sys);
    Then(s, SpillCode([a], 0), Unspill([b]), t, u, sys);
    PushPopLayout(s, t, u, a, b);
  }

  /** A bare `pop` discards the top word: `$sp` rises by 4 and no other
      register changes. */
  lemma PopDiscards(s: State, ctx: Context, syscalls: map<string, string>, sys: int -> int) returns (u: State)
    ensures Lower(Pop(None), ctx, syscalls).Ok?
    ensures Run(s, Lower(Pop(None), ctx, syscalls).value, sys) == Some(u)
    ensures Sp(u) == Sp(s) + 4
    ensures forall r :: r != SP ==> Get(u, r) == Get(s, r)
  {
    LowerPushPopShapes(ctx, syscalls, SP);
    u := AddSpEffect(s, 1, sys);
  }

  // ---------------------------------------------------------------------
  // Multiplication and remainder through the scratch register.

  /** `muli D, S, k` computes S * k into D whenever S is not `$t9`, the
      destination `$t9` included; `$t9` is the only other register written. */
  lemma MultiplyImmediate(s: State, d: Register, src: Register, v: Operand, k: int, sys: int -> int) returns (u: State)
    requires Immediate(v) == Some(k) && src != T9
    ensures Lower(MathInt(MulI, d, src, v), EmptyContext, map[]) == Ok([Li(T9, v), MathReg(Mul, d, T9, src)])
    ensures Run(s, [Li(T9, v), MathReg(Mul, d, T9, src)], sys) == Some(u)
    ensures Get(u, d) == Get(s, src) * k
    ensures forall r :: r != d && r != T9 ==> Get(u, r) == Get(s, r)
  {
    var t := Set(s, T9, k);
    u := Set(t, d, k * Get(t, src));
    assert Run(t, [MathReg(Mul, d, T9, src)], sys) == Some(u);
    Then(s, [Li(T9, v)], [MathReg(Mul, d, T9, src)], t, u, sys);
    assert [Li(T9, v)] + [MathReg(Mul, d, T9, src)] == [Li(T9, v), MathReg(Mul, d, T9, src)];
  }

  /** With `$t9` as the source the immediate overwrites it first, so the
      result is k * k: `muli D, $t9, 3` with `$t9` = 5 leaves 9, not 15. */
  lemma MultiplyImmediateSourceHazard(s: State, d: Register, k: int, sys: int -> int) returns (u: State)
    ensures Lower(MathInt(MulI, d, T9, Num(k)), EmptyContext, map[]).Ok?
    ensures Run(s, Lower(MathInt(MulI, d, T9, Num(k)), EmptyContext, map[]).value, sys) == Some(u)
    ensures Get(u, d) == k * k
    ensures Get(s, T9) == 5 && k == 3 ==> Get(u, d) == 9 != Get(s, T9) * k
  {
    var code := [Li(T9, Num(k)), MathReg(Mul, d, T9, T9)];
    assert Lower(MathInt(MulI, d, T9, Num(k)), EmptyContext, map[]) == Ok(code);
    var t := Set(s, T9, k);
    u := Set(t, d, k * k);
    assert Run(t, [MathReg(Mul, d, T9, T9)], sys) == Some(u);
    Then(s, [Li(T9, Num(k))], [MathReg(Mul, d, T9, T9)], t, u, sys);
    assert [Li(T9, Num(k))] + [MathReg(Mul, d, T9, T9)] == code;
  }

  /** `mod D, S, V` leaves in D the remainder of `div`, which takes the sign
      of S; a zero divisor stops the machine. Only D, HI and LO change. */
  lemma ModuloRegister(s: State, d: Register, src: Register, v: Register, sys: int -> int)
    ensures Lower(MathReg(Mod, d, src, v), EmptyContext, map[]) == Ok(ModCode(d, src, v))
    ensures Get(s, v) == 0 ==> Run(s, ModCode(d, src, v), sys).None?
    ensures Get(s, v) != 0 ==> Run(s, ModCode(d, src, v), sys).Some?
    ensures Get(s, v) != 0 ==>
      var u := Run(s, ModCode(d, src, v), sys).value;
      && Get(u, d) == TruncRem(Get(s, src), Get(s, v))
      && (forall r :: r != d ==> Get(u, r) == Get(s, r))
      && u.mem == s.mem && u.data == s.data
  {
    var a, b := Get(s, src), Get(s, v);
    if b != 0 {
      var t := s.(hi := TruncRem(a, b), lo := TruncDiv(a, b));
      assert Exec(s, ModCode(d, src, v)[0], sys) == Some(t);
      assert ModCode(d, src, v)[1..] == [Generic("mfhi", [Reg(d)])];
      assert Run(t, [Generic("mfhi", [Reg(d)])], sys) == Some(Set(t, d, t.hi));
    } else {
      assert Exec(s, ModCode(d, src, v)[0], sys) == None;
    }
  }

  /** For the values 7 and 3 the remainder is 1; for -7 and 3 it is -1. */
  lemma ModuloExample(s: State, sys: int -> int)
    requires Get(s, Register("$t1")) == 7 && Get(s, Register("$t2")) == 3
    ensures Run(s, ModCode(Register("$t0"), Register("$t1"), Register("$t2")), sys).Some?
    ensures Get(Run(s, ModCode(Register("$t0"), Register("$t1"), Register("$t2")), sys).value, Register("$t0")) == 1
  {
    ModuloRegister(s, Register("$t0"), Register("$t1"), Register("$t2"), sys);
    TruncRemExamples();
  }

  /** `modi D, S, k` is `li $t9, k` then `mod D, S, $t9`, for every
      immediate k, 0 included: the remainder of S by k when S is not `$t9`,
      and 0 when it is; a zero immediate reaches `div` unguarded and stops
      the machine. */
  lemma ModuloImmediate(s: State, d: Register, src: Register, v: Operand, k: int, sys: int -> int)
    requires Immediate(v) == Some(k)
    ensures Lower(MathInt(ModI, d, src, v), EmptyContext, map[]) == Ok([Li(T9, v)] + ModCode(d, src, T9))
    ensures k == 0 ==> Run(s, [Li(T9, v)] + ModCode(d, src, T9), sys).None?
    ensures k != 0 ==> Run(s, [Li(T9, v)] + ModCode(d, src, T9), sys).Some?
    ensures k != 0 ==>
      var u := Run(s, [Li(T9, v)] + ModCode(d, src, T9), sys).value;
      && (src != T9 ==> Get(u, d) == TruncRem(Get(s, src), k))
      && (src == T9 ==> Get(u, d) == 0)
      && (forall r :: r != d && r != T9 ==> Get(u, r) == Get(s, r))
  {
    ModuloImmediateLowering(d, src, v, k);
    var t := Set(s, T9, k);
    assert Run(s, [Li(T9, v)], sys) == Some(t);
    ModuloRegister(t, d, src, T9, sys);
    RunConcat(s, [Li(T9, v)], ModCode(d, src, T9), sys);
    assert Run(s, [Li(T9, v)] + ModCode(d, src, T9), sys) == Run(t, ModCode(d, src, T9), sys);
    assert Get(t, T9) == k;
    assert forall r :: r != T9 ==> Get(t, r) == Get(s, r);
    if src == T9 && k != 0 {
      assert TruncRem(k, k) == 0;
    }
  }

  lemma ModuloImmediateLowering(d: Register, src: Register, v: Operand, k: int)
    requires Immediate(v) == Some(k)
    ensures Lower(MathInt(ModI, d, src, v), EmptyContext, map[]) == Ok([Li(T9, v)] + ModCode(d, src, T9))
  {
  }

  // ---------------------------------------------------------------------
  // Named syscalls.

  lemma SyscallBodyEffect(t: State, id: string, sys: int -> int) returns (b: State)
    requires IsDecimal(id)
    ensures Run(t, SyscallBody(id), sys) == Some(b)
    ensures Sp(b) == Sp(t) && b.mem == t.mem
    ensures forall r :: r != V0 ==> Get(b, r) == Get(t, r)
    ensures DataWord(b, "_return") == sys(ParseInt(id))
    ensures forall n :: n != "_return" ==> DataWord(b, n) == DataWord(t, n)
  {
    var t1 := Set(t, V0, ParseInt(id));
    var t2 := Set(t1, V0, sys(ParseInt(id)));
    b := t2.(data := t2.data["_return" := sys(ParseInt(id))]);
    assert Run(t2, [Sw(AtLabel("_return"), V0)], sys) == Some(b);
    assert Run(t1, [Syscall(None), Sw(AtLabel("_return"), V0)], sys) == Some(b);
    assert Run(t, SyscallBody(id), sys) == Some(b);
  }

  lemma SyscallLayout(s: State, t: State, b: State, u: State)
    requires Spilled(s, t, [V0], 0) && Unspilled(b, u, [V0])
    requires Sp(b) == Sp(t) && b.mem == t.mem
    requires forall r :: r != V0 ==> Get(b, r) == Get(t, r)
    ensures forall r :: Get(u, r) == Get(s, r)
    ensures forall k :: k >= 1 ==> Word(u, k) == Word(s, k)
  {
    assert Word(b, 1) == Word(t, 1);
    assert Get(u, [V0][0]) == Word(b, 1 + 0);
    assert Word(t, 0 + 1 + 0) == Get(s, [V0][0]);
    forall k | k >= 1
      ensures Word(u, k) == Word(s, k)
    {
      assert Word(t, k + |[V0]|) == Word(s, k);
      assert Word(b, k + 1) == Word(t, k + 1);
      assert Word(u, (k + 1) - |[V0]|) == Word(b, k + 1);
    }
  }

  /** The seven instructions of a named syscall with a decimal id leave
      every register and stack word as they found them and store the
      service's result in the `_return` word. */
  lemma SyscallCodeEffect(s: State, id: string, sys: int -> int) returns (u: State)
    requires IsDecimal(id)
    ensures Run(s, SyscallCode(id), sys) == Some(u)
    ensures forall r :: Get(u, r) == Get(s, r)
    ensures forall k :: k >= 1 ==> Word(u, k) == Word(s, k)
    ensures DataWord(u, "_return") == sys(ParseInt(id))
    ensures forall n :: n != "_return" ==> DataWord(u, n) == DataWord(s, n)
  {
    SyscallCodeSplit(id);
    var t := SpillEffect(s, [V0], 0, sys);
    var b := SyscallBodyEffect(t, id, sys);
    u := UnspillEffect(b, [V0], sys);
    Then(s, SpillCode([V0], 0), SyscallBody(id), t, b, sys);
    Then(s, SpillCode([V0], 0) + SyscallBody(id), Unspill([V0]), b, u, sys);
    SyscallLayout(s, t, b, u);
    assert u.data == b.data && t.data == s.data;
    forall n | n != "_return"
      ensures DataWord(u, n) == DataWord(s, n)
    {
      assert DataWord(b, n) == DataWord(t, n);
    }
  }

  /** `syscall name` with a decimal id in the table leaves every register
      (`$v0` and `$sp` included) and every stack word as it found them, and
      stores the service's result in the `_return` word. */
  lemma NamedSyscall(s: State, ctx: Context, syscalls: map<string, string>, name: string, sys: int -> int)
    returns (u: State)
    requires name in syscalls && IsDecimal(syscalls[name])
    ensures Lower(Syscall(Some(name)), ctx, syscalls).Ok?
    ensures Run(s, Lower(Syscall(Some(name)), ctx, syscalls).value, sys) == Some(u)
    ensures forall r :: Get(u, r) == Get(s, r)
    ensures forall k :: k >= 1 ==> Word(u, k) == Word(s, k)
    ensures DataWord(u, "_return") == sys(ParseInt(syscalls[name]))
    ensures forall n :: n != "_return" ==> DataWord(u, n) == DataWord(s, n)
  {
    LowerSyscallShape(ctx, syscalls, name);
    u := SyscallCodeEffect(s, syscalls[name], sys);
  }

  // ---------------------------------------------------------------------
  // call and ret.

  /** At depth 0 the save around `jal` works: the spill puts `$ra` in word 1,
      and whatever the callee does, if it returns with `$sp` and word 1 as it
      found them, the unspill gives back `$ra` and `$sp`. */
  lemma CallAtDepthZero(s: State, p: string, ctx: Context, syscalls: map<string, string>, sys: int -> int)
    returns (t: State)
    requires p in ctx.procedures && SpDepth(ctx.procedures[p]) == 0
    ensures Lower(Call(p), ctx, syscalls) == Ok(SpillCode([RA], 0) + [Jal(p)] + Unspill([RA]))
    ensures Run(s, SpillCode([RA], 0), sys) == Some(t)
    ensures Sp(t) == Sp(s) - 4 && Word(t, 1) == Get(s, RA)
    ensures forall b :: Sp(b) == Sp(t) && Word(b, 1) == Word(t, 1) ==>
      Run(b, Unspill([RA]), sys).Some? &&
      Get(Run(b, Unspill([RA]), sys).value, RA) == Get(s, RA) &&
      Sp(Run(b, Unspill([RA]), sys).value) == Sp(s)
  {
    LowerCallShape(ctx, syscalls, p);
    t := SpillEffect(s, [RA], 0, sys);
    assert Word(t, 0 + 1 + 0) == Get(s, [RA][0]);
    forall b | Sp(b) == Sp(t) && Word(b, 1) == Word(t, 1)
      ensures Run(b, Unspill([RA]), sys).Some?
      ensures Get(Run(b, Unspill([RA]), sys).value, RA) == Get(s, RA)
      ensures Sp(Run(b, Unspill([RA]), sys).value) == Sp(s)
    {
      var u := SpillBodyUnspill(s, t, b, [RA], sys);
    }
  }

  /** At a positive depth the save around `jal` does not restore `$ra`: even
      when the callee changes nothing, `$ra` receives the first parameter
      word. */
  lemma CallAtDepthLoadsParameter(s: State, p: string, ctx: Context, syscalls: map<string, string>, sys: int -> int)
    returns (u: State)
    requires p in ctx.procedures && SpDepth(ctx.procedures[p]) > 0
    ensures Lower(Call(p), ctx, syscalls) == Ok(SpillCode([RA], SpDepth(ctx.procedures[p])) + [Jal(p)] + Unspill([RA]))
    ensures Run(s, SpillCode([RA], SpDepth(ctx.procedures[p])) + Unspill([RA]), sys) == Some(u)
    ensures Sp(u) == Sp(s) && Get(u, RA) == Word(s, 1)
  {
    LowerCallShape(ctx, syscalls, p);
    u := DeepSpillUnspillLoadsParameter(s, RA, SpDepth(ctx.procedures[p]), sys);
  }

  /** The call sequence with the depth-aware restore. */
  function CorrectedCallCode(p: string, d: nat): seq<Instruction>
  {
    SpillCode([RA], d) + [Jal(p)] + UnspillAt([RA], d)
  }

  /** `b` keeps the first n stack words of `t`. */
  ghost predicate KeepsWords(b: State, t: State, n: nat)
  {
    forall k :: 1 <= k <= n ==> Word(b, k) == Word(t, k)
  }

  /** With the depth-aware restore the save around `jal` works at every
      depth: the spill leaves the d parameter words where the callee expects
      them and puts `$ra` under them, and whatever the callee does, if it
      returns with `$sp` and those d + 1 words as it found them, `$ra`, `$sp`
      and the parameter words come back. For a callee without `$sp`
      parameters the corrected sequence is the one the source emits. */
  lemma CorrectedCallRestores(s: State, p: string, d: nat, ctx: Context, syscalls: map<string, string>, sys: int -> int)
    returns (t: State)
    ensures p in ctx.procedures && SpDepth(ctx.procedures[p]) == 0 ==>
      Lower(Call(p), ctx, syscalls) == Ok(CorrectedCallCode(p, 0))
    ensures Run(s, SpillCode([RA], d), sys) == Some(t)
    ensures Sp(t) == Sp(s) - 4 && Word(t, d + 1) == Get(s, RA) && KeepsWords(t, s, d)
    ensures forall b :: Sp(b) == Sp(t) && KeepsWords(b, t, d + 1) ==>
      Run(b, UnspillAt([RA], d), sys).Some? &&
      Get(Run(b, UnspillAt([RA], d), sys).value, RA) == Get(s, RA) &&
      Sp(Run(b, UnspillAt([RA], d), sys).value) == Sp(s) &&
      KeepsWords(Run(b, UnspillAt([RA], d), sys).value, s, d)
  {
    if p in ctx.procedures && SpDepth(ctx.procedures[p]) == 0 {
      LowerCallShape(ctx, syscalls, p);
      UnspillAtZero([RA]);
    }
    t := SpillEffect(s, [RA], d, sys);
    assert Word(t, d + 1 + 0) == Get(s, [RA][0]);
    forall b | Sp(b) == Sp(t) && KeepsWords(b, t, d + 1)
      ensures Run(b, UnspillAt([RA], d), sys).Some?
      ensures Get(Run(b, UnspillAt([RA], d), sys).value, RA) == Get(s, RA)
      ensures Sp(Run(b, UnspillAt([RA], d), sys).value) == Sp(s)
      ensures KeepsWords(Run(b, UnspillAt([RA], d), sys).value, s, d)
    {
      var u := UnspillAtEffect(b, [RA], d, sys);
      assert Word(b, d + 1) == Word(t, d + 1);
      assert Get(u, [RA][0]) == Word(b, d + 1 + 0);
    }
  }

  /** After a depth-0 prologue, `ret` restores `$s0`…`$s7` and `$sp` when
      the body leaves `$sp` and the eight saved words in place. */
  lemma RetAfterShallowPrologue(s: State, t: State, b: State, sys: int -> int) returns (u: State)
    requires Run(s, SpillCode(ProcedureSpills, 0), sys) == Some(t)
    requires Sp(b) == Sp(t) && forall k :: 1 <= k <= 8 ==> Word(b, k) == Word(t, k)
    ensures Run(b, Unspill(ProcedureSpills), sys) == Some(u)
    ensures Sp(u) == Sp(s)
    ensures forall i :: 0 <= i < 8 ==> Get(u, ProcedureSpills[i]) == Get(s, ProcedureSpills[i])
  {
    ProcedureSpillsWellFormed();
    var t' := SpillEffect(s, ProcedureSpills, 0, sys);
    assert t' == t;
    u := SpillBodyUnspill(s, t, b, ProcedureSpills, sys);
  }

  /** After a prologue at a positive depth, `ret` loads `$s0` from the first
      parameter word even when the body changes nothing. */
  lemma RetAfterDeepPrologue(s: State, d: nat, sys: int -> int) returns (u: State)
    requires d > 0
    ensures Run(s, SpillCode(ProcedureSpills, d) + Unspill(ProcedureSpills), sys) == Some(u)
    ensures Get(u, ProcedureSpills[0]) == Word(s, 1)
  {
    ProcedureSpillsWellFormed();
    var t := SpillEffect(s, ProcedureSpills, d, sys);
    u := UnspillEffect(t, ProcedureSpills, sys);
    Then(s, SpillCode(ProcedureSpills, d), Unspill(ProcedureSpills), t, u, sys);
    assert Word(t, 1) == Word(s, 1);
  }

  /** The depth-aware restore in `ret` gives back all eight registers, `$sp`
      and every stack word at any prologue depth. */
  lemma CorrectedRetRestores(s: State, d: nat, sys: int -> int) returns (u: State)
    ensures Run(s, SpillCode(ProcedureSpills, d) + UnspillAt(ProcedureSpills, d), sys) == Some(u)
    ensures Sp(u) == Sp(s)
    ensures forall i :: 0 <= i < 8 ==> Get(u, ProcedureSpills[i]) == Get(s, ProcedureSpills[i])
    ensures forall k :: k >= 1 ==> Word(u, k) == Word(s, k)
  {
    ProcedureSpillsWellFormed();
    u := SpillUnspillAtRoundTrip(s, ProcedureSpills, d, sys);
  }
}
