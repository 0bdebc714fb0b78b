/** What the spill engine's code does when executed on the machine: the stack
    layout a spill leaves at any depth, the restore `unspill` performs, the
    round trip at depth 0, and the depth-aware restore. Stack word k is the
    word at `4*k($sp)`.

    Each effect is stated as a relation between the state before and after
    (`Stored`, `Loaded`, `Spilled`, …). Every effect lemma is split into a
    part about `Run` and a part about the relation, and the quantified facts
    about a later state are keyed on the words of the earlier one. */
module SpillLaws {
  import opened Ast
  import opened Machine
  import opened Spill
  import opened Wrappers

  predicate Distinct(regs: seq<Register>)
  {
    forall i, j :: 0 <= i < j < |regs| ==> regs[i] != regs[j]
  }

  // ---------------------------------------------------------------------
  // State relations.

  /** `t` is `s` after `addi $sp, $sp, 4m`: every stack word renumbered by -m. */
  ghost predicate Released(s: State, t: State, m: int)
  {
    && Sp(t) == Sp(s) + 4 * m
    && (forall r :: r != SP ==> Get(t, r) == Get(s, r))
    && (forall k {:trigger Word(s, k)} :: Word(t, k - m) == Word(s, k))
    && t.mem == s.mem && t.data == s.data && t.hi == s.hi && t.lo == s.lo
  }

  /** `u` is `t` with `regs` stored into words `first`, `first + 1`, … */
  ghost predicate Stored(t: State, u: State, regs: seq<Register>, first: int)
  {
    && u.regs == t.regs && u.data == t.data && u.hi == t.hi && u.lo == t.lo
    && (forall i :: 0 <= i < |regs| ==> Word(u, first + i) == Get(t, regs[i]))
    && (forall k {:trigger Word(t, k)} :: k < first || k >= first + |regs| ==> Word(u, k) == Word(t, k))
  }

  /** `u` is `t` after loading `regs` from words `first`, `first + 1`, … */
  ghost predicate Loaded(t: State, u: State, regs: seq<Register>, first: int)
  {
    && Sp(u) == Sp(t)
    && u.mem == t.mem && u.data == t.data && u.hi == t.hi && u.lo == t.lo
    && (forall i :: 0 <= i < |regs| ==> Get(u, regs[i]) == Word(t, first + i))
    && (forall r :: r !in regs ==> Get(u, r) == Get(t, r))
  }

  /** `u` is `t` with words 2 … depth+1 each moved up one slot through `$t9`. */
  ghost predicate Shifted(t: State, u: State, depth: nat)
  {
    && Sp(u) == Sp(t)
    && (forall r :: r != T9 ==> Get(u, r) == Get(t, r))
    && u.data == t.data && u.hi == t.hi && u.lo == t.lo
    && (forall k {:trigger Word(t, k)} :: 2 <= k <= depth + 1 ==> Word(u, k - 1) == Word(t, k))
    && (forall k {:trigger Word(t, k)} :: k < 1 || k > depth ==> Word(u, k) == Word(t, k))
    && (depth > 0 ==> Get(u, T9) == Word(t, depth + 1))
  }

  /** `u` is `t` with words 1 … depth copied n slots further down through
      `$t9`. */
  ghost predicate Raised(t: State, u: State, depth: nat, n: nat)
  {
    && Sp(u) == Sp(t)
    && (forall r :: r != T9 ==> Get(u, r) == Get(t, r))
    && (depth == 0 ==> Get(u, T9) == Get(t, T9))
    && u.data == t.data && u.hi == t.hi && u.lo == t.lo
    && (forall k {:trigger Word(t, k)} :: 1 <= k <= depth ==> Word(u, k + n) == Word(t, k))
    && (forall k {:trigger Word(t, k)} :: k < 1 + n || k > depth + n ==> Word(u, k) == Word(t, k))
  }

  /** `t` is `s` after spilling `regs` at `depth`: `$sp` is 4n lower, the top
      `depth` words keep their offsets, the registers sit under them in order,
      the older words moved n slots down, and only `$sp` and (at a positive
      depth) `$t9` changed among the registers. */
  ghost predicate Spilled(s: State, t: State, regs: seq<Register>, depth: nat)
  {
    && Sp(t) == Sp(s) - 4 * |regs|
    && (forall k {:trigger Word(s, k)} :: 1 <= k <= depth ==> Word(t, k) == Word(s, k))
    && (forall i :: 0 <= i < |regs| ==> Word(t, depth + 1 + i) == Get(s, regs[i]))
    && (forall k {:trigger Word(s, k)} :: k > depth ==> Word(t, k + |regs|) == Word(s, k))
    && (forall r :: r != SP && r != T9 ==> Get(t, r) == Get(s, r))
    && (depth == 0 ==> Get(t, T9) == Get(s, T9))
    && t.data == s.data && t.hi == s.hi && t.lo == s.lo
  }

  /** `u` is `t` after `unspill(regs)`: register i loaded from word i+1, the
      n slots released, every other register unchanged. */
  ghost predicate Unspilled(t: State, u: State, regs: seq<Register>)
  {
    && Sp(u) == Sp(t) + 4 * |regs|
    && (forall i :: 0 <= i < |regs| ==> Get(u, regs[i]) == Word(t, 1 + i))
    && (forall r :: r != SP && r !in regs ==> Get(u, r) == Get(t, r))
    && (forall k {:trigger Word(t, k)} :: Word(u, k - |regs|) == Word(t, k))
    && u.mem == t.mem && u.data == t.data && u.hi == t.hi && u.lo == t.lo
  }

  /** `u` is `t` after the depth-aware restore of `regs` spilled at `depth`:
      register i is loaded from word `depth + 1 + i`, the top `depth` words
      end where they started relative to the final `$sp`, and the words below
      the saved ones are renumbered by -n. */
  ghost predicate UnspilledAt(t: State, u: State, regs: seq<Register>, depth: nat)
  {
    && Sp(u) == Sp(t) + 4 * |regs|
    && (forall i :: 0 <= i < |regs| ==> Get(u, regs[i]) == Word(t, depth + 1 + i))
    && (forall r :: r != SP && r != T9 && r !in regs ==> Get(u, r) == Get(t, r))
    && (forall k {:trigger Word(t, k)} :: 1 <= k <= depth ==> Word(u, k) == Word(t, k))
    && (forall k {:trigger Word(t, k)} :: k > depth + |regs| ==> Word(u, k - |regs|) == Word(t, k))
    && (depth == 0 ==> Get(u, T9) == Get(t, T9))
    && u.data == t.data && u.hi == t.hi && u.lo == t.lo
  }

  // ---------------------------------------------------------------------
  // Single instructions.

  lemma RunOne(s: State, i: Instruction, sys: int -> int)
    ensures Run(s, [i], sys) == Exec(s, i, sys)
  {
  }

  /** Running `a` then `b` in sequence. */
  lemma Then(s: State, a: seq<Instruction>, b: seq<Instruction>, t: State, u: State, sys: int -> int)
    requires Run(s, a, sys) == Some(t) && Run(t, b, sys) == Some(u)
    ensures Run(s, a + b, sys) == Some(u)
  {
    RunConcat(s, a, b, sys);
  }

  /** `s` with stack word k replaced by v. */
  function PutWord(s: State, k: int, v: int): (t: State)
    ensures t.regs == s.regs && t.data == s.data && t.hi == s.hi && t.lo == s.lo
    ensures Word(t, k) == v
    ensures forall j {:trigger Word(s, j)} :: j != k ==> Word(t, j) == Word(s, j)
  {
    s.(mem := s.mem[Sp(s) + 4 * k := v])
  }

  /** Setting a register other than `$sp` leaves every stack word in place. */
  lemma SetKeepsWords(s: State, r: Register, v: int)
    requires r != SP
    ensures Sp(Set(s, r, v)) == Sp(s)
    ensures forall k {:trigger Word(s, k)} :: Word(Set(s, r, v), k) == Word(s, k)
  {
  }

  lemma LoadSlot(s: State, d: Register, k: int, sys: int -> int)
    ensures Run(s, [Lw(d, Slot(k))], sys) == Some(Set(s, d, Word(s, k)))
  {
    RunOne(s, Lw(d, Slot(k)), sys);
  }

  lemma StoreSlot(s: State, r: Register, k: int, sys: int -> int)
    ensures Run(s, [Sw(Slot(k), r)], sys) == Some(PutWord(s, k, Get(s, r)))
  {
    RunOne(s, Sw(Slot(k), r), sys);
  }

  /** `addi $sp, $sp, 4m` renumbers every stack word by -m. */
  lemma AddSpEffect(s: State, m: int, sys: int -> int) returns (t: State)
    ensures Run(s, [AddSp(4 * m)], sys) == Some(t)
    ensures Released(s, t, m)
  {
    RunOne(s, AddSp(4 * m), sys);
    t := Set(s, SP, Sp(s) + 4 * m);
  }

  // ---------------------------------------------------------------------
  // Stores and loads.

  lemma StoresRun(t: State, u: State, regs: seq<Register>, first: int, sys: int -> int)
    requires |regs| > 0
    requires Run(PutWord(t, first, Get(t, regs[0])), Stores(regs[1..], first + 1), sys) == Some(u)
    ensures Run(t, Stores(regs, first), sys) == Some(u)
  {
    var head := Sw(Slot(first), regs[0]);
    StoreSlot(t, regs[0], first, sys);
    Then(t, [head], Stores(regs[1..], first + 1), PutWord(t, first, Get(t, regs[0])), u, sys);
  }

  lemma StoredStep(t: State, u: State, regs: seq<Register>, first: int)
    requires |regs| > 0
    requires Stored(PutWord(t, first, Get(t, regs[0])), u, regs[1..], first + 1)
    ensures Stored(t, u, regs, first)
  {
    var t1 := PutWord(t, first, Get(t, regs[0]));
    forall i | 0 <= i < |regs|
      ensures Word(u, first + i) == Get(t, regs[i])
    {
      if i > 0 {
        assert regs[i] == regs[1..][i - 1];
        assert Word(u, (first + 1) + (i - 1)) == Get(t1, regs[1..][i - 1]);
      }
    }
    forall k | k < first || k >= first + |regs|
      ensures Word(u, k) == Word(t, k)
    {
      assert Word(t1, k) == Word(t, k);
    }
  }

  lemma {:induction false} StoresEffect(t: State, regs: seq<Register>, first: int, sys: int -> int) returns (u: State)
    ensures Run(t, Stores(regs, first), sys) == Some(u)
    ensures Stored(t, u, regs, first)
    decreases |regs|
  {
    if |regs| == 0 {
      u := t;
    } else {
      u := StoresEffect(PutWord(t, first, Get(t, regs[0])), regs[1..], first + 1, sys);
      StoresRun(t, u, regs, first, sys);
      StoredStep(t, u, regs, first);
    }
  }

  lemma LoadsRun(t: State, u: State, regs: seq<Register>, first: int, sys: int -> int)
    requires |regs| > 0
    requires Run(Set(t, regs[0], Word(t, first)), Loads(regs[1..], first + 1), sys) == Some(u)
    ensures Run(t, Loads(regs, first), sys) == Some(u)
  {
    var head := Lw(regs[0], Slot(first));
    LoadSlot(t, regs[0], first, sys);
    Then(t, [head], Loads(regs[1..], first + 1), Set(t, regs[0], Word(t, first)), u, sys);
  }

  lemma LoadedStep(t: State, u: State, regs: seq<Register>, first: int)
    requires |regs| > 0 && Distinct(regs) && SP !in regs
    requires Loaded(Set(t, regs[0], Word(t, first)), u, regs[1..], first + 1)
    ensures Loaded(t, u, regs, first)
  {
    var t1 := Set(t, regs[0], Word(t, first));
    var rest := regs[1..];
    SetKeepsWords(t, regs[0], Word(t, first));
    assert regs[0] !in rest;
    forall i | 0 <= i < |regs|
      ensures Get(u, regs[i]) == Word(t, first + i)
    {
      if i > 0 {
        assert regs[i] == rest[i - 1];
        assert Get(u, rest[i - 1]) == Word(t1, (first + 1) + (i - 1));
        assert Word(t1, first + i) == Word(t, first + i);
      }
    }
  }

  lemma {:induction false} LoadsEffect(t: State, regs: seq<Register>, first: int, sys: int -> int) returns (u: State)
    requires Distinct(regs) && SP !in regs
    ensures Run(t, Loads(regs, first), sys) == Some(u)
    ensures Loaded(t, u, regs, first)
    decreases |regs|
  {
    if |regs| == 0 {
      u := t;
    } else {
      assert Distinct(regs[1..]);
      u := LoadsEffect(Set(t, regs[0], Word(t, first)), regs[1..], first + 1, sys);
      LoadsRun(t, u, regs, first, sys);
      LoadedStep(t, u, regs, first);
    }
  }

  // ---------------------------------------------------------------------
  // Shifting the parameter words up and down.

  /** The pair `lw $t9, 4(depth+1)($sp)`, `sw $t9, 4*depth($sp)`. */
  function ShiftStep(t: State, depth: int): State
  {
    PutWord(Set(t, T9, Word(t, depth + 1)), depth, Word(t, depth + 1))
  }

  lemma ShiftsRun(t: State, u1: State, depth: nat, sys: int -> int)
    requires depth > 0
    requires Run(t, Shifts(depth - 1), sys) == Some(u1)
    ensures Run(t, Shifts(depth), sys) == Some(ShiftStep(u1, depth))
  {
    var load, store := Lw(T9, Slot(depth + 1)), Sw(Slot(depth), T9);
    var u2 := Set(u1, T9, Word(u1, depth + 1));
    LoadSlot(u1, T9, depth + 1, sys);
    StoreSlot(u2, T9, depth, sys);
    Then(u1, [load], [store], u2, ShiftStep(u1, depth), sys);
    Then(t, Shifts(depth - 1), [load] + [store], u1, ShiftStep(u1, depth), sys);
    assert Shifts(depth) == Shifts(depth - 1) + ([load] + [store]);
  }

  lemma ShiftedStep(t: State, u1: State, depth: nat)
    requires depth > 0
    requires Shifted(t, u1, depth - 1)
    ensures Shifted(t, ShiftStep(u1, depth), depth)
  {
    var u2 := Set(u1, T9, Word(u1, depth + 1));
    var u := ShiftStep(u1, depth);
    SetKeepsWords(u1, T9, Word(u1, depth + 1));
    assert Word(u1, depth + 1) == Word(t, depth + 1);
    forall k | 2 <= k <= depth + 1
      ensures Word(u, k - 1) == Word(t, k)
    {
      if k <= depth {
        assert Word(u1, k - 1) == Word(t, k);
        assert Word(u2, k - 1) == Word(u1, k - 1);
      }
    }
    forall k | k < 1 || k > depth
      ensures Word(u, k) == Word(t, k)
    {
      assert Word(u1, k) == Word(t, k);
      assert Word(u2, k) == Word(u1, k);
    }
  }

  lemma {:induction false} ShiftsEffect(t: State, depth: nat, sys: int -> int) returns (u: State)
    ensures Run(t, Shifts(depth), sys) == Some(u)
    ensures Shifted(t, u, depth)
  {
    if depth == 0 {
      u := t;
    } else {
      var u1 := ShiftsEffect(t, depth - 1, sys);
      ShiftsRun(t, u1, depth, sys);
      ShiftedStep(t, u1, depth);
      u := ShiftStep(u1, depth);
    }
  }

  /** The pair `lw $t9, 4*depth($sp)`, `sw $t9, 4(depth+n)($sp)`. */
  function RaiseStep(t: State, depth: nat, n: nat): State
  {
    PutWord(Set(t, T9, Word(t, depth)), depth + n, Word(t, depth))
  }

  lemma RaiseRun(t: State, u: State, depth: nat, n: nat, sys: int -> int)
    requires depth > 0
    requires Run(RaiseStep(t, depth, n), Raise(depth - 1, n), sys) == Some(u)
    ensures Run(t, Raise(depth, n), sys) == Some(u)
  {
    var load, store := Lw(T9, Slot(depth)), Sw(Slot(depth + n), T9);
    var t1 := Set(t, T9, Word(t, depth));
    LoadSlot(t, T9, depth, sys);
    StoreSlot(t1, T9, depth + n, sys);
    Then(t, [load], [store], t1, RaiseStep(t, depth, n), sys);
    Then(t, [load] + [store], Raise(depth - 1, n), RaiseStep(t, depth, n), u, sys);
    assert Raise(depth, n) == ([load] + [store]) + Raise(depth - 1, n);
  }

  lemma RaisedStep(t: State, u: State, depth: nat, n: nat)
    requires depth > 0 && n > 0
    requires Raised(RaiseStep(t, depth, n), u, depth - 1, n)
    ensures Raised(t, u, depth, n)
  {
    var t1 := Set(t, T9, Word(t, depth));
    var t2 := RaiseStep(t, depth, n);
    SetKeepsWords(t, T9, Word(t, depth));
    forall k | 1 <= k <= depth
      ensures Word(u, k + n) == Word(t, k)
    {
      if k < depth {
        assert Word(t1, k) == Word(t, k);
        assert Word(t2, k) == Word(t1, k);
        assert Word(u, k + n) == Word(t2, k);
      } else {
        assert Word(u, depth + n) == Word(t2, depth + n);
      }
    }
    forall k | k < 1 + n || k > depth + n
      ensures Word(u, k) == Word(t, k)
    {
      assert Word(t1, k) == Word(t, k);
      assert Word(t2, k) == Word(t1, k);
      assert Word(u, k) == Word(t2, k);
    }
  }

  lemma {:induction false} RaiseEffect(t: State, depth: nat, n: nat, sys: int -> int) returns (u: State)
    requires n > 0
    ensures Run(t, Raise(depth, n), sys) == Some(u)
    ensures Raised(t, u, depth, n)
    decreases depth
  {
    if depth == 0 {
      u := t;
    } else {
      u := RaiseEffect(RaiseStep(t, depth, n), depth - 1, n, sys);
      RaiseRun(t, u, depth, n, sys);
      RaisedStep(t, u, depth, n);
    }
  }

  // ---------------------------------------------------------------------
  // Spill.

  lemma ShallowSpillLayout(s: State, t0: State, u: State, regs: seq<Register>)
    requires |regs| > 0 && SP !in regs
    requires Released(s, t0, -|regs|) && Stored(t0, u, regs, 1)
    ensures Spilled(s, u, regs, 0)
  {
    var n := |regs|;
    forall k | k > 0
      ensures Word(u, k + n) == Word(s, k)
    {
      assert Word(t0, k - -n) == Word(s, k);
    }
  }

  /** Spilling at depth 0: `$sp` drops by 4n and the registers fill the new
      top slots in order. */
  lemma ShallowSpillEffect(s: State, regs: seq<Register>, sys: int -> int) returns (u: State)
    requires |regs| > 0 && SP !in regs
    ensures Run(s, SpillCode(regs, 0), sys) == Some(u)
    ensures Spilled(s, u, regs, 0)
  {
    var n := |regs|;
    var t0 := AddSpEffect(s, -n, sys);
    u := StoresEffect(t0, regs, 1, sys);
    Then(s, [AddSp(4 * -n)], Stores(regs, 1), t0, u, sys);
    assert SpillCode(regs, 0) == [AddSp(4 * -n)] + Stores(regs, 1);
    ShallowSpillLayout(s, t0, u, regs);
  }

  lemma SingleDeepSpillRun(s: State, t0: State, t1: State, r: Register, depth: nat, sys: int -> int)
    requires depth > 0
    requires Run(s, [AddSp(-4)], sys) == Some(t0) && Run(t0, Shifts(depth), sys) == Some(t1)
    ensures Run(s, SpillCode([r], depth), sys) == Some(PutWord(t1, depth + 1, Get(t1, r)))
  {
    var store := Sw(Slot(depth + 1), r);
    StoreSlot(t1, r, depth + 1, sys);
    Then(s, [AddSp(-4)], Shifts(depth), t0, t1, sys);
    Then(s, [AddSp(-4)] + Shifts(depth), [store], t1, PutWord(t1, depth + 1, Get(t1, r)), sys);
    SingleSpillCode(r, depth);
  }

  lemma SingleDeepSpillLayout(s: State, t0: State, t1: State, r: Register, depth: nat)
    requires depth > 0 && r != SP && r != T9
    requires Released(s, t0, -1) && Shifted(t0, t1, depth)
    ensures Spilled(s, PutWord(t1, depth + 1, Get(t1, r)), [r], depth)
    ensures Get(PutWord(t1, depth + 1, Get(t1, r)), T9) == Word(s, depth)
  {
    var u := PutWord(t1, depth + 1, Get(t1, r));
    assert Word(t0, depth + 1) == Word(s, depth);
    assert forall k {:trigger Word(s, k)} :: 1 <= k <= depth ==> Word(u, k) == Word(s, k) by {
      forall k | 1 <= k <= depth
        ensures Word(u, k) == Word(s, k)
      {
        assert Word(t0, k + 1) == Word(s, k);
        assert Word(t1, k) == Word(t0, k + 1);
      }
    }
    assert forall k {:trigger Word(s, k)} :: k > depth ==> Word(u, k + |[r]|) == Word(s, k) by {
      forall k | k > depth
        ensures Word(u, k + 1) == Word(s, k)
      {
        assert Word(t0, k + 1) == Word(s, k);
        assert Word(t1, k + 1) == Word(t0, k + 1);
      }
    }
    assert Word(u, depth + 1 + 0) == Get(s, [r][0]);
    assert forall i :: 0 <= i < |[r]| ==> Word(u, depth + 1 + i) == Get(s, [r][i]);
  }

  /** Spilling one register at a positive depth: the words above it shift up
      one slot and it lands beneath them; `$t9` is left holding the last
      word shifted. */
  lemma SingleDeepSpillEffect(s: State, r: Register, depth: nat, sys: int -> int) returns (u: State)
    requires depth > 0 && r != SP && r != T9
    ensures Run(s, SpillCode([r], depth), sys) == Some(u)
    ensures Spilled(s, u, [r], depth)
    ensures Get(u, T9) == Word(s, depth)
  {
    var t0 := AddSpEffect(s, -1, sys);
    var t1 := ShiftsEffect(t0, depth, sys);
    u := PutWord(t1, depth + 1, Get(t1, r));
    SingleDeepSpillRun(s, t0, t1, r, depth, sys);
    SingleDeepSpillLayout(s, t0, t1, r, depth);
  }

  /** Two spills at the same depth, the last register alone first and then
      the others, compose into one spill of them all. */
  lemma SpilledCompose(s: State, t: State, u: State, regs: seq<Register>, depth: nat)
    requires |regs| > 1 && SP !in regs && T9 !in regs
    requires Spilled(s, t, [regs[|regs| - 1]], depth) && Spilled(t, u, regs[..|regs| - 1], depth)
    ensures Spilled(s, u, regs, depth)
  {
    var x, prefix := regs[|regs| - 1], regs[..|regs| - 1];
    assert regs == prefix + [x];
    var n := |regs|;
    forall i | 0 <= i < n
      ensures Word(u, depth + 1 + i) == Get(s, regs[i])
    {
      if i < |prefix| {
        assert regs[i] == prefix[i];
        assert Word(u, depth + 1 + i) == Get(t, prefix[i]);
      } else {
        assert Word(t, depth + 1 + 0) == Get(s, [x][0]);
        assert Word(u, (depth + 1) + |prefix|) == Word(t, depth + 1);
      }
    }
    forall k | k > depth
      ensures Word(u, k + n) == Word(s, k)
    {
      assert Word(t, k + 1) == Word(s, k);
      assert Word(u, (k + 1) + |prefix|) == Word(t, k + 1);
    }
    forall k | 1 <= k <= depth
      ensures Word(u, k) == Word(s, k)
    {
      assert Word(t, k) == Word(s, k);
    }
  }

  lemma SpillSplitRun(s: State, t: State, u: State, regs: seq<Register>, depth: nat, sys: int -> int)
    requires |regs| > 1 && depth > 0
    requires Run(s, SpillCode([regs[|regs| - 1]], depth), sys) == Some(t)
    requires Run(t, SpillCode(regs[..|regs| - 1], depth), sys) == Some(u)
    ensures Run(s, SpillCode(regs, depth), sys) == Some(u)
  {
    SpillCodeSplit(regs, depth);
    Then(s, SpillCode([regs[|regs| - 1]], depth), SpillCode(regs[..|regs| - 1], depth), t, u, sys);
  }

  /** The stack layout any spill leaves, at any depth: see `Spilled`. */
  lemma {:induction false} SpillEffect(s: State, regs: seq<Register>, depth: nat, sys: int -> int) returns (u: State)
    requires SP !in regs
    requires depth > 0 ==> T9 !in regs
    ensures Run(s, SpillCode(regs, depth), sys) == Some(u)
    ensures Spilled(s, u, regs, depth)
    decreases |regs|
  {
    if |regs| == 0 {
      assert SpillCode(regs, depth) == [];
      u := s;
    } else if depth == 0 {
      u := ShallowSpillEffect(s, regs, sys);
    } else if |regs| == 1 {
      assert regs == [regs[0]];
      u := SingleDeepSpillEffect(s, regs[0], depth, sys);
    } else {
      var t := SingleDeepSpillEffect(s, regs[|regs| - 1], depth, sys);
      u := SpillEffect(t, regs[..|regs| - 1], depth, sys);
      SpillSplitRun(s, t, u, regs, depth, sys);
      SpilledCompose(s, t, u, regs, depth);
    }
  }

  // ---------------------------------------------------------------------
  // Unspill.

  lemma UnspillLayout(t: State, t1: State, u: State, regs: seq<Register>)
    requires SP !in regs
    requires Loaded(t, t1, regs, 1) && Released(t1, u, |regs|)
    ensures Unspilled(t, u, regs)
  {
    var n := |regs|;
    forall i | 0 <= i < n
      ensures Get(u, regs[i]) == Word(t, 1 + i)
    {
      assert Get(u, regs[i]) == Get(t1, regs[i]);
    }
    forall k
      ensures Word(u, k - n) == Word(t, k)
    {
      assert Word(t1, k) == Word(t, k);
    }
  }

  /** What `unspill(regs)` does: load register i from `4i($sp)`, whatever the
      depth of the spill it is meant to undo, then release n slots. */
  lemma UnspillEffect(t: State, regs: seq<Register>, sys: int -> int) returns (u: State)
    requires Distinct(regs) && SP !in regs
    ensures Run(t, Unspill(regs), sys) == Some(u)
    ensures Unspilled(t, u, regs)
  {
    var t1 := LoadsEffect(t, regs, 1, sys);
    u := AddSpEffect(t1, |regs|, sys);
    Then(t, Loads(regs, 1), [AddSp(4 * |regs|)], t1, u, sys);
    UnspillLayout(t, t1, u, regs);
  }

  lemma SpillUnspillLayout(s: State, t: State, u: State, regs: seq<Register>)
    requires Spilled(s, t, regs, 0) && Unspilled(t, u, regs)
    ensures forall r :: Get(u, r) == Get(s, r)
    ensures forall k :: k >= 1 ==> Word(u, k) == Word(s, k)
  {
    forall r
      ensures Get(u, r) == Get(s, r)
    {
      if r in regs {
        var i :| 0 <= i < |regs| && regs[i] == r;
        assert Get(u, regs[i]) == Word(t, 0 + 1 + i);
      }
    }
    forall k | k >= 1
      ensures Word(u, k) == Word(s, k)
    {
      assert Word(t, k + |regs|) == Word(s, k);
      assert Word(u, (k + |regs|) - |regs|) == Word(t, k + |regs|);
    }
  }

  /** Spill-then-unspill round trip at depth 0: `$sp`, every register, and
      every stack word from `4($sp)` up are as before. */
  lemma SpillUnspillRoundTrip(s: State, regs: seq<Register>, sys: int -> int) returns (u: State)
    requires Distinct(regs) && SP !in regs
    ensures Run(s, SpillCode(regs, 0) + Unspill(regs), sys) == Some(u)
    ensures forall r :: Get(u, r) == Get(s, r)
    ensures forall k :: k >= 1 ==> Word(u, k) == Word(s, k)
    ensures u.data == s.data && u.hi == s.hi && u.lo == s.lo
  {
    var t := SpillEffect(s, regs, 0, sys);
    u := UnspillEffect(t, regs, sys);
    Then(s, SpillCode(regs, 0), Unspill(regs), t, u, sys);
    SpillUnspillLayout(s, t, u, regs);
  }

  /** The same restore when arbitrary balanced code runs between the spill and
      the unspill: whatever left `$sp` and the n saved words in place. */
  lemma SpillBodyUnspill(s: State, t: State, body: State, regs: seq<Register>, sys: int -> int) returns (u: State)
    requires Distinct(regs) && SP !in regs
    requires Spilled(s, t, regs, 0)
    requires Sp(body) == Sp(t)
    requires forall k :: 1 <= k <= |regs| ==> Word(body, k) == Word(t, k)
    ensures Run(body, Unspill(regs), sys) == Some(u)
    ensures Sp(u) == Sp(s)
    ensures forall i :: 0 <= i < |regs| ==> Get(u, regs[i]) == Get(s, regs[i])
  {
    u := UnspillEffect(body, regs, sys);
    forall i | 0 <= i < |regs|
      ensures Get(u, regs[i]) == Get(s, regs[i])
    {
      assert Word(t, 0 + 1 + i) == Get(s, regs[i]);
    }
  }

  lemma DeepSpillUnspillLayout(s: State, t: State, u: State, r: Register, depth: nat)
    requires depth > 0
    requires Spilled(s, t, [r], depth) && Unspilled(t, u, [r])
    ensures Sp(u) == Sp(s)
    ensures Get(u, r) == Word(s, 1)
    ensures forall k :: 1 <= k < depth ==> Word(u, k) == Word(s, k + 1)
    ensures Word(u, depth) == Get(s, r)
  {
    assert Get(u, [r][0]) == Word(t, 1 + 0);
    assert Word(t, 1) == Word(s, 1);
    forall k | 1 <= k < depth
      ensures Word(u, k) == Word(s, k + 1)
    {
      assert Word(t, k + 1) == Word(s, k + 1);
      assert Word(u, (k + 1) - 1) == Word(t, k + 1);
    }
    assert Word(t, depth + 1 + 0) == Get(s, [r][0]);
    assert Word(u, (depth + 1) - 1) == Word(t, depth + 1);
  }

  /** A single register spilled at depth d > 0 and restored by `unspill`: the
      register receives the first parameter word instead of its own value, and
      the parameter words come back shifted by one slot with the saved value
      at the bottom. Only `$sp` is restored. */
  lemma DeepSpillUnspillLoadsParameter(s: State, r: Register, depth: nat, sys: int -> int) returns (u: State)
    requires depth > 0 && r != SP && r != T9
    ensures Run(s, SpillCode([r], depth) + Unspill([r]), sys) == Some(u)
    ensures Sp(u) == Sp(s)
    ensures Get(u, r) == Word(s, 1)
    ensures forall k :: 1 <= k < depth ==> Word(u, k) == Word(s, k + 1)
    ensures Word(u, depth) == Get(s, r)
  {
    var t := SpillEffect(s, [r], depth, sys);
    u := UnspillEffect(t, [r], sys);
    Then(s, SpillCode([r], depth), Unspill([r]), t, u, sys);
    DeepSpillUnspillLayout(s, t, u, r, depth);
  }

  /** A concrete run: with `$sp` = 1000, `$ra` = 7 and the parameter word
      `4($sp)` = 5, spilling `$ra` at depth 1 and unspilling it leaves `$ra`
      equal to 5. */
  lemma DeepSpillUnspillLosesRegister()
    ensures var s := State(map[SP := 1000, RA := 7], map[1004 := 5], map[], 0, 0);
      var u := Run(s, SpillCode([RA], 1) + Unspill([RA]), x => x);
      u.Some? && Get(u.value, RA) == 5 && Get(s, RA) == 7
  {
    var s := State(map[SP := 1000, RA := 7], map[1004 := 5], map[], 0, 0);
    var u := DeepSpillUnspillLoadsParameter(s, RA, 1, x => x);
    assert Word(s, 1) == 5;
  }

  // ---------------------------------------------------------------------
  // The depth-aware restore.

  lemma UnspillAtRun(t: State, t1: State, t2: State, u: State, regs: seq<Register>, depth: nat, sys: int -> int)
    requires Run(t, Loads(regs, depth + 1), sys) == Some(t1)
    requires Run(t1, Raise(depth, |regs|), sys) == Some(t2)
    requires Run(t2, [AddSp(4 * |regs|)], sys) == Some(u)
    ensures Run(t, UnspillAt(regs, depth), sys) == Some(u)
  {
    var loads, raise := Loads(regs, depth + 1), Raise(depth, |regs|);
    Then(t1, raise, [AddSp(4 * |regs|)], t2, u, sys);
    Then(t, loads, raise + [AddSp(4 * |regs|)], t1, u, sys);
    assert UnspillAt(regs, depth) == loads + (raise + [AddSp(4 * |regs|)]);
  }

  lemma UnspillAtLayout(t: State, t1: State, t2: State, u: State, regs: seq<Register>, depth: nat)
    requires SP !in regs && T9 !in regs
    requires Loaded(t, t1, regs, depth + 1) && Raised(t1, t2, depth, |regs|) && Released(t2, u, |regs|)
    ensures UnspilledAt(t, u, regs, depth)
  {
    var n := |regs|;
    forall i | 0 <= i < n
      ensures Get(u, regs[i]) == Word(t, depth + 1 + i)
    {
      var r := regs[i];
      assert r != SP && r != T9;
      assert Get(u, r) == Get(t2, r);
      assert Get(t2, r) == Get(t1, r);
    }
    forall r | r != SP && r != T9 && r !in regs
      ensures Get(u, r) == Get(t, r)
    {
      assert Get(t1, r) == Get(t, r);
      assert Get(t2, r) == Get(t1, r);
    }
    forall k | 1 <= k <= depth
      ensures Word(u, k) == Word(t, k)
    {
      assert Word(t1, k) == Word(t, k);
      assert Word(t2, k + n) == Word(t1, k);
    }
    forall k | k > depth + n
      ensures Word(u, k - n) == Word(t, k)
    {
      assert Word(t1, k) == Word(t, k);
      assert Word(t2, k) == Word(t1, k);
    }
  }

  /** What the depth-aware restore does: see `UnspilledAt`. */
  lemma UnspillAtEffect(t: State, regs: seq<Register>, depth: nat, sys: int -> int) returns (u: State)
    requires |regs| > 0 && Distinct(regs) && SP !in regs && T9 !in regs
    ensures Run(t, UnspillAt(regs, depth), sys) == Some(u)
    ensures UnspilledAt(t, u, regs, depth)
  {
    var n := |regs|;
    var t1 := LoadsEffect(t, regs, depth + 1, sys);
    var t2 := RaiseEffect(t1, depth, n, sys);
    u := AddSpEffect(t2, n, sys);
    UnspillAtRun(t, t1, t2, u, regs, depth, sys);
    UnspillAtLayout(t, t1, t2, u, regs, depth);
  }

  lemma SpillUnspillAtLayout(s: State, t: State, u: State, regs: seq<Register>, depth: nat)
    requires Spilled(s, t, regs, depth) && UnspilledAt(t, u, regs, depth)
    ensures Sp(u) == Sp(s)
    ensures forall r :: r != T9 ==> Get(u, r) == Get(s, r)
    ensures depth == 0 ==> Get(u, T9) == Get(s, T9)
    ensures forall k :: k >= 1 ==> Word(u, k) == Word(s, k)
    ensures u.data == s.data
  {
    var n := |regs|;
    forall r | r != T9
      ensures Get(u, r) == Get(s, r)
    {
      if r in regs {
        var i :| 0 <= i < n && regs[i] == r;
        assert Get(u, regs[i]) == Word(t, depth + 1 + i);
      }
    }
    forall k | k >= 1
      ensures Word(u, k) == Word(s, k)
    {
      if k <= depth {
        assert Word(t, k) == Word(s, k);
      } else {
        assert Word(t, k + n) == Word(s, k);
        assert Word(u, (k + n) - n) == Word(t, k + n);
      }
    }
  }

  /** The depth-aware restore undoes a spill at any depth: `$sp`, every
      register but the scratch one, and every stack word from `4($sp)` up are
      as before the spill. */
  lemma SpillUnspillAtRoundTrip(s: State, regs: seq<Register>, depth: nat, sys: int -> int) returns (u: State)
    requires |regs| > 0 && Distinct(regs) && SP !in regs && T9 !in regs
    ensures Run(s, SpillCode(regs, depth) + UnspillAt(regs, depth), sys) == Some(u)
    ensures Sp(u) == Sp(s)
    ensures forall r :: r != T9 ==> Get(u, r) == Get(s, r)
    ensures depth == 0 ==> Get(u, T9) == Get(s, T9)
    ensures forall k :: k >= 1 ==> Word(u, k) == Word(s, k)
    ensures u.data == s.data
  {
    var t := SpillEffect(s, regs, depth, sys);
    u := UnspillAtEffect(t, regs, depth, sys);
    Then(s, SpillCode(regs, depth), UnspillAt(regs, depth), t, u, sys);
    SpillUnspillAtLayout(s, t, u, regs, depth);
  }
}
