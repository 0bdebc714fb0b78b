/** The spill engine (`SpillContext` in mippet/nodes/instruction.py): code
    that saves registers on the stack and restores them, and the LIFO list of
    spilled groups it keeps. */
module Spill {
  import opened Ast
  import opened Wrappers

  /** A tuple of registers spilled together. */
  type Group = seq<Register>

  /** `addi $sp, $sp, k`. */
  function AddSp(k: int): Instruction
  {
    MathInt(AddI, SP, SP, Num(k))
  }

  /** The stack slot `4*k($sp)`. */
  function Slot(k: int): Address
  {
    AtOffset(SP, 4 * k)
  }

  /** `sw regs[i], 4*(first+i)($sp)` for each register in order. */
  function Stores(regs: seq<Register>, first: int): (code: seq<Instruction>)
    ensures |code| == |regs|
    decreases |regs|
  {
    if |regs| == 0 then [] else [Sw(Slot(first), regs[0])] + Stores(regs[1..], first + 1)
  }

  /** `lw regs[i], 4*(first+i)($sp)` for each register in order. */
  function Loads(regs: seq<Register>, first: int): (code: seq<Instruction>)
    ensures |code| == |regs|
    decreases |regs|
  {
    if |regs| == 0 then [] else [Lw(regs[0], Slot(first))] + Loads(regs[1..], first + 1)
  }

  /** For i = 1 … depth: `lw $t9, 4(i+1)($sp)` then `sw $t9, 4i($sp)`. */
  function Shifts(depth: nat): (code: seq<Instruction>)
    ensures |code| == 2 * depth
  {
    if depth == 0 then [] else Shifts(depth - 1) + [Lw(T9, Slot(depth + 1)), Sw(Slot(depth), T9)]
  }

  /** `spill(*regs, depth=depth)`: the emitted code, and the group stack with
      every group this call (and its recursive calls) appended. */
  function Spill(stack: seq<Group>, regs: seq<Register>, depth: nat): (r: (seq<Instruction>, seq<Group>))
    decreases |regs|
  {
    if |regs| == 0 then ([], stack)
    else
      var pushed := stack + [regs];
      if depth == 0 then
        ([AddSp(-4 * |regs|)] + Stores(regs, 1), pushed)
      else if |regs| > 1 then
        var lastSpill := Spill(pushed, [regs[|regs| - 1]], depth);
        var restSpill := Spill(lastSpill.1, regs[..|regs| - 1], depth);
        (lastSpill.0 + restSpill.0, restSpill.1)
      else
        ([AddSp(-4)] + Shifts(depth) + [Sw(Slot(depth + 1), regs[0])], pushed)
  }

  function SpillCode(regs: seq<Register>, depth: nat): seq<Instruction>
  {
    Spill([], regs, depth).0
  }

  /** The groups one spill appends to the stack. */
  function SpillGroups(regs: seq<Register>, depth: nat): seq<Group>
  {
    Spill([], regs, depth).1
  }

  /** `unspill(regs)` with an explicit tuple: `lw r_i, 4i($sp)` for each
      register, then `addi $sp, $sp, 4n`. No depth is taken into account. */
  function Unspill(regs: seq<Register>): seq<Instruction>
  {
    Loads(regs, 1) + [AddSp(4 * |regs|)]
  }

  /** `unspill()`: pops the most recently spilled group; `pop` of an empty
      list raises IndexError. */
  function UnspillTop(stack: seq<Group>): (r: Result<(seq<Instruction>, seq<Group>)>)
    ensures r.Err? <==> |stack| == 0
  {
    if |stack| == 0 then Err(IndexError("pop from empty list"))
    else Ok((Unspill(stack[|stack| - 1]), stack[..|stack| - 1]))
  }

  // ---------------------------------------------------------------------
  // Structural laws.

  /** One unfolding of the recursive case. */
  lemma SpillUnfold(stack: seq<Group>, regs: seq<Register>, depth: nat)
    requires |regs| > 1 && depth > 0
    ensures var lastSpill := Spill(stack + [regs], [regs[|regs| - 1]], depth);
            var restSpill := Spill(lastSpill.1, regs[..|regs| - 1], depth);
            Spill(stack, regs, depth) == (lastSpill.0 + restSpill.0, restSpill.1)
  {
  }

  /** The emitted code does not depend on the group stack, and a spill only
      appends to that stack. */
  lemma {:induction false} SpillAppends(stack: seq<Group>, regs: seq<Register>, depth: nat)
    ensures Spill(stack, regs, depth).0 == SpillCode(regs, depth)
    ensures Spill(stack, regs, depth).1 == stack + SpillGroups(regs, depth)
    decreases |regs|
  {
    if |regs| > 1 && depth > 0 {
      var last, prefix := [regs[|regs| - 1]], regs[..|regs| - 1];
      SpillUnfold(stack, regs, depth);
      SpillUnfold([], regs, depth);
      assert [] + [regs] == [regs];
      SpillAppends(stack + [regs], last, depth);
      SpillAppends([regs], last, depth);
      var a := Spill(stack + [regs], last, depth).1;
      var a0 := Spill([regs], last, depth).1;
      assert a == stack + a0 by {
        assert a == (stack + [regs]) + SpillGroups(last, depth);
        assert a0 == [regs] + SpillGroups(last, depth);
      }
      SpillAppends(a, prefix, depth);
      SpillAppends(a0, prefix, depth);
    }
  }

  /** Every spill pushes its whole tuple first. A spill at depth 0, or of a
      single register, pushes exactly one group;
      a multi-register spill at a positive depth pushes one group per
      recursive call, 2n-1 in all, the last of them the first register alone. */
  lemma {:induction false} SpillGroupCount(regs: seq<Register>, depth: nat)
    requires |regs| > 0
    ensures |SpillGroups(regs, depth)| > 0 && SpillGroups(regs, depth)[0] == regs
    ensures depth == 0 || |regs| == 1 ==> SpillGroups(regs, depth) == [regs]
    ensures depth > 0 ==> |SpillGroups(regs, depth)| == 2 * |regs| - 1
    ensures depth > 0 ==> SpillGroups(regs, depth)[|SpillGroups(regs, depth)| - 1] == [regs[0]]
    decreases |regs|
  {
    if depth > 0 && |regs| > 1 {
      var last, prefix := [regs[|regs| - 1]], regs[..|regs| - 1];
      var a := Spill([regs], last, depth).1;
      SpillUnfold([], regs, depth);
      assert [] + [regs] == [regs];
      SpillAppends([regs], last, depth);
      SpillGroupCount(last, depth);
      assert a == [regs, last];
      SpillAppends(a, prefix, depth);
      SpillGroupCount(prefix, depth);
      assert prefix[0] == regs[0];
    }
  }

  /** `unspill()` right after `spill(*regs, depth=depth)` pops one group: the
      whole tuple at depth 0 or for one register, only the first register
      after a multi-register spill at a positive depth. */
  lemma SpillThenUnspillTop(stack: seq<Group>, regs: seq<Register>, depth: nat)
    requires |regs| > 0
    ensures depth == 0 || |regs| == 1 ==>
      UnspillTop(Spill(stack, regs, depth).1) == Ok((Unspill(regs), stack))
    ensures depth > 0 ==> UnspillTop(Spill(stack, regs, depth).1).Ok?
    ensures depth > 0 ==> UnspillTop(Spill(stack, regs, depth).1).value.0 == Unspill([regs[0]])
  {
    SpillAppends(stack, regs, depth);
    SpillGroupCount(regs, depth);
    var after := Spill(stack, regs, depth).1;
    if depth == 0 || |regs| == 1 {
      assert after == stack + [regs];
      assert after[..|after| - 1] == stack;
    }
  }

  /** The code length: n+1 instructions at depth 0, and 2d+2 per register at
      depth d > 0. */
  lemma {:induction false} SpillCodeLength(regs: seq<Register>, depth: nat)
    ensures |regs| == 0 ==> |SpillCode(regs, depth)| == 0
    ensures |regs| > 0 && depth == 0 ==> |SpillCode(regs, depth)| == |regs| + 1
    ensures depth > 0 ==> |SpillCode(regs, depth)| == |regs| * (2 * depth + 2)
    decreases |regs|
  {
    if depth > 0 && |regs| > 1 {
      var last, prefix := [regs[|regs| - 1]], regs[..|regs| - 1];
      SpillCodeSplit(regs, depth);
      SpillCodeLength(last, depth);
      SpillCodeLength(prefix, depth);
      var k := 2 * depth + 2;
      assert |SpillCode(regs, depth)| == k + (|regs| - 1) * k;
      assert k + (|regs| - 1) * k == |regs| * k;
    }
  }

  /** Spilling no registers emits nothing and leaves the group stack alone. */
  lemma SpillNothing(stack: seq<Group>, depth: nat)
    ensures Spill(stack, [], depth) == ([], stack)
  {
  }

  lemma {:induction false} StoresIndex(regs: seq<Register>, first: int)
    ensures forall i :: 0 <= i < |regs| ==> Stores(regs, first)[i] == Sw(Slot(first + i), regs[i])
    decreases |regs|
  {
    if |regs| > 0 {
      StoresIndex(regs[1..], first + 1);
      forall i | 1 <= i < |regs|
        ensures Stores(regs, first)[i] == Sw(Slot(first + i), regs[i])
      {
        assert Stores(regs, first)[i] == Stores(regs[1..], first + 1)[i - 1];
        assert regs[1..][i - 1] == regs[i];
      }
    }
  }

  lemma {:induction false} LoadsIndex(regs: seq<Register>, first: int)
    ensures forall i :: 0 <= i < |regs| ==> Loads(regs, first)[i] == Lw(regs[i], Slot(first + i))
    decreases |regs|
  {
    if |regs| > 0 {
      LoadsIndex(regs[1..], first + 1);
      forall i | 1 <= i < |regs|
        ensures Loads(regs, first)[i] == Lw(regs[i], Slot(first + i))
      {
        assert Loads(regs, first)[i] == Loads(regs[1..], first + 1)[i - 1];
        assert regs[1..][i - 1] == regs[i];
      }
    }
  }

  /** At depth 0 a spill of n registers is `addi $sp, $sp, -4n` followed by
      `sw regs[i], 4(i+1)($sp)` for each i, and pushes the tuple as one group. */
  lemma ShallowSpillCode(stack: seq<Group>, regs: seq<Register>)
    requires |regs| > 0
    ensures var r := Spill(stack, regs, 0);
      && |r.0| == |regs| + 1
      && r.0[0] == AddSp(-4 * |regs|)
      && (forall i :: 0 <= i < |regs| ==> r.0[i + 1] == Sw(Slot(i + 1), regs[i]))
      && r.1 == stack + [regs]
  {
    StoresIndex(regs, 1);
  }

  /** `unspill(regs)` is `lw regs[i], 4(i+1)($sp)` for each i, then
      `addi $sp, $sp, 4n`. */
  lemma UnspillCode(regs: seq<Register>)
    ensures |Unspill(regs)| == |regs| + 1
    ensures forall i :: 0 <= i < |regs| ==> Unspill(regs)[i] == Lw(regs[i], Slot(i + 1))
    ensures Unspill(regs)[|regs|] == AddSp(4 * |regs|)
  {
    LoadsIndex(regs, 1);
  }

  /** A multi-register spill at a positive depth is the spill of the last
      register followed by the spill of the others. */
  lemma SpillCodeSplit(regs: seq<Register>, depth: nat)
    requires |regs| > 1 && depth > 0
    ensures SpillCode(regs, depth)
         == SpillCode([regs[|regs| - 1]], depth) + SpillCode(regs[..|regs| - 1], depth)
  {
    var last, prefix := [regs[|regs| - 1]], regs[..|regs| - 1];
    SpillUnfold([], regs, depth);
    assert [] + [regs] == [regs];
    SpillAppends([regs], last, depth);
    SpillAppends(Spill([regs], last, depth).1, prefix, depth);
  }

  /** A single register spilled at a positive depth: reserve one slot, shift
      the `depth` words above it up, store the register beneath them. */
  lemma SingleSpillCode(r: Register, depth: nat)
    requires depth > 0
    ensures SpillCode([r], depth) == [AddSp(-4)] + Shifts(depth) + [Sw(Slot(depth + 1), r)]
  {
  }

  // ---------------------------------------------------------------------
  // A depth-aware restore, the counterpart `unspill` lacks.

  /** For k = depth down to 1: `lw $t9, 4k($sp)` then `sw $t9, 4(k+n)($sp)`,
      moving the top `depth` words up by n slots. */
  function Raise(depth: nat, n: nat): (code: seq<Instruction>)
    ensures |code| == 2 * depth
  {
    if depth == 0 then [] else [Lw(T9, Slot(depth)), Sw(Slot(depth + n), T9)] + Raise(depth - 1, n)
  }

  /** Restores registers spilled at `depth`: loads them from underneath the
      `depth` parameter words, moves those words back up, and releases the
      slots. */
  function UnspillAt(regs: seq<Register>, depth: nat): seq<Instruction>
  {
    Loads(regs, depth + 1) + Raise(depth, |regs|) + [AddSp(4 * |regs|)]
  }

  /** At depth 0 the depth-aware restore is the source's `unspill`. */
  lemma UnspillAtZero(regs: seq<Register>)
    ensures UnspillAt(regs, 0) == Unspill(regs)
  {
    assert Raise(0, |regs|) == [];
  }
}
