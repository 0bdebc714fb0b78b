/** The calling convention shared by `call` and the procedure prologue: the
    callee-saved registers and the count of stack-relative parameters that
    fixes the spill depth. */
module Convention {
  import opened Ast

  /** `PROCEDURE_SPILLS`: `$s0` … `$s7`, in that order. */
  const ProcedureSpills: seq<Register> := [
    Register("$s0"), Register("$s1"), Register("$s2"), Register("$s3"),
    Register("$s4"), Register("$s5"), Register("$s6"), Register("$s7")
  ]

  /** A parameter bound to a pointer whose base is `$sp`. */
  predicate IsStackParameter(o: Operand)
  {
    o.Ptr? && o.base == SP
  }

  /** The spill depth of a procedure: how many of its parameters are
      `$sp`-relative pointers. */
  function SpDepth(params: Parameters): (d: nat)
    ensures d <= |params|
  {
    if |params| == 0 then 0
    else (if IsStackParameter(params[0].1) then 1 else 0) + SpDepth(params[1..])
  }

  /** The depth is zero exactly when no parameter is `$sp`-relative, and it is
      the full length exactly when all are. */
  lemma {:induction false} SpDepthBounds(params: Parameters)
    ensures SpDepth(params) == 0 <==> forall k :: 0 <= k < |params| ==> !IsStackParameter(params[k].1)
    ensures SpDepth(params) == |params| <==> forall k :: 0 <= k < |params| ==> IsStackParameter(params[k].1)
  {
    if |params| > 0 {
      SpDepthBounds(params[1..]);
      assert forall k :: 1 <= k < |params| ==> params[k] == params[1..][k - 1];
    }
  }

  /** The depth of a concatenation is the sum of the depths. */
  lemma {:induction false} SpDepthConcat(a: Parameters, b: Parameters)
    ensures SpDepth(a + b) == SpDepth(a) + SpDepth(b)
  {
    if |a| == 0 {
      assert a + b == b;
    } else {
      assert (a + b)[1..] == a[1..] + b;
      SpDepthConcat(a[1..], b);
    }
  }

  /** `(a: $a0, b: 4($sp))` has spill depth 1. */
  lemma SpDepthExample()
    ensures SpDepth([("a", Reg(Register("$a0"))), ("b", Ptr(SP, 4))]) == 1
  {
    var p: Parameters := [("a", Reg(Register("$a0"))), ("b", Ptr(SP, 4))];
    assert p[1..] == [("b", Ptr(SP, 4))];
    assert p[1..][1..] == [];
  }

  /** The callee-saved registers are eight distinct registers, none of them
      `$sp` or the scratch register. */
  lemma ProcedureSpillsWellFormed()
    ensures |ProcedureSpills| == 8
    ensures forall i, j :: 0 <= i < j < |ProcedureSpills| ==> ProcedureSpills[i] != ProcedureSpills[j]
    ensures SP !in ProcedureSpills && T9 !in ProcedureSpills
  {
  }
}
