/** A small register/memory machine giving meaning to the straight-line code
    the lowering emits: `addi`, `li`, `lw`, `sw`, `move`, `mul`, `div`,
    `mfhi` and a bare `syscall`. Jumps and every other mnemonic are not
    executable here. Integers are unbounded. */
module Machine {
  import opened Ast
  import opened Text
  import opened Wrappers

  /** Registers, word memory by byte address, the words behind data labels,
      and the HI/LO pair `div` writes. Absent entries read as 0. */
  datatype State = State(regs: map<Register, int>, mem: map<int, int>, data: map<string, int>, hi: int, lo: int)

  function Get(s: State, r: Register): int
  {
    if r in s.regs then s.regs[r] else 0
  }

  /** Reads the word at a byte address. Every address holds a word: there are
      no alignment or address-range faults. */
  function Load(m: map<int, int>, a: int): int
  {
    if a in m then m[a] else 0
  }

  function DataWord(s: State, name: string): int
  {
    if name in s.data then s.data[name] else 0
  }

  /** Writes a register. Every register is writable here, `$zero` included. */
  function Set(s: State, r: Register, v: int): (t: State)
    ensures Get(t, r) == v
    ensures forall q :: q != r ==> Get(t, q) == Get(s, q)
    ensures t.mem == s.mem && t.data == s.data && t.hi == s.hi && t.lo == s.lo
  {
    s.(regs := s.regs[r := v])
  }

  function Sp(s: State): int
  {
    Get(s, SP)
  }

  /** The stack word `4*k($sp)`. */
  function Word(s: State, k: int): int
  {
    Load(s.mem, Sp(s) + 4 * k)
  }

  /** Quotient rounded toward zero, as MIPS `div` computes it. */
  function TruncDiv(a: int, b: int): int
    requires b != 0
  {
    if (a >= 0) == (b > 0) then (if a >= 0 then a else -a) / (if b > 0 then b else -b)
    else -((if a >= 0 then a else -a) / (if b > 0 then b else -b))
  }

  /** The remainder `div` leaves in HI: it takes the sign of the dividend. */
  function TruncRem(a: int, b: int): int
    requires b != 0
  {
    a - b * TruncDiv(a, b)
  }

  /** The value an immediate operand of `li` loads, when it has one. */
  function Immediate(o: Operand): Option<int>
  {
    match o
    case Num(n) => Some(n)
    case Literal(t) => if IsDecimal(t) then Some(ParseInt(t)) else None
    case _ => None
  }

  /** One step. `sys` maps the service number in `$v0` to the value the
      system call leaves in `$v0`. */
  function Exec(s: State, i: Instruction, sys: int -> int): Option<State>
  {
    match i
    case MathInt(AddI, d, a, v) =>
      (match Immediate(v)
       case Some(k) => Some(Set(s, d, Get(s, a) + k))
       case None => None)
    case Li(d, v) =>
      (match Immediate(v)
       case Some(k) => Some(Set(s, d, k))
       case None => None)
    case Lw(d, AtOffset(b, off)) => Some(Set(s, d, Load(s.mem, Get(s, b) + off)))
    case Lw(d, AtLabel(n)) => Some(Set(s, d, DataWord(s, n)))
    case Sw(AtOffset(b, off), r) => Some(s.(mem := s.mem[Get(s, b) + off := Get(s, r)]))
    case Sw(AtLabel(n), r) => Some(s.(data := s.data[n := Get(s, r)]))
    case Move(src, dst) => Some(Set(s, dst, Get(s, src)))
    case MathReg(Mul, d, a, b) => Some(Set(s, d, Get(s, a) * Get(s, b)))
    case Generic(m, args) =>
      if m == "div" && |args| == 2 && args[0].Reg? && args[1].Reg? then
        var a, b := Get(s, args[0].reg), Get(s, args[1].reg);
        if b == 0 then None else Some(s.(hi := TruncRem(a, b), lo := TruncDiv(a, b)))
      else if m == "mfhi" && |args| == 1 && args[0].Reg? then
        Some(Set(s, args[0].reg, s.hi))
      else None
    case Syscall(None) => Some(Set(s, V0, sys(Get(s, V0))))
    case _ => None
  }

  function Run(s: State, code: seq<Instruction>, sys: int -> int): Option<State>
    decreases |code|
  {
    if |code| == 0 then Some(s)
    else
      match Exec(s, code[0], sys)
      case None => None
      case Some(t) => Run(t, code[1..], sys)
  }

  /** Running a concatenation runs the first part, then the second. */
  lemma {:induction false} RunConcat(s: State, a: seq<Instruction>, b: seq<Instruction>, sys: int -> int)
    ensures Run(s, a + b, sys) == (match Run(s, a, sys) case None => None case Some(t) => Run(t, b, sys))
    decreases |a|
  {
    if |a| > 0 {
      assert (a + b)[0] == a[0];
      assert (a + b)[1..] == a[1..] + b;
      match Exec(s, a[0], sys)
      case None =>
      case Some(t) => RunConcat(t, a[1..], b, sys);
    } else {
      assert a + b == b;
    }
  }

  /** For a non-negative dividend and positive divisor the `div` remainder is
      the mathematical one; for a negative dividend it is not. */
  lemma TruncRemNonNegative(a: int, b: int)
    requires a >= 0 && b > 0
    ensures TruncRem(a, b) == a % b
  {
  }

  lemma TruncRemExamples()
    ensures TruncRem(7, 3) == 1
    ensures TruncRem(-7, 3) == -1 && (-7) % 3 == 2
  {
  }
}
