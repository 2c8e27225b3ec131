/** The LLVM instructions the code generator emits, kept abstract (no text), and a
    small machine that gives them meaning: 32-bit integers, booleans, pointers into
    zero-filled blocks, and blocks of code entered through labels. Only the
    instructions the generator emits are interpreted; a call to a method body is
    not. */
module IR {
  import opened Options

  /** What an expression visit hands back as `"type value"`: a register, an integer
      or boolean literal, or a global name. */
  datatype Operand = Reg(name: string) | Const(value: int) | Flag(truth: bool) | Global(symbol: string)

  datatype Typed = Typed(ty: string, op: Operand)

  datatype ArithOp = Add | Sub | Mul | Slt

  datatype Callee = Named(fn: string) | Pointer(target: Operand)

  datatype Instr =
    | Arith(dst: string, op: ArithOp, ty: string, a: Operand, b: Operand)
    | Xor(dst: string, ty: string, a: Operand, b: Operand)
    | CondBr(cond: Operand, ifTrue: string, ifFalse: string)
    | Jump(target: string)
    | Label(name: string)
    | Gep(dst: string, elemTy: string, ptr: Operand, indices: seq<Operand>)
    | Load(dst: string, ty: string, ptr: Operand)
    | Store(ty: string, value: Operand, ptr: Operand)
    | Bitcast(dst: string, fromTy: string, src: Operand, toTy: string)
    | Call(result: Option<string>, retTy: string, callee: Callee, args: seq<Typed>)
    | Phi(dst: string, ty: string, incoming: seq<(Operand, string)>)
    | Alloca(dst: string, ty: string)
    | Ret(returned: Typed)

  /** Java `int` arithmetic: the result reduced into [-2^31, 2^31). */
  function Wrap32(x: int): (r: int)
    ensures -0x8000_0000 <= r < 0x8000_0000
    ensures -0x8000_0000 <= x < 0x8000_0000 ==> r == x
  {
    (x + 0x8000_0000) % 0x1_0000_0000 - 0x8000_0000
  }

  /** The byte size of an element in a typed `getelementptr`. An `i8*` takes 8
      bytes: the emitted code indexes vtables for a 64-bit target. This is
      independent of `Layout.Target.pointerSize`, the field-offset constant the
      layout pass takes as a parameter. */
  function ElemSize(elemTy: string): int
  {
    if elemTy == "i32" then 4 else if elemTy == "i8*" then 8 else 1
  }

  // ---------------------------------------------------------------------------
  // Machine

  datatype Value = VInt(i: int) | VBool(b: bool) | VPtr(block: nat, offset: int)

  /** Registers, memory cells addressed by (block, byte offset), the number of
      blocks allocated so far, the current code block and the one before it. */
  datatype Machine = Machine(
    regs: map<string, Value>,
    mem: map<(nat, int), Value>,
    blocks: nat,
    block: string,
    pred: string)

  function Eval(m: Machine, op: Operand): Option<Value>
  {
    match op
    case Reg(x) => if x in m.regs then Some(m.regs[x]) else None
    case Const(n) => Some(VInt(n))
    case Flag(b) => Some(VBool(b))
    case Global(_) => None
  }

  /** A read of memory `calloc` zero-filled and nothing has overwritten. */
  function ReadCell(m: Machine, block: nat, offset: int): Value
  {
    if (block, offset) in m.mem then m.mem[(block, offset)] else VInt(0)
  }

  function SetReg(m: Machine, x: string, v: Value): Machine
  {
    m.(regs := m.regs[x := v])
  }

  function ArithValue(op: ArithOp, a: int, b: int): Value
  {
    match op
    case Add => VInt(Wrap32(a + b))
    case Sub => VInt(Wrap32(a - b))
    case Mul => VInt(Wrap32(a * b))
    case Slt => VBool(a < b)
  }

  /** One straight-line instruction; None where the machine has no meaning for it. */
  function Step(m: Machine, ins: Instr): Option<Machine>
  {
    match ins
    case Arith(dst, op, _, a, b) =>
      (match (Eval(m, a), Eval(m, b))
       case (Some(VInt(x)), Some(VInt(y))) => Some(SetReg(m, dst, ArithValue(op, x, y)))
       case _ => None)
    case Xor(dst, _, a, b) =>
      (match (Eval(m, a), Eval(m, b))
       case (Some(VBool(x)), Some(VBool(y))) => Some(SetReg(m, dst, VBool(x != y)))
       case _ => None)
    case Gep(dst, elemTy, p, indices) =>
      if |indices| != 1 then None
      else
        (match (Eval(m, p), Eval(m, indices[0]))
         case (Some(VPtr(blk, off)), Some(VInt(k))) => Some(SetReg(m, dst, VPtr(blk, off + ElemSize(elemTy) * k)))
         case _ => None)
    case Load(dst, _, p) =>
      (match Eval(m, p)
       case Some(VPtr(blk, off)) => Some(SetReg(m, dst, ReadCell(m, blk, off)))
       case _ => None)
    case Store(_, v, p) =>
      (match (Eval(m, v), Eval(m, p))
       case (Some(x), Some(VPtr(blk, off))) => Some(m.(mem := m.mem[(blk, off) := x]))
       case _ => None)
    case Bitcast(dst, _, src, _) =>
      (match Eval(m, src)
       case Some(v) => Some(SetReg(m, dst, v))
       case None => None)
    // `calloc` is idealised: it ignores its arguments and never fails.
    case Call(Some(dst), _, Named("calloc"), _) =>
      Some(SetReg(m.(blocks := m.blocks + 1), dst, VPtr(m.blocks, 0)))
    case _ => None
  }

  /** Straight-line code: no labels, branches, merges, calls other than `calloc`, or returns. */
  predicate Straight(ins: Instr)
  {
    ins.Arith? || ins.Xor? || ins.Gep? || ins.Load? || ins.Store? || ins.Bitcast?
    || (ins.Call? && ins.result.Some? && ins.callee == Named("calloc"))
  }

  function RunStraight(m: Machine, code: seq<Instr>): Option<Machine>
    decreases |code|
  {
    if |code| == 0 then Some(m)
    else
      match Step(m, code[0])
      case None => None
      case Some(m') => RunStraight(m', code[1..])
  }

  /** How a run of a code sequence ends. */
  datatype Outcome = Done(m: Machine) | Exit(m: Machine) | Returned(v: Value) | Stuck | OutOfFuel

  /** The first position of a label. */
  function FindLabel(code: seq<Instr>, name: string): (r: Option<nat>)
    ensures r.Some? ==> r.value < |code| && code[r.value] == Label(name)
    ensures r.None? ==> forall i :: 0 <= i < |code| ==> code[i] != Label(name)
  {
    if |code| == 0 then None
    else if code[0] == Label(name) then Some(0)
    else match FindLabel(code[1..], name)
      case None => None
      case Some(i) => Some(i + 1)
  }

  function Enter(m: Machine, name: string): Machine
  {
    m.(pred := m.block, block := name)
  }

  /** Run from position `pc`. Falling into a label or branching to one enters its
      block; a phi picks the operand listed for the block control came from;
      `throw_oob` ends the program. */
  function Exec(code: seq<Instr>, pc: nat, m: Machine, fuel: nat): Outcome
    decreases fuel, 1
  {
    if pc >= |code| then Done(m)
    else if fuel == 0 then OutOfFuel
    else ExecAt(code, pc, m, fuel)
  }

  /** The instruction at `pc`, taken. */
  function ExecAt(code: seq<Instr>, pc: nat, m: Machine, fuel: nat): Outcome
    requires pc < |code| && fuel > 0
    decreases fuel, 0
  {
    match code[pc]
    case Label(name) => Exec(code, pc + 1, Enter(m, name), fuel - 1)
    case Jump(target) => Goto(code, m, target, fuel - 1)
    case CondBr(c, t, f) =>
      (match Eval(m, c)
       case Some(VBool(b)) => Goto(code, m, if b then t else f, fuel - 1)
       case _ => Stuck)
    case Phi(dst, _, incoming) =>
      (match PhiPick(incoming, m.pred)
       case None => Stuck
       case Some(op) =>
         match Eval(m, op)
         case None => Stuck
         case Some(v) => Exec(code, pc + 1, SetReg(m, dst, v), fuel - 1))
    case Call(_, _, Named("throw_oob"), _) => Exit(m)
    case Ret(v) =>
      (match Eval(m, v.op)
       case None => Stuck
       case Some(x) => Returned(x))
    case ins =>
      match Step(m, ins)
      case None => Stuck
      case Some(m') => Exec(code, pc + 1, m', fuel - 1)
  }

  function Goto(code: seq<Instr>, m: Machine, target: string, fuel: nat): Outcome
    decreases fuel, 2
  {
    match FindLabel(code, target)
    case None => Stuck
    case Some(j) => if fuel == 0 then OutOfFuel else Exec(code, j + 1, Enter(m, target), fuel - 1)
  }

  /** The operand a phi lists for a predecessor block. */
  function PhiPick(incoming: seq<(Operand, string)>, pred: string): (r: Option<Operand>)
    ensures r.None? <==> forall i :: 0 <= i < |incoming| ==> incoming[i].1 != pred
  {
    if |incoming| == 0 then None
    else if incoming[0].1 == pred then Some(incoming[0].0)
    else PhiPick(incoming[1..], pred)
  }

  /** A straight-line stretch of code runs exactly as `RunStraight` says. */
  lemma {:induction false} ExecStraight(code: seq<Instr>, pc: nat, seg: seq<Instr>, m: Machine, fuel: nat)
    requires pc + |seg| <= |code| && code[pc..pc + |seg|] == seg
    requires forall i :: 0 <= i < |seg| ==> Straight(seg[i])
    requires RunStraight(m, seg).Some?
    requires fuel >= |seg|
    ensures Exec(code, pc, m, fuel) == Exec(code, pc + |seg|, RunStraight(m, seg).value, fuel - |seg|)
    decreases |seg|
  {
    if |seg| > 0 {
      var m' := Step(m, seg[0]).value;
      assert code[pc] == seg[0];
      ExecStep(code, pc, m, fuel, m');
      assert code[pc + 1..pc + 1 + |seg[1..]|] == seg[1..];
      ExecStraight(code, pc + 1, seg[1..], m', fuel - 1);
    }
  }

  /** One straight-line instruction, as `Exec` takes it. */
  lemma ExecStep(code: seq<Instr>, pc: nat, m: Machine, fuel: nat, m': Machine)
    requires pc < |code| && fuel > 0 && Straight(code[pc]) && Step(m, code[pc]) == Some(m')
    ensures Exec(code, pc, m, fuel) == Exec(code, pc + 1, m', fuel - 1)
  {
  }

  /** Straight-line code composes: running `a + b` runs `a`, then `b`. */
  lemma {:induction false} RunStraightAppend(m: Machine, a: seq<Instr>, b: seq<Instr>)
    ensures RunStraight(m, a + b) == (match RunStraight(m, a) case None => None case Some(m') => RunStraight(m', b))
    decreases |a|
  {
    if |a| > 0 {
      assert (a + b)[0] == a[0];
      assert (a + b)[1..] == a[1..] + b;
      match Step(m, a[0])
      case None =>
      case Some(m1) => RunStraightAppend(m1, a[1..], b);
    } else {
      assert a + b == b;
    }
  }

  /** One straight-line instruction, as `Step` takes it on defined operands. */
  lemma StepArith(m: Machine, dst: string, op: ArithOp, ty: string, a: Operand, b: Operand, x: int, y: int)
    requires Eval(m, a) == Some(VInt(x)) && Eval(m, b) == Some(VInt(y))
    ensures Step(m, Arith(dst, op, ty, a, b)) == Some(SetReg(m, dst, ArithValue(op, x, y)))
  {
  }

  lemma StepXor(m: Machine, dst: string, ty: string, a: Operand, b: Operand, x: bool, y: bool)
    requires Eval(m, a) == Some(VBool(x)) && Eval(m, b) == Some(VBool(y))
    ensures Step(m, Xor(dst, ty, a, b)) == Some(SetReg(m, dst, VBool(x != y)))
  {
  }

  lemma StepLoad(m: Machine, dst: string, ty: string, p: Operand, blk: nat, off: int)
    requires Eval(m, p) == Some(VPtr(blk, off))
    ensures Step(m, Load(dst, ty, p)) == Some(SetReg(m, dst, ReadCell(m, blk, off)))
  {
  }

  lemma StepBitcast(m: Machine, dst: string, from: string, src: Operand, to: string, v: Value)
    requires Eval(m, src) == Some(v)
    ensures Step(m, Bitcast(dst, from, src, to)) == Some(SetReg(m, dst, v))
  {
  }

  lemma StepGep(m: Machine, dst: string, elemTy: string, p: Operand, index: Operand, blk: nat, off: int, k: int)
    requires Eval(m, p) == Some(VPtr(blk, off)) && Eval(m, index) == Some(VInt(k))
    ensures Step(m, Gep(dst, elemTy, p, [index])) == Some(SetReg(m, dst, VPtr(blk, off + ElemSize(elemTy) * k)))
  {
  }

  lemma StepStore(m: Machine, ty: string, v: Operand, p: Operand, x: Value, blk: nat, off: int)
    requires Eval(m, v) == Some(x) && Eval(m, p) == Some(VPtr(blk, off))
    ensures Step(m, Store(ty, v, p)) == Some(m.(mem := m.mem[(blk, off) := x]))
  {
  }

  /** Straight-line code whose every instruction steps to the next listed machine
      runs to the last one. */
  lemma {:induction false} RunSteps(code: seq<Instr>, ms: seq<Machine>)
    requires |ms| == |code| + 1
    requires forall i :: 0 <= i < |code| ==> Step(ms[i], code[i]) == Some(ms[i + 1])
    ensures RunStraight(ms[0], code) == Some(ms[|code|])
    decreases |code|
  {
    if |code| > 0 {
      assert Step(ms[0], code[0]) == Some(ms[1]);
      RunSteps(code[1..], ms[1..]);
    }
  }

  /** `RunSteps` for three, four and five instructions listed one by one. */
  lemma RunThree(m0: Machine, m1: Machine, m2: Machine, m3: Machine, i0: Instr, i1: Instr, i2: Instr)
    requires Step(m0, i0) == Some(m1) && Step(m1, i1) == Some(m2) && Step(m2, i2) == Some(m3)
    ensures RunStraight(m0, [i0, i1, i2]) == Some(m3)
  {
    RunSteps([i0, i1, i2], [m0, m1, m2, m3]);
  }

  lemma RunFour(m0: Machine, m1: Machine, m2: Machine, m3: Machine, m4: Machine,
                i0: Instr, i1: Instr, i2: Instr, i3: Instr)
    requires Step(m0, i0) == Some(m1) && Step(m1, i1) == Some(m2) && Step(m2, i2) == Some(m3)
    requires Step(m3, i3) == Some(m4)
    ensures RunStraight(m0, [i0, i1, i2, i3]) == Some(m4)
  {
    RunSteps([i0, i1, i2, i3], [m0, m1, m2, m3, m4]);
  }

  lemma RunFive(m0: Machine, m1: Machine, m2: Machine, m3: Machine, m4: Machine, m5: Machine,
                i0: Instr, i1: Instr, i2: Instr, i3: Instr, i4: Instr)
    requires Step(m0, i0) == Some(m1) && Step(m1, i1) == Some(m2) && Step(m2, i2) == Some(m3)
    requires Step(m3, i3) == Some(m4) && Step(m4, i4) == Some(m5)
    ensures RunStraight(m0, [i0, i1, i2, i3, i4]) == Some(m5)
  {
    RunSteps([i0, i1, i2, i3, i4], [m0, m1, m2, m3, m4, m5]);
  }

  /** A label found at `j` with no earlier occurrence is where branches to it land. */
  lemma {:induction false} FindLabelFirst(code: seq<Instr>, j: nat, name: string)
    requires j < |code| && code[j] == Label(name)
    requires forall i :: 0 <= i < j ==> code[i] != Label(name)
    ensures FindLabel(code, name) == Some(j)
    decreases j
  {
    if j > 0 {
      assert code[0] != Label(name);
      FindLabelFirst(code[1..], j - 1, name);
    }
  }

  /** One phi, one jump and one conditional branch, as `Exec` takes them. */
  lemma ExecPhi(code: seq<Instr>, pc: nat, m: Machine, fuel: nat, op: Operand, v: Value)
    requires pc < |code| && code[pc].Phi? && fuel > 0
    requires PhiPick(code[pc].incoming, m.pred) == Some(op) && Eval(m, op) == Some(v)
    ensures Exec(code, pc, m, fuel) == Exec(code, pc + 1, SetReg(m, code[pc].dst, v), fuel - 1)
  {
  }

  lemma ExecPhiStuck(code: seq<Instr>, pc: nat, m: Machine, fuel: nat)
    requires pc < |code| && code[pc].Phi? && fuel > 0
    requires PhiPick(code[pc].incoming, m.pred).None?
    ensures Exec(code, pc, m, fuel) == Stuck
  {
  }

  lemma ExecJump(code: seq<Instr>, pc: nat, m: Machine, fuel: nat, j: nat)
    requires pc < |code| && code[pc].Jump? && fuel > 1
    requires FindLabel(code, code[pc].target) == Some(j)
    ensures Exec(code, pc, m, fuel) == Exec(code, j + 1, Enter(m, code[pc].target), fuel - 2)
  {
    assert Exec(code, pc, m, fuel) == Goto(code, m, code[pc].target, fuel - 1);
  }

  lemma ExecCondBr(code: seq<Instr>, pc: nat, m: Machine, fuel: nat, b: bool, j: nat)
    requires pc < |code| && code[pc].CondBr? && fuel > 1
    requires Eval(m, code[pc].cond) == Some(VBool(b))
    requires FindLabel(code, if b then code[pc].ifTrue else code[pc].ifFalse) == Some(j)
    ensures Exec(code, pc, m, fuel) == Exec(code, j + 1, Enter(m, if b then code[pc].ifTrue else code[pc].ifFalse), fuel - 2)
  {
    assert Exec(code, pc, m, fuel) == Goto(code, m, if b then code[pc].ifTrue else code[pc].ifFalse, fuel - 1);
  }

  /** Straight-line code stays in the block it starts in. */
  lemma {:induction false} RunStraightKeepsBlock(m: Machine, code: seq<Instr>)
    requires RunStraight(m, code).Some?
    ensures RunStraight(m, code).value.block == m.block && RunStraight(m, code).value.pred == m.pred
    decreases |code|
  {
    if |code| > 0 {
      RunStraightKeepsBlock(Step(m, code[0]).value, code[1..]);
    }
  }
}
