/** The second pass (src/LLVMGenerator.java): walks the program tree and emits
    the LLVM instructions of every method, consulting the class layouts of the
    first pass and consuming its queue of receiver classes, one entry per
    message send. Instructions are kept abstract (`IR.Instr`); the text of an
    instruction is not modelled, except for the call-site function type, whose
    text the source builds with `MyUtils.filterSignature`. */
module CodeGen {
  import opened Options
  import opened Strings
  import opened OrderedMap
  import opened Layout
  import opened Syntax
  import opened EmissionState
  import opened Signatures
  import opened IR
  import SymbolTable

  /** Which corrections of the generator are on: a short-circuit `&&` taking its
      right-hand value from the block the right operand ends in (see
      `AndMergeLabel`), and array allocation rejecting a negative size (see
      `NewArrayChecked`). With both off the generator is the code as written. */
  datatype Fixes = Fixes(mergeFromEnd: bool, checkSize: bool)

  const AsWritten := Fixes(false, false)
  const Corrected := Fixes(true, true)

  /** What the generator reads: the target parameters, the first pass's class
      layouts, the class being compiled, and the corrections in force. */
  datatype Ctx = Ctx(t: Target, classes: OMap<ClassLayout>, className: string, fixes: Fixes)

  /** What the generator threads: the emission state, the instructions of the
      function being emitted, and the receiver classes not yet consumed. */
  datatype Gen = Gen(st: State, code: seq<Instr>, queue: seq<Option<string>>)

  /** Where Java would throw: a null dereference of a missing map entry, an empty
      queue, or `Integer.parseInt` of something that is not a number. */
  datatype CodeFault =
    | UnknownClass(className: string)
    | UnknownField(className: string, field: string)
    | UnknownMethod(className: string, methodName: string)
    | QueueEmpty
    | UntypedReceiver
    | NotAnInteger

  // ---------------------------------------------------------------------------
  // Emission primitives

  function Fresh(g: Gen): (r: (string, Gen))
    ensures r.0 == RegName(g.st.regCounter)
    ensures r.1 == g.(st := NewReg(g.st).1)
  {
    var (reg, st) := NewReg(g.st);
    (reg, g.(st := st))
  }

  function Emit(g: Gen, ins: Instr): (r: Gen)
    ensures r.code == g.code + [ins] && r.st == g.st && r.queue == g.queue
  {
    g.(code := g.code + [ins])
  }

  function EmitAll(g: Gen, ins: seq<Instr>): (r: Gen)
    ensures r.code == g.code + ins && r.st == g.st && r.queue == g.queue
    decreases |ins|
  {
    if |ins| == 0 then g else EmitAll(Emit(g, ins[0]), ins[1..])
  }

  /** `newLabel(kind)` for one of the four known kinds. */
  function NewLabels(g: Gen, kind: string): (r: (seq<string>, Gen))
    requires KindIndex(kind).Some?
    ensures r.0 == NewLabel(g.st, kind).0.value
    ensures |r.0| == |LabelBases[KindIndex(kind).value]|
    ensures r.1 == g.(st := NewLabel(g.st, kind).1)
  {
    var (ls, st) := NewLabel(g.st, kind);
    (ls.value, g.(st := st))
  }

  /** What the generator appended to `g`'s code to reach `g'`. */
  function Appended(g: Gen, g': Gen): seq<Instr>
    requires |g.code| <= |g'.code|
  {
    g'.code[|g.code|..]
  }

  /** `g'` continues `g`: the code only grows, registers are only handed out. */
  predicate Extends(g: Gen, g': Gen)
  {
    g.code <= g'.code && g.st.regCounter <= g'.st.regCounter
  }

  // ---------------------------------------------------------------------------
  // getArrayIndex

  /** `getArrayIndex`: element `i` of an array lives in word `i + 1`. A register
      index gets one `add`; a literal index is incremented in Java `int`
      arithmetic; anything else makes `Integer.parseInt` throw. */
  function GetArrayIndex(g: Gen, index: Operand): (r: Result<(Operand, Gen), CodeFault>)
    ensures r.Err? <==> !(index.Reg? || index.Const?)
    ensures index.Const? ==> r == Ok((Const(Wrap32(index.value + 1)), g))
    ensures index.Reg? ==>
      && r.value.0 == Reg(RegName(g.st.regCounter))
      && r.value.1.st.regCounter == g.st.regCounter + 1
      && r.value.1.code == g.code + [Arith(RegName(g.st.regCounter), Add, "i32", index, Const(1))]
    ensures r.Ok? ==> Extends(g, r.value.1) && r.value.1.queue == g.queue
  {
    match index
    case Reg(_) =>
      var (reg, g1) := Fresh(g);
      Ok((Reg(reg), Emit(g1, Arith(reg, Add, "i32", index, Const(1)))))
    case Const(n) => Ok((Const(Wrap32(n + 1)), g))
    case _ => Err(NotAnInteger)
  }

  /** Whatever form the index takes, the operand `getArrayIndex` returns holds the
      index plus one, as a Java `int`. */
  lemma ArrayIndexValue(g: Gen, index: Operand, m: Machine, i: int)
    requires Eval(m, index) == Some(VInt(i))
    requires GetArrayIndex(g, index).Ok?
    ensures var (op, g') := GetArrayIndex(g, index).value;
      && RunStraight(m, Appended(g, g')).Some?
      && Eval(RunStraight(m, Appended(g, g')).value, op) == Some(VInt(Wrap32(i + 1)))
  {
    var (op, g') := GetArrayIndex(g, index).value;
    if index.Reg? {
      var frag := Appended(g, g');
      assert frag == [Arith(RegName(g.st.regCounter), Add, "i32", index, Const(1))];
      var m1 := SetReg(m, RegName(g.st.regCounter), VInt(Wrap32(i + 1)));
      assert Step(m, frag[0]) == Some(m1);
      assert RunStraight(m, frag) == RunStraight(m1, frag[1..]);
    }
  }

  // ---------------------------------------------------------------------------
  // getField / getIdAddress

  /** The layout entry of a field of the class being compiled. */
  function FieldOf(ctx: Ctx, field: string): Option<FieldInfo>
  {
    match Get(ctx.classes, ctx.className)
    case None => None
    case Some(cls) => Get(cls.vars, field)
  }

  /** The instructions `getField` emits from register `n` on: the address as a
      byte offset from `%this`, a cast unless the field type is `i8`, a load when
      the content is wanted. */
  function FieldCode(n: nat, offset: int, ty: string, wantContent: bool): (r: seq<Instr>)
    ensures 1 <= |r| <= 3
  {
    var cast := if ty != "i8" then 1 else 0;
    [Gep(RegName(n), "i8", Reg("%this"), [Const(offset)])]
    + (if ty != "i8" then [Bitcast(RegName(n + 1), "i8*", Reg(RegName(n)), ty + "*")] else [])
    + (if wantContent then [Load(RegName(n + cast + 1), ty, Reg(RegName(n + cast)))] else [])
  }

  /** `getField`: the field's address is `%this` plus its offset, cast to a pointer
      to the field's LLVM type unless that type is `i8`; with `wantContent` the
      field is loaded too. The result is typed like the value or the pointer, and
      names the last register handed out. */
  function GetField(ctx: Ctx, g: Gen, field: string, wantContent: bool): (r: Result<(Typed, Gen), CodeFault>)
    ensures r.Err? <==> FieldOf(ctx, field).None?
    ensures r.Ok? ==>
      var ty := LlvmType(ctx.t, FieldOf(ctx, field).value.typeTag);
      && r.value.0.ty == (if wantContent then ty else ty + "*")
      && r.value.1.queue == g.queue
      && Extends(g, r.value.1)
  {
    match FieldOf(ctx, field)
    case None => Err(UnknownField(ctx.className, field))
    case Some(info) =>
      var ty := LlvmType(ctx.t, info.typeTag);
      var n := g.st.regCounter;
      var code := FieldCode(n, info.offset, ty, wantContent);
      var last := RegName(n + |code| - 1);
      Ok((Typed(if wantContent then ty else ty + "*", Reg(last)),
          g.(st := g.st.(regCounter := n + |code|), code := g.code + code)))
  }

  /** `%this` is never one of the numbered registers. */
  lemma ThisIsNotNumbered(n: nat)
    ensures RegName(n) != "%this"
  {
    assert RegName(n)[1] == '_';
    assert "%this"[1] == 't';
  }

  /** Running `[gep] + rest` from `m` is running `rest` after the address is set. */
  lemma FieldGepStep(n: nat, offset: int, rest: seq<Instr>, m: Machine, obj: nat)
    requires "%this" in m.regs && m.regs["%this"] == VPtr(obj, 0)
    ensures RunStraight(m, [Gep(RegName(n), "i8", Reg("%this"), [Const(offset)])] + rest)
         == RunStraight(SetReg(m, RegName(n), VPtr(obj, offset)), rest)
  {
    var code := [Gep(RegName(n), "i8", Reg("%this"), [Const(offset)])] + rest;
    assert code[0] == Gep(RegName(n), "i8", Reg("%this"), [Const(offset)]);
    assert code[1..] == rest;
    assert Step(m, code[0]) == Some(SetReg(m, RegName(n), VPtr(obj, offset)));
  }

  /** The field code run on an object `%this` points to: its last register points
      at the field's offset inside the object, or holds that cell's content. */
  lemma FieldCodeRuns(n: nat, offset: int, ty: string, wantContent: bool, m: Machine, obj: nat)
    requires "%this" in m.regs && m.regs["%this"] == VPtr(obj, 0)
    ensures var code := FieldCode(n, offset, ty, wantContent);
      && RunStraight(m, code).Some?
      && Eval(RunStraight(m, code).value, Reg(RegName(n + |code| - 1)))
         == Some(if wantContent then ReadCell(m, obj, offset) else VPtr(obj, offset))
  {
    var code := FieldCode(n, offset, ty, wantContent);
    var m1 := SetReg(m, RegName(n), VPtr(obj, offset));
    var rest := code[1..];
    FieldAddressStep(n, offset, ty, wantContent, m, obj);
    var want := if wantContent then ReadCell(m, obj, offset) else VPtr(obj, offset);
    if ty != "i8" {
      FieldCastRuns(n, offset, ty, wantContent, m1, obj);
      assert ReadCell(m1, obj, offset) == ReadCell(m, obj, offset);
    } else {
      FieldByteRuns(n, offset, ty, wantContent, m1, obj);
      assert ReadCell(m1, obj, offset) == ReadCell(m, obj, offset);
    }
  }

  lemma FieldAddressStep(n: nat, offset: int, ty: string, wantContent: bool, m: Machine, obj: nat)
    requires "%this" in m.regs && m.regs["%this"] == VPtr(obj, 0)
    ensures var code := FieldCode(n, offset, ty, wantContent);
      RunStraight(m, code) == RunStraight(SetReg(m, RegName(n), VPtr(obj, offset)), code[1..])
  {
    var code := FieldCode(n, offset, ty, wantContent);
    ThisIsNotNumbered(n);
    FieldGepStep(n, offset, code[1..], m, obj);
    assert code == [code[0]] + code[1..];
  }

  /** The part of the field code after the address, for an `i8` field. */
  lemma FieldByteRuns(n: nat, offset: int, ty: string, wantContent: bool, m1: Machine, obj: nat)
    requires ty == "i8"
    requires RegName(n) in m1.regs && m1.regs[RegName(n)] == VPtr(obj, offset)
    ensures var rest := FieldCode(n, offset, ty, wantContent)[1..];
      && RunStraight(m1, rest).Some?
      && Eval(RunStraight(m1, rest).value, Reg(RegName(n + |rest|)))
         == Some(if wantContent then ReadCell(m1, obj, offset) else VPtr(obj, offset))
  {
    ByteFieldRest(n, offset, ty, wantContent);
    if wantContent {
      FieldLoadStep(n + 1, n, ty, m1, obj, offset);
    }
  }

  /** After the address, the field code of an `i8` field is the load, if any. */
  lemma ByteFieldRest(n: nat, offset: int, ty: string, wantContent: bool)
    requires ty == "i8"
    ensures FieldCode(n, offset, ty, wantContent)[1..]
            == if wantContent then [Load(RegName(n + 1), ty, Reg(RegName(n)))] else []
  {
    var code := FieldCode(n, offset, ty, wantContent);
    var tail := if wantContent then [Load(RegName(n + 1), ty, Reg(RegName(n)))] else [];
    assert code == [Gep(RegName(n), "i8", Reg("%this"), [Const(offset)])] + tail;
  }

  /** The part of the field code after the address, for a field type other than `i8`. */
  lemma FieldCastRuns(n: nat, offset: int, ty: string, wantContent: bool, m1: Machine, obj: nat)
    requires ty != "i8"
    requires RegName(n) in m1.regs && m1.regs[RegName(n)] == VPtr(obj, offset)
    ensures var rest := FieldCode(n, offset, ty, wantContent)[1..];
      && RunStraight(m1, rest).Some?
      && Eval(RunStraight(m1, rest).value, Reg(RegName(n + |rest|)))
         == Some(if wantContent then ReadCell(m1, obj, offset) else VPtr(obj, offset))
  {
    var rest := FieldCode(n, offset, ty, wantContent)[1..];
    var cast := Bitcast(RegName(n + 1), "i8*", Reg(RegName(n)), ty + "*");
    var m2 := SetReg(m1, RegName(n + 1), VPtr(obj, offset));
    assert RunStraight(m1, rest) == RunStraight(m2, rest[1..]) by {
      assert Step(m1, cast) == Some(m2);
      assert rest[0] == cast;
    }
    if wantContent {
      assert rest[1..] == [Load(RegName(n + 2), ty, Reg(RegName(n + 1)))];
      FieldLoadStep(n + 2, n + 1, ty, m2, obj, offset);
      assert ReadCell(m2, obj, offset) == ReadCell(m1, obj, offset);
    } else {
      assert rest[1..] == [];
    }
  }

  lemma FieldLoadStep(dst: nat, src: nat, ty: string, m: Machine, obj: nat, offset: int)
    requires RegName(src) in m.regs && m.regs[RegName(src)] == VPtr(obj, offset)
    ensures RunStraight(m, [Load(RegName(dst), ty, Reg(RegName(src)))]) == Some(SetReg(m, RegName(dst), ReadCell(m, obj, offset)))
  {
    var load := Load(RegName(dst), ty, Reg(RegName(src)));
    assert Step(m, load) == Some(SetReg(m, RegName(dst), ReadCell(m, obj, offset)));
    assert [load][1..] == [];
  }

  /** A field access reaches the cell at the field's layout offset inside the
      object `%this` points to: the address register points there, and the
      loaded value is that cell's content. */
  lemma FieldAccess(ctx: Ctx, g: Gen, field: string, wantContent: bool, m: Machine, obj: nat)
    requires GetField(ctx, g, field, wantContent).Ok?
    requires "%this" in m.regs && m.regs["%this"] == VPtr(obj, 0)
    ensures var r := GetField(ctx, g, field, wantContent).value;
      var off := FieldOf(ctx, field).value.offset;
      && RunStraight(m, Appended(g, r.1)).Some?
      && Eval(RunStraight(m, Appended(g, r.1)).value, r.0.op)
         == Some(if wantContent then ReadCell(m, obj, off) else VPtr(obj, off))
  {
    var info := FieldOf(ctx, field).value;
    GetFieldEmits(ctx, g, field, wantContent);
    FieldCodeRuns(g.st.regCounter, info.offset, LlvmType(ctx.t, info.typeTag), wantContent, m, obj);
  }

  /** What `getField` appends, and the register it answers. */
  lemma GetFieldEmits(ctx: Ctx, g: Gen, field: string, wantContent: bool)
    requires GetField(ctx, g, field, wantContent).Ok?
    ensures var info := FieldOf(ctx, field).value;
      var code := FieldCode(g.st.regCounter, info.offset, LlvmType(ctx.t, info.typeTag), wantContent);
      var r := GetField(ctx, g, field, wantContent).value;
      && Appended(g, r.1) == code
      && r.0.op == Reg(RegName(g.st.regCounter + |code| - 1))
  {
    var info := FieldOf(ctx, field).value;
    var code := FieldCode(g.st.regCounter, info.offset, LlvmType(ctx.t, info.typeTag), wantContent);
    var r := GetField(ctx, g, field, wantContent).value;
    assert r.1.code == g.code + code;
  }

  /** `getIdAddress`: a local or parameter resolves to its stack slot without any
      code; any other identifier is a field of the current class. */
  function GetIdAddress(ctx: Ctx, g: Gen, id: string): (r: Result<(Typed, Gen), CodeFault>)
    ensures GetIdInfo(g.st, id).Some? ==>
      var info := GetIdInfo(g.st, id).value;
      r == Ok((Typed(info.llvmType + "*", Reg(info.register)), g))
    ensures GetIdInfo(g.st, id).None? ==>
      && (r.Err? <==> FieldOf(ctx, id).None?)
      && (r.Ok? ==> r.value.0.ty == LlvmType(ctx.t, FieldOf(ctx, id).value.typeTag) + "*")
    ensures r.Ok? ==> Extends(g, r.value.1) && r.value.1.queue == g.queue
  {
    match GetIdInfo(g.st, id)
    case Some(info) => Ok((Typed(info.llvmType + "*", Reg(info.register)), g))
    case None => GetField(ctx, g, id, false)
  }

  // ---------------------------------------------------------------------------
  // getArrayElement / checkArrayIndex

  /** The instructions `getArrayElement` emits from register `n` on. */
  function ElementCode(n: nat, arr: Typed, index: Operand): seq<Instr>
  {
    [ Bitcast(RegName(n), arr.ty, arr.op, "i32*"),
      Gep(RegName(n + 1), "i32", Reg(RegName(n)), [index]),
      Load(RegName(n + 2), "i32", Reg(RegName(n + 1))) ]
  }

  /** `getArrayElement`: the array pointer cast to `i32*`, indexed by words, loaded. */
  function GetArrayElement(g: Gen, arr: Typed, index: Operand): (r: (Typed, Gen))
    ensures r.0 == Typed("i32", Reg(RegName(g.st.regCounter + 2)))
    ensures r.1 == g.(st := r.1.st, code := g.code + ElementCode(g.st.regCounter, arr, index))
    ensures r.1.st.regCounter == g.st.regCounter + 3
    ensures Extends(g, r.1)
  {
    var (cast, g1) := Fresh(g);
    var g2 := Emit(g1, Bitcast(cast, arr.ty, arr.op, "i32*"));
    var (addr, g3) := Fresh(g2);
    var g4 := Emit(g3, Gep(addr, "i32", Reg(cast), [index]));
    var (v, g5) := Fresh(g4);
    (Typed("i32", Reg(v)), Emit(g5, Load(v, "i32", Reg(addr))))
  }

  /** `op` is not a register numbered `n` or later: code emitted from `n` on leaves it alone. */
  ghost predicate Older(op: Operand, n: nat)
  {
    op.Reg? ==> forall k: nat :: n <= k ==> op.name != RegName(k)
  }

  /** An element read fetches the word `index` words past the array pointer, and
      changes nothing but its three registers. */
  lemma ElementRead(n: nat, arr: Typed, index: Operand, m: Machine, b: nat, off: int, k: int)
    requires Eval(m, arr.op) == Some(VPtr(b, off))
    requires Eval(m, index) == Some(VInt(k)) && Older(index, n)
    ensures RunStraight(m, ElementCode(n, arr, index)) == Some(
      SetReg(SetReg(SetReg(m, RegName(n), VPtr(b, off)), RegName(n + 1), VPtr(b, off + 4 * k)),
             RegName(n + 2), ReadCell(m, b, off + 4 * k)))
  {
    var m1 := SetReg(m, RegName(n), VPtr(b, off));
    assert Eval(m1, index) == Some(VInt(k));
    var m2 := SetReg(m1, RegName(n + 1), VPtr(b, off + 4 * k));
    var m3 := SetReg(m2, RegName(n + 2), ReadCell(m, b, off + 4 * k));
    StepBitcast(m, RegName(n), arr.ty, arr.op, "i32*", VPtr(b, off));
    assert ElemSize("i32") == 4;
    StepGep(m1, RegName(n + 1), "i32", Reg(RegName(n)), index, b, off, k);
    StepLoad(m2, RegName(n + 2), "i32", Reg(RegName(n + 1)), b, off + 4 * k);
    RunThree(m, m1, m2, m3, Bitcast(RegName(n), arr.ty, arr.op, "i32*"),
             Gep(RegName(n + 1), "i32", Reg(RegName(n)), [index]), Load(RegName(n + 2), "i32", Reg(RegName(n + 1))));
  }

  /** The test of `checkArrayIndex`: `(index < 0) xor (index < length)` decides
      between the block that calls `throw_oob` and the one after the check. */
  function TestCode(n: nat, index: Operand, len: Operand, outOf: string, within: string): (r: seq<Instr>)
    ensures |r| == 8
  {
    [ Arith(RegName(n), Slt, "i32", index, Const(0)),
      Arith(RegName(n + 1), Slt, "i32", index, len),
      Xor(RegName(n + 2), "i1", Reg(RegName(n)), Reg(RegName(n + 1))),
      CondBr(Reg(RegName(n + 2)), within, outOf),
      Label(outOf),
      Call(None, "void", Named("throw_oob"), []),
      Jump(within),
      Label(within) ]
  }

  /** The instructions `checkArrayIndex` emits from register `n` on: the array
      pointer loaded from its stack slot unless already `loaded`, its length read
      from word 0, then the test. */
  function BoundsCode(n: nat, arr: Typed, index: Operand, loaded: bool, outOf: string, within: string): (r: seq<Instr>)
    ensures |r| == (if loaded then 11 else 12)
  {
    var k := if loaded then 0 else 1;
    var ptr := if loaded then arr else Typed("i8*", Reg(RegName(n)));
    (if loaded then [] else [Load(RegName(n), "i8*", arr.op)])
    + ElementCode(n + k, ptr, Const(0))
    + TestCode(n + k + 3, index, Reg(RegName(n + k + 2)), outOf, within)
  }

  /** `checkArrayIndex`: fresh `oob` labels, then the bounds code; the next
      instruction lands in the in-bounds block. */
  function CheckArrayIndex(g: Gen, arr: Typed, index: Operand, loaded: bool): (r: Gen)
    ensures var labels := LabelTuple(g.st, 2);
      && r.code == g.code + BoundsCode(g.st.regCounter, arr, index, loaded, labels[0], labels[1])
      && r.st == NewLabel(g.st, "oob").1.(regCounter := g.st.regCounter + (if loaded then 6 else 7))
      && r.queue == g.queue
    ensures Extends(g, r)
  {
    var (labels, g0) := NewLabels(g, "oob");
    var n := g.st.regCounter;
    var code := BoundsCode(n, arr, index, loaded, labels[0], labels[1]);
    g0.(st := g0.st.(regCounter := n + (if loaded then 6 else 7)), code := g.code + code)
  }

  lemma OlderThanNext(j: nat, n: nat)
    requires j < n
    ensures Older(Reg(RegName(j)), n)
  {
    forall k: nat | n <= k ensures RegName(j) != RegName(k) {
      RegNameInjective(j, k);
    }
  }

  /** The comparisons and the xor of the bounds test. */
  lemma TestCompares(n: nat, index: Operand, len: Operand, outOf: string, within: string,
                     m: Machine, i: int, l: int)
    requires Eval(m, index) == Some(VInt(i)) && Older(index, n)
    requires Eval(m, len) == Some(VInt(l)) && Older(len, n)
    ensures var seg := TestCode(n, index, len, outOf, within)[..3];
      && RunStraight(m, seg).Some?
      && Eval(RunStraight(m, seg).value, Reg(RegName(n + 2))) == Some(VBool((i < 0) != (i < l)))
  {
    var seg := TestCode(n, index, len, outOf, within)[..3];
    assert seg == [ Arith(RegName(n), Slt, "i32", index, Const(0)),
                    Arith(RegName(n + 1), Slt, "i32", index, len),
                    Xor(RegName(n + 2), "i1", Reg(RegName(n)), Reg(RegName(n + 1))) ];
    var m1 := SetReg(m, RegName(n), VBool(i < 0));
    StepArith(m, RegName(n), Slt, "i32", index, Const(0), i, 0);
    assert Eval(m1, index) == Some(VInt(i)) && Eval(m1, len) == Some(VInt(l));
    var m2 := SetReg(m1, RegName(n + 1), VBool(i < l));
    StepArith(m1, RegName(n + 1), Slt, "i32", index, len, i, l);
    RegNameInjective(n, n + 1);
    var m3 := SetReg(m2, RegName(n + 2), VBool((i < 0) != (i < l)));
    StepXor(m2, RegName(n + 2), "i1", Reg(RegName(n)), Reg(RegName(n + 1)), i < 0, i < l);
    RunThree(m, m1, m2, m3, seg[0], seg[1], seg[2]);
  }

  /** The branch of the bounds test: true falls through past the check, false
      reaches the `throw_oob` call. */
  lemma TestBranches(code: seq<Instr>, p: nat, c: string, outOf: string, within: string, m: Machine, ok: bool, fuel: nat)
    requires p + 5 == |code|
    requires code[p..] == [CondBr(Reg(c), within, outOf), Label(outOf), Call(None, "void", Named("throw_oob"), []), Jump(within), Label(within)]
    requires outOf != within
    requires forall j :: 0 <= j < p ==> !code[j].Label?
    requires Eval(m, Reg(c)) == Some(VBool(ok))
    requires fuel >= 5
    ensures ok ==> Exec(code, p, m, fuel).Done?
    ensures !ok ==> Exec(code, p, m, fuel).Exit?
  {
    assert code[p] == CondBr(Reg(c), within, outOf);
    assert code[p + 1] == Label(outOf) && code[p + 4] == Label(within);
    assert code[p + 2] == Call(None, "void", Named("throw_oob"), []);
    assert code[p + 3] == Jump(within);
    FindLabelFirst(code, p + 1, outOf);
    FindLabelFirst(code, p + 4, within);
    assert Exec(code, p, m, fuel) == Goto(code, m, if ok then within else outOf, fuel - 1);
    if ok {
      assert Goto(code, m, within, fuel - 1) == Exec(code, p + 5, Enter(m, within), fuel - 2);
    } else {
      assert Goto(code, m, outOf, fuel - 1) == Exec(code, p + 2, Enter(m, outOf), fuel - 2);
      assert Exec(code, p + 2, Enter(m, outOf), fuel - 2) == Exit(Enter(m, outOf));
    }
  }

  /** The test of a bounds check falls through to the code after it exactly when
      `(index < 0) != (index < length)`, and otherwise ends the program in
      `throw_oob`. */
  lemma TestCodeExec(code: seq<Instr>, p: nat, n: nat, index: Operand, len: Operand,
                     outOf: string, within: string, m: Machine, i: int, l: int, fuel: nat)
    requires p + 8 == |code| && code[p..] == TestCode(n, index, len, outOf, within)
    requires outOf != within
    requires forall j :: 0 <= j < p ==> !code[j].Label?
    requires Eval(m, index) == Some(VInt(i)) && Older(index, n)
    requires Eval(m, len) == Some(VInt(l)) && Older(len, n)
    requires fuel >= 8
    ensures (i < 0) != (i < l) ==> Exec(code, p, m, fuel).Done?
    ensures (i < 0) == (i < l) ==> Exec(code, p, m, fuel).Exit?
  {
    var test := TestCode(n, index, len, outOf, within);
    var seg := test[..3];
    TestCompares(n, index, len, outOf, within, m, i, l);
    var m3 := RunStraight(m, seg).value;
    assert code[p..p + |seg|] == seg;
    assert forall j :: 0 <= j < |seg| ==> Straight(seg[j]);
    ExecStraight(code, p, seg, m, fuel);
    assert code[p + 3..] == test[3..];
    assert forall j :: 0 <= j < p + 3 ==> !code[j].Label? by {
      forall j | p <= j < p + 3 ensures !code[j].Label? {
        assert code[j] == test[j - p];
      }
    }
    TestBranches(code, p + 3, RegName(n + 2), outOf, within, m3, (i < 0) != (i < l), fuel - 3);
  }

  /** Where the array a bounds check reads lives: in the register itself once
      `loaded`, otherwise in the stack slot the register points to. */
  predicate ArrayAt(m: Machine, arr: Operand, loaded: bool, b: nat)
  {
    if loaded then Eval(m, arr) == Some(VPtr(b, 0))
    else
      match Eval(m, arr)
      case Some(VPtr(x, y)) => ReadCell(m, x, y) == VPtr(b, 0)
      case _ => false
  }

  /** The part of a bounds check before the test: after it, the register the
      test compares against holds the array's length, and the index is intact. */
  lemma LengthLoaded(n: nat, arr: Typed, index: Operand, loaded: bool, m: Machine, b: nat, l: int, i: int)
    requires ArrayAt(m, arr.op, loaded, b) && ReadCell(m, b, 0) == VInt(l)
    requires Eval(m, index) == Some(VInt(i)) && Older(index, n)
    ensures var k := if loaded then 0 else 1;
      var ptr := if loaded then arr else Typed("i8*", Reg(RegName(n)));
      var seg := LengthCode(n, arr, loaded);
      && RunStraight(m, seg).Some?
      && Eval(RunStraight(m, seg).value, Reg(RegName(n + k + 2))) == Some(VInt(l))
      && Eval(RunStraight(m, seg).value, index) == Some(VInt(i))
  {
    if loaded {
      LengthFromRegister(n, arr, index, m, b, l, i);
      assert LengthCode(n, arr, loaded) == ElementCode(n, arr, Const(0));
    } else {
      var slot := Eval(m, arr.op).value;
      LengthFromSlot(n, arr, index, m, slot.block, slot.offset, b, l, i);
    }
  }

  /** The length read through an array pointer held in a register. */
  lemma LengthFromRegister(n: nat, arr: Typed, index: Operand, m: Machine, b: nat, l: int, i: int)
    requires Eval(m, arr.op) == Some(VPtr(b, 0)) && ReadCell(m, b, 0) == VInt(l)
    requires Eval(m, index) == Some(VInt(i)) && Older(index, n)
    ensures var seg := ElementCode(n, arr, Const(0));
      && RunStraight(m, seg).Some?
      && Eval(RunStraight(m, seg).value, Reg(RegName(n + 2))) == Some(VInt(l))
      && Eval(RunStraight(m, seg).value, index) == Some(VInt(i))
  {
    ElementRead(n, arr, Const(0), m, b, 0, 0);
    if index.Reg? {
      assert index.name != RegName(n) && index.name != RegName(n + 1) && index.name != RegName(n + 2);
    }
  }

  /** The length read through an array pointer held in a stack slot. */
  lemma LengthFromSlot(n: nat, arr: Typed, index: Operand, m: Machine, sb: nat, so: int, b: nat, l: int, i: int)
    requires Eval(m, arr.op) == Some(VPtr(sb, so)) && ReadCell(m, sb, so) == VPtr(b, 0)
    requires ReadCell(m, b, 0) == VInt(l)
    requires Eval(m, index) == Some(VInt(i)) && Older(index, n)
    ensures var seg := LengthCode(n, arr, false);
      && RunStraight(m, seg).Some?
      && Eval(RunStraight(m, seg).value, Reg(RegName(n + 3))) == Some(VInt(l))
      && Eval(RunStraight(m, seg).value, index) == Some(VInt(i))
  {
    var ptr := Typed("i8*", Reg(RegName(n)));
    var pre := [Load(RegName(n), "i8*", arr.op)];
    var m0 := SetReg(m, RegName(n), VPtr(b, 0));
    StepLoad(m, RegName(n), "i8*", arr.op, sb, so);
    RunSteps(pre, [m, m0]);
    assert Eval(m0, index) == Some(VInt(i)) by {
      if index.Reg? { assert index.name != RegName(n); }
    }
    LengthFromRegister(n + 1, ptr, index, m0, b, l, i);
    RunStraightAppend(m, pre, ElementCode(n + 1, ptr, Const(0)));
    assert LengthCode(n, arr, false) == pre + ElementCode(n + 1, ptr, Const(0));
  }

  /** The array check, run: on an array of length `l` the code after the check is
      reached exactly when `(i < 0) != (i < l)`; otherwise `throw_oob` ends the run. */
  lemma BoundsCodeExec(n: nat, arr: Typed, index: Operand, loaded: bool, outOf: string, within: string,
                       m: Machine, b: nat, l: int, i: int, fuel: nat)
    requires outOf != within
    requires ArrayAt(m, arr.op, loaded, b) && ReadCell(m, b, 0) == VInt(l)
    requires Eval(m, index) == Some(VInt(i)) && Older(index, n)
    requires fuel >= 20
    ensures (i < 0) != (i < l) ==> Exec(BoundsCode(n, arr, index, loaded, outOf, within), 0, m, fuel).Done?
    ensures (i < 0) == (i < l) ==> Exec(BoundsCode(n, arr, index, loaded, outOf, within), 0, m, fuel).Exit?
  {
    var k := if loaded then 0 else 1;
    BoundsCodeFacts(n, arr, index, loaded, outOf, within, m, b, l, i, fuel);
    BoundsTestExec(BoundsCode(n, arr, index, loaded, outOf, within), |LengthCode(n, arr, loaded)|, n + k + 3, index,
                   Reg(RegName(n + k + 2)), outOf, within, m, RunStraight(m, LengthCode(n, arr, loaded)).value, i, l, fuel);
  }

  /** What `BoundsTestExec` needs of a bounds check and the run of its first part. */
  lemma BoundsCodeFacts(n: nat, arr: Typed, index: Operand, loaded: bool, outOf: string, within: string,
                        m: Machine, b: nat, l: int, i: int, fuel: nat)
    requires ArrayAt(m, arr.op, loaded, b) && ReadCell(m, b, 0) == VInt(l)
    requires Eval(m, index) == Some(VInt(i)) && Older(index, n)
    requires fuel >= 20
    ensures var code := BoundsCode(n, arr, index, loaded, outOf, within);
      var k := if loaded then 0 else 1;
      var seg := LengthCode(n, arr, loaded);
      var len := Reg(RegName(n + k + 2));
      && |seg| + 8 == |code| && code[|seg|..] == TestCode(n + k + 3, index, len, outOf, within)
      && (forall j :: 0 <= j < |seg| ==> !code[j].Label?)
      && RunStraight(m, seg).Some? && |seg| <= 4
      && Eval(RunStraight(m, seg).value, len) == Some(VInt(l)) && Eval(RunStraight(m, seg).value, index) == Some(VInt(i))
      && Exec(code, 0, m, fuel) == Exec(code, |seg|, RunStraight(m, seg).value, fuel - |seg|)
      && Older(len, n + k + 3) && Older(index, n + k + 3)
  {
    var k := if loaded then 0 else 1;
    BoundsCodeSplit(n, arr, index, loaded, outOf, within);
    BoundsPrefixExec(n, arr, index, loaded, outOf, within, m, b, l, i, fuel);
    OlderThanNext(n + k + 2, n + k + 3);
  }

  /** The test of a bounds check, reached after `p` straight-line instructions. */
  lemma BoundsTestExec(code: seq<Instr>, p: nat, n: nat, index: Operand, len: Operand, outOf: string, within: string,
                       m: Machine, m3: Machine, i: int, l: int, fuel: nat)
    requires p <= 4 && fuel >= 20 && outOf != within
    requires p + 8 == |code| && code[p..] == TestCode(n, index, len, outOf, within)
    requires forall j :: 0 <= j < p ==> !code[j].Label?
    requires Eval(m3, index) == Some(VInt(i)) && Older(index, n)
    requires Eval(m3, len) == Some(VInt(l)) && Older(len, n)
    requires Exec(code, 0, m, fuel) == Exec(code, p, m3, fuel - p)
    ensures (i < 0) != (i < l) ==> Exec(code, 0, m, fuel).Done?
    ensures (i < 0) == (i < l) ==> Exec(code, 0, m, fuel).Exit?
  {
    TestCodeExec(code, p, n, index, len, outOf, within, m3, i, l, fuel - p);
  }

  /** Running a bounds check up to its test: the length register holds the length. */
  lemma BoundsPrefixExec(n: nat, arr: Typed, index: Operand, loaded: bool, outOf: string, within: string,
                         m: Machine, b: nat, l: int, i: int, fuel: nat)
    requires ArrayAt(m, arr.op, loaded, b) && ReadCell(m, b, 0) == VInt(l)
    requires Eval(m, index) == Some(VInt(i)) && Older(index, n)
    requires fuel >= 20
    ensures var k := if loaded then 0 else 1;
      var seg := LengthCode(n, arr, loaded);
      && RunStraight(m, seg).Some? && |seg| <= 4
      && Eval(RunStraight(m, seg).value, Reg(RegName(n + k + 2))) == Some(VInt(l))
      && Eval(RunStraight(m, seg).value, index) == Some(VInt(i))
      && Exec(BoundsCode(n, arr, index, loaded, outOf, within), 0, m, fuel)
         == Exec(BoundsCode(n, arr, index, loaded, outOf, within), |seg|, RunStraight(m, seg).value, fuel - |seg|)
  {
    var seg := LengthCode(n, arr, loaded);
    LengthLoaded(n, arr, index, loaded, m, b, l, i);
    BoundsCodeSplit(n, arr, index, loaded, outOf, within);
    ExecStraight(BoundsCode(n, arr, index, loaded, outOf, within), 0, seg, m, fuel);
  }

  /** The part of a bounds check before the test. */
  function LengthCode(n: nat, arr: Typed, loaded: bool): seq<Instr>
  {
    var k := if loaded then 0 else 1;
    var ptr := if loaded then arr else Typed("i8*", Reg(RegName(n)));
    (if loaded then [] else [Load(RegName(n), "i8*", arr.op)]) + ElementCode(n + k, ptr, Const(0))
  }

  lemma BoundsCodeSplit(n: nat, arr: Typed, index: Operand, loaded: bool, outOf: string, within: string)
    ensures var code := BoundsCode(n, arr, index, loaded, outOf, within);
      var k := if loaded then 0 else 1;
      var seg := LengthCode(n, arr, loaded);
      && |seg| <= |code|
      && code[0..|seg|] == seg
      && (forall j :: 0 <= j < |seg| ==> Straight(seg[j]) && !code[j].Label?)
      && code[|seg|..] == TestCode(n + k + 3, index, Reg(RegName(n + k + 2)), outOf, within)
  {
    var code := BoundsCode(n, arr, index, loaded, outOf, within);
    var k := if loaded then 0 else 1;
    var seg := LengthCode(n, arr, loaded);
    var test := TestCode(n + k + 3, index, Reg(RegName(n + k + 2)), outOf, within);
    assert code == seg + test;
    assert code[0..|seg|] == seg;
    assert code[|seg|..] == test;
  }

  /** For an array length that is not negative, the xor test is exactly the bounds test. */
  lemma XorIsInBounds(i: int, l: int)
    requires l >= 0
    ensures ((i < 0) != (i < l)) <==> 0 <= i < l
  {
  }

  /** `checkArrayIndex`, run: on an array of any length `l`, the code after the
      check is reached exactly when `(i < 0) != (i < l)`; otherwise `throw_oob`
      ends the program. */
  lemma CheckArrayIndexRuns(g: Gen, arr: Typed, index: Operand, loaded: bool,
                            m: Machine, b: nat, l: int, i: int, fuel: nat)
    requires ArrayAt(m, arr.op, loaded, b) && ReadCell(m, b, 0) == VInt(l)
    requires Eval(m, index) == Some(VInt(i)) && Older(index, g.st.regCounter)
    requires fuel >= 20
    ensures var code := Appended(g, CheckArrayIndex(g, arr, index, loaded));
      && (Exec(code, 0, m, fuel).Done? <==> (i < 0) != (i < l))
      && (Exec(code, 0, m, fuel).Exit? <==> (i < 0) == (i < l))
  {
    var labels := LabelTuple(g.st, 2);
    OobLabelsDistinct(g.st);
    var g' := CheckArrayIndex(g, arr, index, loaded);
    assert Appended(g, g') == BoundsCode(g.st.regCounter, arr, index, loaded, labels[0], labels[1]);
    BoundsCodeExec(g.st.regCounter, arr, index, loaded, labels[0], labels[1], m, b, l, i, fuel);
  }

  /** `checkArrayIndex`, run: on an array of non-negative length `l`, the code
      after the check is reached exactly for an index in `[0, l)`; every other
      index ends the program in `throw_oob`. */
  lemma CheckArrayIndexSound(g: Gen, arr: Typed, index: Operand, loaded: bool,
                             m: Machine, b: nat, l: int, i: int, fuel: nat)
    requires ArrayAt(m, arr.op, loaded, b) && ReadCell(m, b, 0) == VInt(l) && l >= 0
    requires Eval(m, index) == Some(VInt(i)) && Older(index, g.st.regCounter)
    requires fuel >= 20
    ensures var code := Appended(g, CheckArrayIndex(g, arr, index, loaded));
      && (Exec(code, 0, m, fuel).Done? <==> 0 <= i < l)
      && (Exec(code, 0, m, fuel).Exit? <==> !(0 <= i < l))
  {
    CheckArrayIndexRuns(g, arr, index, loaded, m, b, l, i, fuel);
  }

  // ---------------------------------------------------------------------------
  // Arithmetic, comparison, logical not

  function ArithOf(op: BinaryOp): (r: ArithOp)
    ensures r == Slt <==> op == Less
  {
    match op
    case Plus => Add
    case Minus => Sub
    case Times => Mul
    case Less => Slt
  }

  /** `arithmeticExpression`: one instruction typed after the left operand; a
      comparison yields an `i1`, everything else an `i32`. */
  function Arithmetic(g: Gen, left: Typed, right: Typed, op: ArithOp): (r: (Typed, Gen))
    ensures r.0.ty == (if op == Slt then "i1" else "i32")
    ensures r.0.op == Reg(RegName(g.st.regCounter))
    ensures r.1.code == g.code + [Arith(RegName(g.st.regCounter), op, left.ty, left.op, right.op)]
    ensures r.1.st.regCounter == g.st.regCounter + 1 && r.1.queue == g.queue
  {
    var (reg, g1) := Fresh(g);
    (Typed(if op == Slt then "i1" else "i32", Reg(reg)), Emit(g1, Arith(reg, op, left.ty, left.op, right.op)))
  }

  /** Arithmetic behaves as Java `int` arithmetic: sums, differences and products
      wrap to 32 bits, and `<` compares. */
  lemma ArithmeticValue(g: Gen, left: Typed, right: Typed, op: ArithOp, m: Machine, a: int, b: int)
    requires Eval(m, left.op) == Some(VInt(a)) && Eval(m, right.op) == Some(VInt(b))
    ensures var (v, g') := Arithmetic(g, left, right, op);
      && RunStraight(m, Appended(g, g')).Some?
      && Eval(RunStraight(m, Appended(g, g')).value, v.op) ==
         Some(match op
              case Add => VInt(Wrap32(a + b))
              case Sub => VInt(Wrap32(a - b))
              case Mul => VInt(Wrap32(a * b))
              case Slt => VBool(a < b))
  {
    var (v, g') := Arithmetic(g, left, right, op);
    var ins := Arith(RegName(g.st.regCounter), op, left.ty, left.op, right.op);
    assert Appended(g, g') == [ins];
    var m1 := SetReg(m, RegName(g.st.regCounter), ArithValue(op, a, b));
    assert Step(m, ins) == Some(m1);
    assert RunStraight(m, [ins]) == RunStraight(m1, []);
  }

  /** `visitNotExpression`: `xor` with the constant true. */
  function Negate(g: Gen, v: Typed): (r: (Typed, Gen))
    ensures r.0 == Typed("i1", Reg(RegName(g.st.regCounter)))
    ensures r.1.code == g.code + [Xor(RegName(g.st.regCounter), v.ty, v.op, Flag(true))]
    ensures r.1.st.regCounter == g.st.regCounter + 1 && r.1.queue == g.queue
  {
    var (reg, g1) := Fresh(g);
    (Typed("i1", Reg(reg)), Emit(g1, Xor(reg, v.ty, v.op, Flag(true))))
  }

  /** The `xor` with true is logical negation. */
  lemma NegateValue(g: Gen, v: Typed, m: Machine, b: bool)
    requires Eval(m, v.op) == Some(VBool(b))
    ensures var (w, g') := Negate(g, v);
      && RunStraight(m, Appended(g, g')).Some?
      && Eval(RunStraight(m, Appended(g, g')).value, w.op) == Some(VBool(!b))
  {
    var (w, g') := Negate(g, v);
    var ins := Xor(RegName(g.st.regCounter), v.ty, v.op, Flag(true));
    assert Appended(g, g') == [ins];
    var m1 := SetReg(m, RegName(g.st.regCounter), VBool(b != true));
    assert Step(m, ins) == Some(m1);
    assert RunStraight(m, [ins]) == RunStraight(m1, []);
  }

  // ---------------------------------------------------------------------------
  // Allocation

  /** The instructions `visitArrayAllocationExpression` emits from register `n` on:
      room for `size + 1` words, the length stored in word 0. */
  function NewArrayCode(n: nat, size: Operand): seq<Instr>
  {
    [ Arith(RegName(n), Add, "i32", size, Const(1)),
      Call(Some(RegName(n + 1)), "i8*", Named("calloc"), [Typed("i32", Const(4)), Typed("i32", Reg(RegName(n)))]),
      Bitcast(RegName(n + 2), "i8*", Reg(RegName(n + 1)), "i32*"),
      Store("i32", size, Reg(RegName(n + 2))) ]
  }

  function NewArray(g: Gen, size: Operand): (r: (Typed, Gen))
    ensures r.0 == Typed("i32*", Reg(RegName(g.st.regCounter + 2)))
    ensures r.1 == g.(st := r.1.st, code := g.code + NewArrayCode(g.st.regCounter, size))
    ensures r.1.st.regCounter == g.st.regCounter + 3
  {
    var n := g.st.regCounter;
    (Typed("i32*", Reg(RegName(n + 2))), g.(st := g.st.(regCounter := n + 3), code := g.code + NewArrayCode(n, size)))
  }

  /** Memory holds nothing in blocks not yet allocated. */
  predicate FreshBlocks(m: Machine)
  {
    forall c :: c in m.mem ==> c.0 < m.blocks
  }

  /** A new array is a fresh block whose word 0 holds the length and whose other
      cells read as zero. */
  lemma NewArrayRuns(n: nat, size: Operand, m: Machine, len: int)
    requires Eval(m, size) == Some(VInt(len)) && Older(size, n)
    requires FreshBlocks(m)
    ensures var r := RunStraight(m, NewArrayCode(n, size));
      && r.Some? && FreshBlocks(r.value) && r.value.blocks == m.blocks + 1
      && Eval(r.value, Reg(RegName(n + 2))) == Some(VPtr(m.blocks, 0))
      && ReadCell(r.value, m.blocks, 0) == VInt(len)
      && (forall off :: off != 0 ==> ReadCell(r.value, m.blocks, off) == VInt(0))
  {
    NewArraySteps(n, size, m, len);
    var m4 := AfterNewArray(n, m, len);
    forall off | off != 0 ensures ReadCell(m4, m.blocks, off) == VInt(0) {
      assert (m.blocks, off) !in m.mem;
    }
  }

  /** The machine after `NewArrayCode`: three registers set, one block added, its word 0 written. */
  function AfterNewArray(n: nat, m: Machine, len: int): Machine
  {
    var m1 := SetReg(m, RegName(n), VInt(Wrap32(len + 1)));
    var m2 := SetReg(m1.(blocks := m1.blocks + 1), RegName(n + 1), VPtr(m.blocks, 0));
    var m3 := SetReg(m2, RegName(n + 2), VPtr(m.blocks, 0));
    m3.(mem := m3.mem[(m.blocks, 0) := VInt(len)])
  }

  lemma NewArraySteps(n: nat, size: Operand, m: Machine, len: int)
    requires Eval(m, size) == Some(VInt(len)) && Older(size, n)
    ensures RunStraight(m, NewArrayCode(n, size)) == Some(AfterNewArray(n, m, len))
  {
    var code := NewArrayCode(n, size);
    var m1 := SetReg(m, RegName(n), VInt(Wrap32(len + 1)));
    var m2 := SetReg(m1.(blocks := m1.blocks + 1), RegName(n + 1), VPtr(m.blocks, 0));
    var m3 := SetReg(m2, RegName(n + 2), VPtr(m.blocks, 0));
    assert Eval(m3, size) == Some(VInt(len)) by {
      if size.Reg? {
        assert size.name != RegName(n) && size.name != RegName(n + 1) && size.name != RegName(n + 2);
      }
    }
    var m4 := m3.(mem := m3.mem[(m.blocks, 0) := VInt(len)]);
    StepArith(m, RegName(n), Add, "i32", size, Const(1), len, 1);
    assert Step(m1, code[1]) == Some(m2);
    StepBitcast(m2, RegName(n + 2), "i8*", Reg(RegName(n + 1)), "i32*", VPtr(m.blocks, 0));
    StepStore(m3, "i32", size, Reg(RegName(n + 2)), VInt(len), m.blocks, 0);
    RunFour(m, m1, m2, m3, m4, code[0], code[1], code[2], code[3]);
  }

  /** A freshly allocated array, read back through the generator's own element
      code: word 0, read the way `checkArrayIndex` reads the length, yields the
      size; logical index `i`, shifted by `getArrayIndex`, reads the zero-filled
      word `i + 1`. */
  lemma NewArrayLength(g: Gen, size: Operand, m: Machine, len: int, i: int)
    requires Eval(m, size) == Some(VInt(len)) && Older(size, g.st.regCounter) && FreshBlocks(m)
    requires 0 <= i < len < 0x8000_0000
    ensures var (arr, g1) := NewArray(g, size);
      && RunStraight(m, Appended(g, g1)).Some?
      && var m1 := RunStraight(m, Appended(g, g1)).value;
      && RunStraight(m1, Appended(g1, GetArrayElement(g1, arr, Const(0)).1)).Some?
      && Eval(RunStraight(m1, Appended(g1, GetArrayElement(g1, arr, Const(0)).1)).value,
              GetArrayElement(g1, arr, Const(0)).0.op) == Some(VInt(len))
      && GetArrayIndex(g1, Const(i)) == Ok((Const(i + 1), g1))
      && var (v, g2) := GetArrayElement(g1, arr, Const(i + 1));
      && RunStraight(m1, Appended(g1, g2)).Some?
      && Eval(RunStraight(m1, Appended(g1, g2)).value, Reg(RegName(g1.st.regCounter + 1)))
         == Some(VPtr(m.blocks, 4 * (i + 1)))
      && Eval(RunStraight(m1, Appended(g1, g2)).value, v.op) == Some(VInt(0))
  {
    var n := g.st.regCounter;
    var (arr, g1) := NewArray(g, size);
    assert Appended(g, g1) == NewArrayCode(n, size);
    NewArrayRuns(n, size, m, len);
    var m1 := RunStraight(m, NewArrayCode(n, size)).value;
    NewArrayReads(g1, arr, m1, m.blocks, len, i);
  }

  /** The two reads of `NewArrayLength`, on the machine the allocation left. */
  lemma NewArrayReads(g1: Gen, arr: Typed, m1: Machine, b: nat, len: int, i: int)
    requires Eval(m1, arr.op) == Some(VPtr(b, 0)) && ReadCell(m1, b, 0) == VInt(len)
    requires ReadCell(m1, b, 4 * (i + 1)) == VInt(0)
    requires 0 <= i < len < 0x8000_0000
    ensures RunStraight(m1, Appended(g1, GetArrayElement(g1, arr, Const(0)).1)).Some?
    ensures Eval(RunStraight(m1, Appended(g1, GetArrayElement(g1, arr, Const(0)).1)).value,
                 GetArrayElement(g1, arr, Const(0)).0.op) == Some(VInt(len))
    ensures GetArrayIndex(g1, Const(i)) == Ok((Const(i + 1), g1))
    ensures var (v, g2) := GetArrayElement(g1, arr, Const(i + 1));
      && RunStraight(m1, Appended(g1, g2)).Some?
      && Eval(RunStraight(m1, Appended(g1, g2)).value, Reg(RegName(g1.st.regCounter + 1)))
         == Some(VPtr(b, 4 * (i + 1)))
      && Eval(RunStraight(m1, Appended(g1, g2)).value, v.op) == Some(VInt(0))
  {
    assert Wrap32(i + 1) == i + 1;
    WordRead(g1, arr, m1, b, 0, len);
    WordRead(g1, arr, m1, b, i + 1, 0);
  }

  /** Word `k` of an array, read by `getArrayElement` with a constant index. */
  lemma WordRead(g1: Gen, arr: Typed, m1: Machine, b: nat, k: int, x: int)
    requires Eval(m1, arr.op) == Some(VPtr(b, 0)) && ReadCell(m1, b, 4 * k) == VInt(x)
    ensures var (v, g2) := GetArrayElement(g1, arr, Const(k));
      && RunStraight(m1, Appended(g1, g2)).Some?
      && Eval(RunStraight(m1, Appended(g1, g2)).value, Reg(RegName(g1.st.regCounter + 1))) == Some(VPtr(b, 4 * k))
      && Eval(RunStraight(m1, Appended(g1, g2)).value, v.op) == Some(VInt(x))
  {
    var n := g1.st.regCounter;
    var (v, g2) := GetArrayElement(g1, arr, Const(k));
    assert Appended(g1, g2) == ElementCode(n, arr, Const(k));
    ElementRead(n, arr, Const(k), m1, b, 0, k);
    var m4 := RunStraight(m1, ElementCode(n, arr, Const(k))).value;
    RegNameInjective(n + 1, n + 2);
    assert m4.regs[RegName(n + 1)] == VPtr(b, 4 * k);
  }

  // ---------------------------------------------------------------------------
  // Negative array sizes

  /** As written, `new int[len]` with `len < 0` still allocates and stores `len`
      in word 0, and the xor test of `checkArrayIndex` then lets every index in
      `[len, 0)` through: `new int[0 - 1]` followed by `a[0 - 1]` reads word 0. */
  lemma NegativeArrayAsWritten(g: Gen, size: Operand, m: Machine, len: int, i: int)
    requires Eval(m, size) == Some(VInt(len)) && Older(size, g.st.regCounter) && FreshBlocks(m)
    requires -0x8000_0000 <= len <= i < 0
    ensures var (arr, g1) := NewArray(g, size);
      && RunStraight(m, Appended(g, g1)).Some?
      && Exec(Appended(g1, CheckArrayIndex(g1, arr, Const(i), true)), 0, RunStraight(m, Appended(g, g1)).value, 20).Done?
      && GetArrayIndex(g1, Const(i)) == Ok((Const(i + 1), g1))
  {
    var r := NewArray(g, size);
    var m1 := NegativeArrayAllocated(g, size, m, len);
    NegativeIndexPasses(r.1, r.0, m1, m.blocks, len, i);
  }

  /** The bounds check on an array whose word 0 holds a negative length `len`
      lets an index in `[len, 0)` through. */
  lemma NegativeIndexPasses(g1: Gen, arr: Typed, m1: Machine, b: nat, len: int, i: int)
    requires ArrayAt(m1, arr.op, true, b) && ReadCell(m1, b, 0) == VInt(len)
    requires -0x8000_0000 <= len <= i < 0
    ensures Exec(Appended(g1, CheckArrayIndex(g1, arr, Const(i), true)), 0, m1, 20).Done?
    ensures GetArrayIndex(g1, Const(i)) == Ok((Const(i + 1), g1))
  {
    assert Wrap32(i + 1) == i + 1;
    CheckArrayIndexRuns(g1, arr, Const(i), true, m1, b, len, i, 20);
  }

  /** The allocation as written, run on any size. */
  lemma NegativeArrayAllocated(g: Gen, size: Operand, m: Machine, len: int) returns (m1: Machine)
    requires Eval(m, size) == Some(VInt(len)) && Older(size, g.st.regCounter) && FreshBlocks(m)
    ensures var (arr, g1) := NewArray(g, size);
      && RunStraight(m, Appended(g, g1)) == Some(m1)
      && ArrayAt(m1, arr.op, true, m.blocks) && ReadCell(m1, m.blocks, 0) == VInt(len)
  {
    var (arr, g1) := NewArray(g, size);
    assert Appended(g, g1) == NewArrayCode(g.st.regCounter, size);
    NewArrayRuns(g.st.regCounter, size, m, len);
    m1 := RunStraight(m, Appended(g, g1)).value;
  }

  /** The size test the corrected allocation puts first: a negative size branches
      to the `throw_oob` call, any other falls through to the allocation. */
  function SizeCheckCode(n: nat, size: Operand, outOf: string, within: string): (r: seq<Instr>)
    ensures |r| == 6
  {
    [ Arith(RegName(n), Slt, "i32", size, Const(0)),
      CondBr(Reg(RegName(n)), outOf, within),
      Label(outOf),
      Call(None, "void", Named("throw_oob"), []),
      Jump(within),
      Label(within) ]
  }

  /** The corrected `visitArrayAllocationExpression`: fresh `oob` labels, the size
      test, then the allocation as written, from the register after the test's. */
  function NewArrayChecked(g: Gen, size: Operand): (r: (Typed, Gen))
    ensures var labels := LabelTuple(g.st, 2);
      && r.0 == Typed("i32*", Reg(RegName(g.st.regCounter + 3)))
      && r.1.code == g.code + SizeCheckCode(g.st.regCounter, size, labels[0], labels[1])
                            + NewArrayCode(g.st.regCounter + 1, size)
      && r.1.st == NewLabel(g.st, "oob").1.(regCounter := g.st.regCounter + 4)
    ensures Extends(g, r.1) && r.1.queue == g.queue
  {
    var (labels, g0) := NewLabels(g, "oob");
    var n := g.st.regCounter;
    (Typed("i32*", Reg(RegName(n + 3))),
     g0.(st := g0.st.(regCounter := n + 4),
         code := g.code + SizeCheckCode(n, size, labels[0], labels[1]) + NewArrayCode(n + 1, size)))
  }

  /** The corrected allocation, run: a negative size ends the program in
      `throw_oob`; any other size completes with a fresh block holding the size
      in word 0 and zeros elsewhere. */
  lemma NewArrayCheckedRuns(g: Gen, size: Operand, m: Machine, len: int, fuel: nat)
    requires Eval(m, size) == Some(VInt(len)) && Older(size, g.st.regCounter) && FreshBlocks(m)
    requires fuel >= 12
    ensures var (arr, g1) := NewArrayChecked(g, size);
      var out := Exec(Appended(g, g1), 0, m, fuel);
      && (out.Exit? <==> len < 0)
      && (out.Done? <==> len >= 0)
      && (out.Done? ==>
            && FreshBlocks(out.m) && out.m.blocks == m.blocks + 1
            && Eval(out.m, arr.op) == Some(VPtr(m.blocks, 0))
            && ReadCell(out.m, m.blocks, 0) == VInt(len)
            && forall off :: off != 0 ==> ReadCell(out.m, m.blocks, off) == VInt(0))
  {
    var n := g.st.regCounter;
    var labels := LabelTuple(g.st, 2);
    OobLabelsDistinct(g.st);
    var (arr, g1) := NewArrayChecked(g, size);
    assert Appended(g, g1) == SizeCheckCode(n, size, labels[0], labels[1]) + NewArrayCode(n + 1, size);
    SizeCheckExec(n, size, labels[0], labels[1], m, len, fuel);
  }

  /** The two labels of an `oob` tuple differ. */
  lemma OobLabelsDistinct(st: State)
    ensures LabelTuple(st, 2)[0] != LabelTuple(st, 2)[1]
  {
    var c := st.labelCounters[2];
    assert LabelTuple(st, 2)[0] == LabelName("outOfBounds", c) by {
      assert LabelTuple(st, 2)[0] == LabelText(LabelId(2, 0, c));
    }
    assert LabelTuple(st, 2)[1] == LabelName("withinBounds", c) by {
      assert LabelTuple(st, 2)[1] == LabelText(LabelId(2, 1, c));
    }
    if LabelTuple(st, 2)[0] == LabelTuple(st, 2)[1] {
      LabelNameInjective("outOfBounds", c, "withinBounds", c);
    }
  }

  /** `NewArrayCheckedRuns` on the instructions themselves. */
  lemma SizeCheckExec(n: nat, size: Operand, outOf: string, within: string, m: Machine, len: int, fuel: nat)
    requires Eval(m, size) == Some(VInt(len)) && Older(size, n) && FreshBlocks(m)
    requires outOf != within && fuel >= 12
    ensures var code := SizeCheckCode(n, size, outOf, within) + NewArrayCode(n + 1, size);
      var out := Exec(code, 0, m, fuel);
      && (out.Exit? <==> len < 0)
      && (out.Done? <==> len >= 0)
      && (out.Done? ==>
            && FreshBlocks(out.m) && out.m.blocks == m.blocks + 1
            && Eval(out.m, Reg(RegName(n + 3))) == Some(VPtr(m.blocks, 0))
            && ReadCell(out.m, m.blocks, 0) == VInt(len)
            && forall off :: off != 0 ==> ReadCell(out.m, m.blocks, off) == VInt(0))
  {
    SizeCheckLayout(n, size, outOf, within);
    SizeCheckRuns(SizeCheckCode(n, size, outOf, within) + NewArrayCode(n + 1, size), n, size, outOf, within, m, len, fuel);
  }

  /** The corrected allocation, instruction by instruction. */
  predicate SizeCheckShape(code: seq<Instr>, n: nat, size: Operand, outOf: string, within: string)
  {
    && |code| == 10
    && code[0] == Arith(RegName(n), Slt, "i32", size, Const(0))
    && code[1] == CondBr(Reg(RegName(n)), outOf, within)
    && code[2] == Label(outOf)
    && code[3] == Call(None, "void", Named("throw_oob"), [])
    && code[4] == Jump(within)
    && code[5] == Label(within)
    && code[6..] == NewArrayCode(n + 1, size)
  }

  /** `SizeCheckExec`, for any code of that shape. */
  lemma SizeCheckRuns(code: seq<Instr>, n: nat, size: Operand, outOf: string, within: string, m: Machine, len: int, fuel: nat)
    requires SizeCheckShape(code, n, size, outOf, within)
    requires Eval(m, size) == Some(VInt(len)) && Older(size, n) && FreshBlocks(m)
    requires outOf != within && fuel >= 12
    ensures var out := Exec(code, 0, m, fuel);
      && (out.Exit? <==> len < 0)
      && (out.Done? <==> len >= 0)
      && (out.Done? ==>
            && FreshBlocks(out.m) && out.m.blocks == m.blocks + 1
            && Eval(out.m, Reg(RegName(n + 3))) == Some(VPtr(m.blocks, 0))
            && ReadCell(out.m, m.blocks, 0) == VInt(len)
            && forall off :: off != 0 ==> ReadCell(out.m, m.blocks, off) == VInt(0))
  {
    var m1 := SetReg(m, RegName(n), VBool(len < 0));
    var m2 := Enter(m1, if len < 0 then outOf else within);
    StepArith(m, RegName(n), Slt, "i32", size, Const(0), len, 0);
    ExecStep(code, 0, m, fuel, m1);
    SizeBranch(code, n, outOf, within, m1, len < 0, fuel - 1);
    if len < 0 {
      ThrowExits(code, 3, m2, fuel - 3);
    } else {
      assert Eval(m2, size) == Some(VInt(len)) by {
        if size.Reg? { assert size.name != RegName(n); }
      }
      assert Older(size, n + 1);
      SizeOkRuns(code, n, size, m2, len, fuel - 3);
    }
  }

  /** A `throw_oob` call ends the run. */
  lemma ThrowExits(code: seq<Instr>, pc: nat, m: Machine, fuel: nat)
    requires pc < |code| && code[pc] == Call(None, "void", Named("throw_oob"), []) && fuel > 0
    ensures Exec(code, pc, m, fuel) == Exit(m)
  {
  }

  /** Past the size test, the allocation as written runs to the end of the code. */
  lemma SizeOkRuns(code: seq<Instr>, n: nat, size: Operand, m2: Machine, len: int, fuel: nat)
    requires |code| == 10 && code[6..] == NewArrayCode(n + 1, size)
    requires Eval(m2, size) == Some(VInt(len)) && Older(size, n + 1) && FreshBlocks(m2) && fuel >= 9
    ensures var out := Exec(code, 6, m2, fuel);
      && out.Done?
      && FreshBlocks(out.m) && out.m.blocks == m2.blocks + 1
      && Eval(out.m, Reg(RegName(n + 3))) == Some(VPtr(m2.blocks, 0))
      && ReadCell(out.m, m2.blocks, 0) == VInt(len)
      && forall off :: off != 0 ==> ReadCell(out.m, m2.blocks, off) == VInt(0)
  {
    var alloc := NewArrayCode(n + 1, size);
    NewArrayRuns(n + 1, size, m2, len);
    assert code[6..6 + |alloc|] == alloc;
    ExecStraight(code, 6, alloc, m2, fuel);
  }

  /** The conditional branch of the size check, taken. */
  lemma SizeBranch(code: seq<Instr>, n: nat, outOf: string, within: string, m1: Machine, neg: bool, fuel: nat)
    requires |code| == 10 && outOf != within && fuel >= 11
    requires code[0].Arith? && code[1] == CondBr(Reg(RegName(n)), outOf, within)
    requires code[2] == Label(outOf) && code[3].Call? && code[4].Jump? && code[5] == Label(within)
    requires Eval(m1, Reg(RegName(n))) == Some(VBool(neg))
    ensures Exec(code, 1, m1, fuel) == Exec(code, if neg then 3 else 6, Enter(m1, if neg then outOf else within), fuel - 2)
  {
    if neg {
      FindLabelFirst(code, 2, outOf);
      ExecCondBr(code, 1, m1, fuel, true, 2);
    } else {
      FindLabelFirst(code, 5, within);
      ExecCondBr(code, 1, m1, fuel, false, 5);
    }
  }

  /** The instructions of the corrected allocation, one by one. */
  lemma SizeCheckLayout(n: nat, size: Operand, outOf: string, within: string)
    ensures SizeCheckShape(SizeCheckCode(n, size, outOf, within) + NewArrayCode(n + 1, size), n, size, outOf, within)
  {
    var code := SizeCheckCode(n, size, outOf, within) + NewArrayCode(n + 1, size);
    assert code[6..] == NewArrayCode(n + 1, size);
  }

  /** The corrected allocation keeps the promise of `checkArrayIndex` for every
      size: once the allocation completes, the bounds check on the new array
      lets execution continue exactly for an index in `[0, len)`. */
  lemma NewArrayCheckedSound(g: Gen, size: Operand, m: Machine, len: int, i: int, fuel: nat)
    requires Eval(m, size) == Some(VInt(len)) && Older(size, g.st.regCounter) && FreshBlocks(m)
    requires fuel >= 12
    ensures var (arr, g1) := NewArrayChecked(g, size);
      var out := Exec(Appended(g, g1), 0, m, fuel);
      out.Done? ==>
        && (Exec(Appended(g1, CheckArrayIndex(g1, arr, Const(i), true)), 0, out.m, 20).Done? <==> 0 <= i < len)
        && (Exec(Appended(g1, CheckArrayIndex(g1, arr, Const(i), true)), 0, out.m, 20).Exit? <==> !(0 <= i < len))
  {
    var (arr, g1) := NewArrayChecked(g, size);
    var out := Exec(Appended(g, g1), 0, m, fuel);
    NewArrayCheckedRuns(g, size, m, len, fuel);
    if out.Done? {
      CheckArrayIndexSound(g1, arr, Const(i), true, out.m, m.blocks, len, i, 20);
    }
  }

  /** `visitAllocationExpression`: an instance of the class's size, with the
      class's vtable stored in its first word. */
  function NewObject(ctx: Ctx, g: Gen, c: string): (r: Result<(Typed, Gen), CodeFault>)
    ensures r.Err? <==> Get(ctx.classes, c).None?
    ensures r.Ok? ==>
      var data := Get(ctx.classes, c).value;
      var n := g.st.regCounter;
      && r.value.0 == Typed("i8*", Reg(RegName(n)))
      && r.value.1.code == g.code + ObjectCode(n, c, ctx.t.instanceSize(data), |data.methods|)
      && r.value.1.st.regCounter == n + 3 && r.value.1.queue == g.queue
  {
    match Get(ctx.classes, c)
    case None => Err(UnknownClass(c))
    case Some(data) =>
      var n := g.st.regCounter;
      Ok((Typed("i8*", Reg(RegName(n))),
          g.(st := g.st.(regCounter := n + 3), code := g.code + ObjectCode(n, c, ctx.t.instanceSize(data), |data.methods|))))
  }

  /** The vtable global of a class and its array type. */
  function VTableName(c: string): string { "@." + c + "_vtable" }

  function TableType(slots: nat): string { "[" + NatToString(slots) + " x i8*]" }

  function ObjectCode(n: nat, c: string, size: int, slots: nat): seq<Instr>
  {
    [ Call(Some(RegName(n)), "i8*", Named("calloc"), [Typed("i32", Const(1)), Typed("i32", Const(size))]),
      Bitcast(RegName(n + 1), "i8*", Reg(RegName(n)), "i8***"),
      Gep(RegName(n + 2), TableType(slots), Global(VTableName(c)), [Const(0), Const(0)]),
      Store("i8**", Reg(RegName(n + 2)), Reg(RegName(n + 1))) ]
  }

  // ---------------------------------------------------------------------------
  // Identifiers

  /** `visitPrimaryExpression` on an identifier: a local or parameter is loaded
      from its stack slot; anything else is read as a field of `this`. */
  function LoadIdent(ctx: Ctx, g: Gen, x: string): (r: Result<(Typed, Gen), CodeFault>)
    ensures GetIdInfo(g.st, x).Some? ==>
      var info := GetIdInfo(g.st, x).value;
      var n := g.st.regCounter;
      && r.Ok? && r.value.0 == Typed(info.llvmType, Reg(RegName(n)))
      && r.value.1 == g.(st := NewReg(g.st).1, code := g.code + [Load(RegName(n), info.llvmType, Reg(info.register))])
    ensures GetIdInfo(g.st, x).None? ==> r == GetField(ctx, g, x, true)
    ensures r.Ok? ==> Extends(g, r.value.1) && r.value.1.queue == g.queue
  {
    match GetIdInfo(g.st, x)
    case None => GetField(ctx, g, x, true)
    case Some(info) =>
      var (reg, g1) := Fresh(g);
      Ok((Typed(info.llvmType, Reg(reg)), Emit(g1, Load(reg, info.llvmType, Reg(info.register)))))
  }

  /** Reading an identifier yields the content of its storage: the stack slot of
      a local or parameter, otherwise the field's cell in the object `%this`
      points to. */
  lemma IdentValue(ctx: Ctx, g: Gen, x: string, m: Machine, obj: nat)
    requires LoadIdent(ctx, g, x).Ok?
    requires "%this" in m.regs && m.regs["%this"] == VPtr(obj, 0)
    requires GetIdInfo(g.st, x).Some? ==> Eval(m, Reg(GetIdInfo(g.st, x).value.register)).Some?
    requires GetIdInfo(g.st, x).Some? ==> Eval(m, Reg(GetIdInfo(g.st, x).value.register)).value.VPtr?
    ensures var (v, g') := LoadIdent(ctx, g, x).value;
      && RunStraight(m, Appended(g, g')).Some?
      && Eval(RunStraight(m, Appended(g, g')).value, v.op) ==
         Some(match GetIdInfo(g.st, x)
              case Some(info) =>
                var slot := Eval(m, Reg(info.register)).value;
                ReadCell(m, slot.block, slot.offset)
              case None => ReadCell(m, obj, FieldOf(ctx, x).value.offset))
  {
    var (v, g') := LoadIdent(ctx, g, x).value;
    match GetIdInfo(g.st, x)
    case None => FieldAccess(ctx, g, x, true, m, obj);
    case Some(info) =>
      var slot := Eval(m, Reg(info.register)).value;
      var ins := Load(RegName(g.st.regCounter), info.llvmType, Reg(info.register));
      assert Appended(g, g') == [ins];
      var m1 := SetReg(m, RegName(g.st.regCounter), ReadCell(m, slot.block, slot.offset));
      assert Step(m, ins) == Some(m1);
      assert RunStraight(m, [ins]) == RunStraight(m1, []);
  }

  // ---------------------------------------------------------------------------
  // Message sends

  /** The text of an operand's value, as the visitors return it after the type. */
  function ValueText(op: Operand): string
  {
    match op
    case Reg(x) => x
    case Const(v) => if v < 0 then "-" + NatToString(-v) else NatToString(v)
    case Flag(b) => if b then "true" else "false"
    case Global(x) => x
  }

  function Render(v: Typed): (string, string)
  {
    (v.ty, ValueText(v.op))
  }

  function Rendered(vs: seq<Typed>): (r: seq<(string, string)>)
    ensures |r| == |vs|
    ensures forall i :: 0 <= i < |vs| ==> r[i] == Render(vs[i])
  {
    seq(|vs|, i requires 0 <= i < |vs| => Render(vs[i]))
  }

  /** The receiver class of the next message send is the head of the first pass's
      queue; its layout (inherited methods included) gives the method's record.
      An empty queue, an untyped receiver, an unknown class or method fails. */
  function PopReceiver(ctx: Ctx, g: Gen, name: string): (r: Result<(MethodInfo, Gen), CodeFault>)
    ensures |g.queue| == 0 ==> r == Err(QueueEmpty)
    ensures |g.queue| > 0 && g.queue[0].None? ==> r == Err(UntypedReceiver)
    ensures r.Ok? <==>
      && |g.queue| > 0 && g.queue[0].Some?
      && Get(ctx.classes, g.queue[0].value).Some?
      && Get(Get(ctx.classes, g.queue[0].value).value.methods, name).Some?
    ensures r.Ok? ==>
      && r.value.0 == Get(Get(ctx.classes, g.queue[0].value).value.methods, name).value
      && r.value.1 == g.(queue := g.queue[1..])
  {
    if |g.queue| == 0 then Err(QueueEmpty)
    else
      match g.queue[0]
      case None => Err(UntypedReceiver)
      case Some(c) =>
        match Get(ctx.classes, c)
        case None => Err(UnknownClass(c))
        case Some(cls) =>
          match Get(cls.methods, name)
          case None => Err(UnknownMethod(c, name))
          case Some(md) => Ok((md, g.(queue := g.queue[1..])))
  }

  /** The function type the loaded method pointer is cast to: the return type and
      the filtered call signature. */
  function CastType(t: Target, md: MethodInfo, operands: seq<Typed>): string
    requires |operands| > 0
  {
    LlvmType(t, md.returnType) + " "
    + FilterSignature(CallSignature(Rendered(operands)), OperandText(Render(operands[0]))) + "*"
  }

  /** The instructions `visitMessageSend` emits from register `n` on: the vtable
      loaded from the object's first word, the entry at the method's slot loaded
      and cast to the method's type, and the call. */
  function SendCode(n: nat, slot: nat, castTy: string, retTy: string, operands: seq<Typed>): seq<Instr>
    requires |operands| > 0
  {
    [ Bitcast(RegName(n), operands[0].ty, operands[0].op, "i8***"),
      Load(RegName(n + 1), "i8**", Reg(RegName(n))),
      Gep(RegName(n + 2), "i8*", Reg(RegName(n + 1)), [Const(slot)]),
      Load(RegName(n + 3), "i8*", Reg(RegName(n + 2))),
      Bitcast(RegName(n + 4), "i8*", Reg(RegName(n + 3)), castTy),
      Call(Some(RegName(n + 5)), retTy, Pointer(Reg(RegName(n + 4))), operands) ]
  }

  function EmitSend(t: Target, g: Gen, md: MethodInfo, operands: seq<Typed>): (r: (Typed, Gen))
    requires |operands| > 0
    ensures r.0 == Typed(LlvmType(t, md.returnType), Reg(RegName(g.st.regCounter + 5)))
    ensures r.1 == g.(st := r.1.st, code := g.code + SendCode(g.st.regCounter, md.slot, CastType(t, md, operands), LlvmType(t, md.returnType), operands))
    ensures r.1.st.regCounter == g.st.regCounter + 6
    ensures Extends(g, r.1) && r.1.queue == g.queue
  {
    var n := g.st.regCounter;
    var retTy := LlvmType(t, md.returnType);
    (Typed(retTy, Reg(RegName(n + 5))),
     g.(st := g.st.(regCounter := n + 6), code := g.code + SendCode(n, md.slot, CastType(t, md, operands), retTy, operands)))
  }

  // ---------------------------------------------------------------------------
  // Short-circuit and

  /** The label of the block the end of `code` lies in ("" before any label). */
  function CurrentBlock(code: seq<Instr>): string
  {
    if |code| == 0 then ""
    else if code[|code| - 1].Label? then code[|code| - 1].name
    else CurrentBlock(code[..|code| - 1])
  }

  /** The block the phi of `left && right` names for the right-hand value: as
      written, the block the right operand starts in; with `mergeFromEnd`, the
      block its code ends in, which is the block that branches to the merge. */
  function AndMergeLabel(ctx: Ctx, g: Gen, labels: seq<string>): string
    requires |labels| == 3
  {
    if ctx.fixes.mergeFromEnd then CurrentBlock(g.code) else labels[0]
  }

  /** The tail of `visitAndExpression`, after the right operand: both arms jump
      to the end block, whose phi takes the right value from the right arm and
      the (false) left value from the false block. */
  function AndMerge(ctx: Ctx, g: Gen, vl: Typed, vr: Typed, labels: seq<string>): (r: (Typed, Gen))
    requires |labels| == 3
    ensures r.0 == Typed("i1", Reg(RegName(g.st.regCounter)))
    ensures r.1.code == g.code + [Jump(labels[2]), Label(labels[1]), Jump(labels[2]), Label(labels[2]),
      Phi(RegName(g.st.regCounter), "i1", [(vr.op, AndMergeLabel(ctx, g, labels)), (vl.op, labels[1])])]
    ensures r.1.st.regCounter == g.st.regCounter + 1 && r.1.queue == g.queue
  {
    var from := AndMergeLabel(ctx, g, labels);
    var g1 := EmitAll(g, [Jump(labels[2]), Label(labels[1]), Jump(labels[2]), Label(labels[2])]);
    var (p, g2) := Fresh(g1);
    (Typed("i1", Reg(p)), Emit(g2, Phi(p, "i1", [(vr.op, from), (vl.op, labels[1])])))
  }

  // ---------------------------------------------------------------------------
  // Expressions

  /** The expression visitors. Every expression consumes exactly one queue entry
      per message send it contains, in the first pass's order. */
  function GenExpr(ctx: Ctx, g: Gen, e: Expr): (r: Result<(Typed, Gen), CodeFault>)
    ensures r.Ok? ==> Extends(g, r.value.1)
    ensures r.Ok? ==> SendCount(e) <= |g.queue| && r.value.1.queue == g.queue[SendCount(e)..]
    decreases e, 2
  {
    match e
    case IntLit(v) => Ok((Typed("i32", Const(v)), g))
    case BoolLit(b) => Ok((Typed("i1", Flag(b)), g))
    case This => Ok((Typed("i8*", Reg("%this")), g))
    case Ident(x) => LoadIdent(ctx, g, x)
    case Paren(inner) => GenExpr(ctx, g, inner)
    case NewArray(size) =>
      var v :- GenExpr(ctx, g, size);
      Ok(if ctx.fixes.checkSize then NewArrayChecked(v.1, v.0.op) else NewArray(v.1, v.0.op))
    case New(c) => NewObject(ctx, g, c)
    case Binary(op, left, right) => GenBinary(ctx, g, e)
    case And(left, right) => GenAnd(ctx, g, e)
    case Not(x) =>
      var v :- GenExpr(ctx, g, x);
      Ok(Negate(v.1, v.0))
    case ArrayLookup(a, i) => GenLookup(ctx, g, e)
    case Send(recv, name, args) => GenSend(ctx, g, e)
  }

  /** Left operand, then right operand. */
  function GenBinary(ctx: Ctx, g: Gen, e: Expr): (r: Result<(Typed, Gen), CodeFault>)
    requires e.Binary?
    ensures r.Ok? ==> Extends(g, r.value.1)
    ensures r.Ok? ==> SendCount(e) <= |g.queue| && r.value.1.queue == g.queue[SendCount(e)..]
    decreases e, 0
  {
    var vl :- GenExpr(ctx, g, e.left);
    var vr :- GenExpr(ctx, vl.1, e.right);
    OperandsQueue(e, g.queue, vl.1.queue, vr.1.queue);
    Ok(Arithmetic(vr.1, vl.0, vr.0, ArithOf(e.op)))
  }

  /** `visitAndExpression`: the right operand is evaluated only in the block the
      left operand's truth branches to. */
  function GenAnd(ctx: Ctx, g: Gen, e: Expr): (r: Result<(Typed, Gen), CodeFault>)
    requires e.And?
    ensures r.Ok? ==> Extends(g, r.value.1)
    ensures r.Ok? ==> SendCount(e) <= |g.queue| && r.value.1.queue == g.queue[SendCount(e)..]
    decreases e, 0
  {
    var vl :- GenExpr(ctx, g, e.left);
    var (labels, g1) := NewLabels(vl.1, "and");
    var g2 := Emit(Emit(g1, CondBr(vl.0.op, labels[0], labels[1])), Label(labels[0]));
    var vr :- GenExpr(ctx, g2, e.right);
    OperandsQueue(e, g.queue, g2.queue, vr.1.queue);
    Ok(AndMerge(ctx, vr.1, vl.0, vr.0, labels))
  }

  /** `visitArrayLookup`: array, index, bounds check, then the element at index + 1. */
  function GenLookup(ctx: Ctx, g: Gen, e: Expr): (r: Result<(Typed, Gen), CodeFault>)
    requires e.ArrayLookup?
    ensures r.Ok? ==> Extends(g, r.value.1)
    ensures r.Ok? ==> SendCount(e) <= |g.queue| && r.value.1.queue == g.queue[SendCount(e)..]
    decreases e, 0
  {
    var va :- GenExpr(ctx, g, e.arr);
    var vi :- GenExpr(ctx, va.1, e.index);
    LookupQueue(e, g.queue, va.1.queue, vi.1.queue);
    assert Extends(g, vi.1);
    IndexedRead(vi.1, va.0, vi.0.op)
  }

  /** The bounds check, the shifted index and the element load of an array read. */
  function IndexedRead(g: Gen, arr: Typed, index: Operand): (r: Result<(Typed, Gen), CodeFault>)
    ensures r.Err? <==> !(index.Reg? || index.Const?)
    ensures r.Ok? ==> Extends(g, r.value.1) && r.value.1.queue == g.queue
  {
    var g1 := CheckArrayIndex(g, arr, index, true);
    var idx :- GetArrayIndex(g1, index);
    Ok(GetArrayElement(idx.1, arr, idx.0))
  }

  /** `visitMessageSend`: the receiver, then its class from the queue, then the
      arguments, then the dispatch through the vtable. */
  function GenSend(ctx: Ctx, g: Gen, e: Expr): (r: Result<(Typed, Gen), CodeFault>)
    requires e.Send?
    ensures r.Ok? ==> Extends(g, r.value.1)
    ensures r.Ok? ==> SendCount(e) <= |g.queue| && r.value.1.queue == g.queue[SendCount(e)..]
    decreases e, 1
  {
    var parts :- SendParts(ctx, g, e);
    var (recv, md, args, g1) := parts;
    Ok(EmitSend(ctx.t, g1, md, [recv] + args))
  }

  /** The receiver, the method record its queued class gives, and the arguments. */
  function SendParts(ctx: Ctx, g: Gen, e: Expr): (r: Result<(Typed, MethodInfo, seq<Typed>, Gen), CodeFault>)
    requires e.Send?
    ensures r.Ok? ==> Extends(g, r.value.3) && |r.value.2| == |e.args|
    ensures r.Ok? ==> SendCount(e) <= |g.queue| && r.value.3.queue == g.queue[SendCount(e)..]
    decreases e, 0
  {
    var vc :- GenExpr(ctx, g, e.receiver);
    var md :- PopReceiver(ctx, vc.1, e.methodName);
    var va :- GenExprs(ctx, md.1, e.args);
    SendQueue(e, g.queue, vc.1.queue, md.1.queue, va.1.queue);
    Ok((vc.0, md.0, va.0, va.1))
  }

  /** A send consumes its receiver's entries, its own, then its arguments'. */
  lemma SendQueue(e: Expr, q: seq<Option<string>>, q1: seq<Option<string>>, q2: seq<Option<string>>, q3: seq<Option<string>>)
    requires e.Send?
    requires SendCount(e.receiver) <= |q| && q1 == q[SendCount(e.receiver)..]
    requires 1 <= |q1| && q2 == q1[1..]
    requires SendCountAll(e.args) <= |q2| && q3 == q2[SendCountAll(e.args)..]
    ensures SendCount(e) <= |q| && q3 == q[SendCount(e)..]
  {
    QueueChain(q, SendCount(e.receiver), q1, 1, q2);
    QueueChain(q, SendCount(e.receiver) + 1, q2, SendCountAll(e.args), q3);
  }

  /** An arithmetic or `&&` expression consumes its left operand's entries, then its right's. */
  lemma OperandsQueue(e: Expr, q: seq<Option<string>>, q1: seq<Option<string>>, q2: seq<Option<string>>)
    requires e.Binary? || e.And?
    requires SendCount(e.left) <= |q| && q1 == q[SendCount(e.left)..]
    requires SendCount(e.right) <= |q1| && q2 == q1[SendCount(e.right)..]
    ensures SendCount(e) <= |q| && q2 == q[SendCount(e)..]
  {
    QueueChain(q, SendCount(e.left), q1, SendCount(e.right), q2);
  }

  /** An array lookup consumes its array's entries, then its index's. */
  lemma LookupQueue(e: Expr, q: seq<Option<string>>, q1: seq<Option<string>>, q2: seq<Option<string>>)
    requires e.ArrayLookup?
    requires SendCount(e.arr) <= |q| && q1 == q[SendCount(e.arr)..]
    requires SendCount(e.index) <= |q1| && q2 == q1[SendCount(e.index)..]
    ensures SendCount(e) <= |q| && q2 == q[SendCount(e)..]
  {
    QueueChain(q, SendCount(e.arr), q1, SendCount(e.index), q2);
  }

  /** An array assignment (index, then value) or a loop (condition, then body)
      consumes its two parts' entries in turn. */
  lemma TwoPartQueue(s: Stmt, a: nat, b: nat, q: seq<Option<string>>, q1: seq<Option<string>>, q2: seq<Option<string>>)
    requires || (s.ArrayAssign? && a == SendCount(s.index) && b == SendCount(s.value))
             || (s.While? && a == SendCount(s.cond) && b == StmtSendCount(s.loopBody))
    requires a <= |q| && q1 == q[a..]
    requires b <= |q1| && q2 == q1[b..]
    ensures StmtSendCount(s) <= |q| && q2 == q[StmtSendCount(s)..]
  {
    QueueChain(q, a, q1, b, q2);
  }

  /** A conditional consumes its condition's entries, then each branch's. */
  lemma IfQueue(s: Stmt, q: seq<Option<string>>, q1: seq<Option<string>>, q2: seq<Option<string>>, q3: seq<Option<string>>)
    requires s.If?
    requires SendCount(s.cond) <= |q| && q1 == q[SendCount(s.cond)..]
    requires StmtSendCount(s.thenBranch) <= |q1| && q2 == q1[StmtSendCount(s.thenBranch)..]
    requires StmtSendCount(s.elseBranch) <= |q2| && q3 == q2[StmtSendCount(s.elseBranch)..]
    ensures StmtSendCount(s) <= |q| && q3 == q[StmtSendCount(s)..]
  {
    QueueChain(q, SendCount(s.cond), q1, StmtSendCount(s.thenBranch), q2);
    QueueChain(q, SendCount(s.cond) + StmtSendCount(s.thenBranch), q2, StmtSendCount(s.elseBranch), q3);
  }

  lemma StmtsQueue(ss: seq<Stmt>, q: seq<Option<string>>, q1: seq<Option<string>>, q2: seq<Option<string>>)
    requires |ss| > 0
    requires StmtSendCount(ss[0]) <= |q| && q1 == q[StmtSendCount(ss[0])..]
    requires StmtsSendCount(ss[1..]) <= |q1| && q2 == q1[StmtsSendCount(ss[1..])..]
    ensures StmtsSendCount(ss) <= |q| && q2 == q[StmtsSendCount(ss)..]
  {
    QueueChain(q, StmtSendCount(ss[0]), q1, StmtsSendCount(ss[1..]), q2);
  }

  lemma MethodsQueue(ms: seq<MethodDecl>, q: seq<Option<string>>, q1: seq<Option<string>>, q2: seq<Option<string>>)
    requires |ms| > 0
    requires MethodSendCount(ms[0]) <= |q| && q1 == q[MethodSendCount(ms[0])..]
    requires MethodsSendCount(ms[1..]) <= |q1| && q2 == q1[MethodsSendCount(ms[1..])..]
    ensures MethodsSendCount(ms) <= |q| && q2 == q[MethodsSendCount(ms)..]
  {
    QueueChain(q, MethodSendCount(ms[0]), q1, MethodsSendCount(ms[1..]), q2);
  }

  lemma ClassesQueue(cs: seq<ClassDecl>, q: seq<Option<string>>, q1: seq<Option<string>>, q2: seq<Option<string>>)
    requires |cs| > 0
    requires MethodsSendCount(cs[0].methods) <= |q| && q1 == q[MethodsSendCount(cs[0].methods)..]
    requires ClassesSendCount(cs[1..]) <= |q1| && q2 == q1[ClassesSendCount(cs[1..])..]
    ensures ClassesSendCount(cs) <= |q| && q2 == q[ClassesSendCount(cs)..]
  {
    QueueChain(q, MethodsSendCount(cs[0].methods), q1, ClassesSendCount(cs[1..]), q2);
  }

  /** Consuming `a` entries and then `b` more consumes `a + b`. */
  lemma QueueChain(q: seq<Option<string>>, a: nat, q1: seq<Option<string>>, b: nat, q2: seq<Option<string>>)
    requires a <= |q| && q1 == q[a..]
    requires b <= |q1| && q2 == q1[b..]
    ensures a + b <= |q| && q2 == q[a + b..]
  {
    QueueDrop(q, a, b);
  }

  lemma QueueDrop(q: seq<Option<string>>, a: nat, b: nat)
    requires a + b <= |q|
    ensures q[a..][b..] == q[a + b..]
  {
  }

  /** The arguments of a call, left to right. */
  function GenExprs(ctx: Ctx, g: Gen, es: seq<Expr>): (r: Result<(seq<Typed>, Gen), CodeFault>)
    ensures r.Ok? ==> |r.value.0| == |es| && Extends(g, r.value.1)
    ensures r.Ok? ==> SendCountAll(es) <= |g.queue| && r.value.1.queue == g.queue[SendCountAll(es)..]
    decreases es
  {
    if |es| == 0 then Ok(([], g))
    else
      var v :- GenExpr(ctx, g, es[0]);
      var vs :- GenExprs(ctx, v.1, es[1..]);
      Ok(([v.0] + vs.0, vs.1))
  }

  // ---------------------------------------------------------------------------
  // Statements

  /** The store of `visitAssignmentStatement`: the address is cast to a pointer to
      the value's type exactly when its pointer type differs. */
  function StoreTo(g: Gen, value: Typed, addr: Typed): (r: Gen)
    ensures var n := g.st.regCounter;
      if addr.ty != value.ty + "*" then
        && r.code == g.code + [Bitcast(RegName(n), addr.ty, addr.op, value.ty + "*"), Store(value.ty, value.op, Reg(RegName(n)))]
        && r.st.regCounter == n + 1
      else
        && r.code == g.code + [Store(value.ty, value.op, addr.op)]
        && r.st.regCounter == n
    ensures Extends(g, r) && r.queue == g.queue
  {
    if addr.ty != value.ty + "*" then
      var (reg, g1) := Fresh(g);
      Emit(Emit(g1, Bitcast(reg, addr.ty, addr.op, value.ty + "*")), Store(value.ty, value.op, Reg(reg)))
    else Emit(g, Store(value.ty, value.op, addr.op))
  }

  /** An assignment writes the value into the cell its address points to, with or
      without the pointer cast. */
  lemma StoreToWrites(g: Gen, value: Typed, addr: Typed, m: Machine, b: nat, off: int, x: Value)
    requires Eval(m, addr.op) == Some(VPtr(b, off))
    requires Eval(m, value.op) == Some(x) && Older(value.op, g.st.regCounter)
    ensures var g' := StoreTo(g, value, addr);
      && RunStraight(m, Appended(g, g')).Some?
      && ReadCell(RunStraight(m, Appended(g, g')).value, b, off) == x
  {
    var g' := StoreTo(g, value, addr);
    var n := g.st.regCounter;
    var code := Appended(g, g');
    if addr.ty != value.ty + "*" {
      var cast := Bitcast(RegName(n), addr.ty, addr.op, value.ty + "*");
      var store := Store(value.ty, value.op, Reg(RegName(n)));
      assert code == [cast, store];
      var m1 := SetReg(m, RegName(n), VPtr(b, off));
      assert Eval(m1, value.op) == Some(x);
      var m2 := m1.(mem := m1.mem[(b, off) := x]);
      assert Step(m, cast) == Some(m1);
      assert Step(m1, store) == Some(m2);
      assert RunStraight(m, code) == RunStraight(m1, [store]);
      assert RunStraight(m1, [store]) == RunStraight(m2, []);
    } else {
      var store := Store(value.ty, value.op, addr.op);
      assert code == [store];
      var m1 := m.(mem := m.mem[(b, off) := x]);
      assert Step(m, store) == Some(m1);
      assert RunStraight(m, code) == RunStraight(m1, []);
    }
  }

  /** The element store of `visitArrayAssignmentStatetment`: the array pointer
      loaded from the variable's slot, cast to `i32*`, indexed by words. */
  function ElementStoreCode(n: nat, addr: Typed, index: Operand, value: Typed): seq<Instr>
  {
    [ Load(RegName(n), "i8*", addr.op),
      Bitcast(RegName(n + 1), "i8*", Reg(RegName(n)), "i32*"),
      Gep(RegName(n + 2), "i32", Reg(RegName(n + 1)), [index]),
      Store(value.ty, value.op, Reg(RegName(n + 2))) ]
  }

  /** The element store writes word `k` of the array the variable's slot holds. */
  lemma ElementStoreWrites(n: nat, addr: Typed, index: Operand, value: Typed,
                           m: Machine, b: nat, k: int, x: Value)
    requires addr.op.Reg? ==> Eval(m, addr.op).Some?
    requires Eval(m, addr.op).Some? && Eval(m, addr.op).value.VPtr?
    requires ReadCell(m, Eval(m, addr.op).value.block, Eval(m, addr.op).value.offset) == VPtr(b, 0)
    requires Eval(m, index) == Some(VInt(k)) && Older(index, n)
    requires Eval(m, value.op) == Some(x) && Older(value.op, n)
    ensures var r := RunStraight(m, ElementStoreCode(n, addr, index, value));
      r.Some? && ReadCell(r.value, b, 4 * k) == x
  {
    var code := ElementStoreCode(n, addr, index, value);
    var slot := Eval(m, addr.op).value;
    var m1 := SetReg(m, RegName(n), VPtr(b, 0));
    var m2 := SetReg(m1, RegName(n + 1), VPtr(b, 0));
    var m3 := SetReg(m2, RegName(n + 2), VPtr(b, 4 * k));
    ElementStoreOperands(n, index, value, m, b, k, x);
    var m4 := m3.(mem := m3.mem[(b, 4 * k) := x]);
    assert Step(m, code[0]) == Some(m1);
    assert Step(m1, code[1]) == Some(m2);
    assert Step(m2, code[2]) == Some(m3);
    assert Step(m3, code[3]) == Some(m4);
    RunSteps(code, [m, m1, m2, m3, m4]);
  }

  /** The index and the stored value are older than the store's three registers,
      so setting those leaves them as they were. */
  lemma ElementStoreOperands(n: nat, index: Operand, value: Typed, m: Machine, b: nat, k: int, x: Value)
    requires Eval(m, index) == Some(VInt(k)) && Older(index, n)
    requires Eval(m, value.op) == Some(x) && Older(value.op, n)
    ensures var m1 := SetReg(m, RegName(n), VPtr(b, 0));
      var m2 := SetReg(m1, RegName(n + 1), VPtr(b, 0));
      var m3 := SetReg(m2, RegName(n + 2), VPtr(b, 4 * k));
      && Eval(m2, index) == Some(VInt(k)) && Eval(m3, value.op) == Some(x)
  {
    if index.Reg? { assert index.name != RegName(n) && index.name != RegName(n + 1); }
    if value.op.Reg? {
      assert value.op.name != RegName(n) && value.op.name != RegName(n + 1) && value.op.name != RegName(n + 2);
    }
  }

  /** `print_bool` for an `i1`, `print_int` for anything else. */
  function PrintFunction(ty: string): (r: string)
    ensures r == "print_bool" <==> ty == "i1"
    ensures r == "print_int" <==> ty != "i1"
  {
    if ty == "i1" then "print_bool" else "print_int"
  }

  /** The statement visitors; like expressions, each consumes one queue entry per
      message send it contains. */
  function GenStmt(ctx: Ctx, g: Gen, s: Stmt): (r: Result<Gen, CodeFault>)
    ensures r.Ok? ==> Extends(g, r.value)
    ensures r.Ok? ==> StmtSendCount(s) <= |g.queue| && r.value.queue == g.queue[StmtSendCount(s)..]
    decreases s, 1
  {
    match s
    case Block(ss) => GenStmts(ctx, g, ss)
    case Assign(id, v) =>
      var rv :- GenExpr(ctx, g, v);
      var addr :- GetIdAddress(ctx, rv.1, id);
      Ok(StoreTo(addr.1, rv.0, addr.0))
    case ArrayAssign(_, _, _) => GenArrayAssign(ctx, g, s)
    case If(_, _, _) => GenIf(ctx, g, s)
    case While(_, _) => GenWhile(ctx, g, s)
    case Print(v) =>
      var ve :- GenExpr(ctx, g, v);
      Ok(Emit(ve.1, Call(None, "void", Named(PrintFunction(ve.0.ty)), [ve.0])))
  }

  /** The address first, then the index and the value, the bounds check on the
      loaded array, and the store at index + 1. */
  function GenArrayAssign(ctx: Ctx, g: Gen, s: Stmt): (r: Result<Gen, CodeFault>)
    requires s.ArrayAssign?
    ensures r.Ok? ==> Extends(g, r.value)
    ensures r.Ok? ==> StmtSendCount(s) <= |g.queue| && r.value.queue == g.queue[StmtSendCount(s)..]
    decreases s, 0
  {
    var addr :- GetIdAddress(ctx, g, s.id);
    var vi :- GenExpr(ctx, addr.1, s.index);
    var vv :- GenExpr(ctx, vi.1, s.value);
    var g1 := CheckArrayIndex(vv.1, addr.0, vi.0.op, false);
    var idx :- GetArrayIndex(g1, vi.0.op);
    TwoPartQueue(s, SendCount(s.index), SendCount(s.value), g.queue, vi.1.queue, vv.1.queue);
    Ok(ElementStore(idx.1, addr.0, idx.0, vv.0))
  }

  function ElementStore(g: Gen, addr: Typed, index: Operand, value: Typed): (r: Gen)
    ensures r.code == g.code + ElementStoreCode(g.st.regCounter, addr, index, value)
    ensures r.st.regCounter == g.st.regCounter + 3
    ensures Extends(g, r) && r.queue == g.queue
  {
    var n := g.st.regCounter;
    g.(st := g.st.(regCounter := n + 3), code := g.code + ElementStoreCode(n, addr, index, value))
  }

  /** `visitIfStatement`: labels first, then the condition, both branches, the join. */
  function GenIf(ctx: Ctx, g: Gen, s: Stmt): (r: Result<Gen, CodeFault>)
    requires s.If?
    ensures r.Ok? ==> Extends(g, r.value)
    ensures r.Ok? ==> StmtSendCount(s) <= |g.queue| && r.value.queue == g.queue[StmtSendCount(s)..]
    decreases s, 0
  {
    var (labels, g1) := NewLabels(g, "if");
    var vc :- GenExpr(ctx, g1, s.cond);
    var g2 := Emit(Emit(vc.1, CondBr(vc.0.op, labels[0], labels[1])), Label(labels[0]));
    var gt :- GenStmt(ctx, g2, s.thenBranch);
    var g3 := Emit(Emit(gt, Jump(labels[2])), Label(labels[1]));
    var ge :- GenStmt(ctx, g3, s.elseBranch);
    IfQueue(s, g.queue, g2.queue, gt.queue, ge.queue);
    Ok(Emit(Emit(ge, Jump(labels[2])), Label(labels[2])))
  }

  /** `visitWhileStatement`: a block for the condition, re-entered after the body. */
  function GenWhile(ctx: Ctx, g: Gen, s: Stmt): (r: Result<Gen, CodeFault>)
    requires s.While?
    ensures r.Ok? ==> Extends(g, r.value)
    ensures r.Ok? ==> StmtSendCount(s) <= |g.queue| && r.value.queue == g.queue[StmtSendCount(s)..]
    decreases s, 0
  {
    var (labels, g1) := NewLabels(g, "while");
    var g2 := Emit(Emit(g1, Jump(labels[0])), Label(labels[0]));
    var vc :- GenExpr(ctx, g2, s.cond);
    var g3 := Emit(Emit(vc.1, CondBr(vc.0.op, labels[1], labels[2])), Label(labels[1]));
    var gb :- GenStmt(ctx, g3, s.loopBody);
    TwoPartQueue(s, SendCount(s.cond), StmtSendCount(s.loopBody), g.queue, g3.queue, gb.queue);
    Ok(Emit(Emit(gb, Jump(labels[0])), Label(labels[2])))
  }

  function GenStmts(ctx: Ctx, g: Gen, ss: seq<Stmt>): (r: Result<Gen, CodeFault>)
    ensures r.Ok? ==> Extends(g, r.value)
    ensures r.Ok? ==> StmtsSendCount(ss) <= |g.queue| && r.value.queue == g.queue[StmtsSendCount(ss)..]
    decreases ss
  {
    if |ss| == 0 then Ok(g)
    else
      var g1 :- GenStmt(ctx, g, ss[0]);
      var g2 :- GenStmts(ctx, g1, ss[1..]);
      StmtsQueue(ss, g.queue, g1.queue, g2.queue);
      Ok(g2)
  }

  // ---------------------------------------------------------------------------
  // Methods and the program

  /** One emitted `define`: its symbol, return type, parameter list and body. */
  datatype FunctionDef = FunctionDef(name: string, retTy: string, params: string, body: seq<Instr>)

  /** The binding a sequence of (name, LLVM type) declarations leaves for `x`: the last one wins. */
  function LastBinding(binds: seq<(string, string)>, x: string): Option<string>
    decreases |binds|
  {
    if |binds| == 0 then None
    else if binds[|binds| - 1].0 == x then Some(binds[|binds| - 1].1)
    else LastBinding(binds[..|binds| - 1], x)
  }

  /** What `x` resolves to once `binds` are declared on top of `st`. */
  function BoundInfo(st: State, binds: seq<(string, string)>, x: string): Option<IdInfo>
  {
    match LastBinding(binds, x)
    case Some(ty) => Some(IdInfo("%" + x, ty))
    case None => GetIdInfo(st, x)
  }

  /** The stack slot of one declaration, and for a parameter the store of the
      incoming `%.name` into it. */
  function SlotCode(bind: (string, string), isParam: bool): seq<Instr>
  {
    [Alloca("%" + bind.0, bind.1)]
      + (if isParam then [Store(bind.1, Reg("%." + bind.0), Reg("%" + bind.0))] else [])
  }

  function SlotsCode(binds: seq<(string, string)>, isParam: bool): seq<Instr>
    decreases |binds|
  {
    if |binds| == 0 then [] else SlotsCode(binds[..|binds| - 1], isParam) + SlotCode(binds[|binds| - 1], isParam)
  }

  /** The parameter and local-variable prologue of a method: one slot per
      declaration, each identifier then resolving to the slot `"%" + name`. */
  function DeclareSlots(g: Gen, binds: seq<(string, string)>, isParam: bool): (r: Gen)
    ensures r.code == g.code + SlotsCode(binds, isParam)
    ensures r.st.regCounter == g.st.regCounter && r.st.labelCounters == g.st.labelCounters
    ensures r.queue == g.queue && Extends(g, r)
    ensures forall x :: GetIdInfo(r.st, x) == BoundInfo(g.st, binds, x)
    decreases |binds|
  {
    if |binds| == 0 then g
    else
      var g1 := DeclareSlots(g, binds[..|binds| - 1], isParam);
      var (id, ty) := binds[|binds| - 1];
      var g2 := g1.(st := EmissionState.Put(g1.st, id, "%" + id, ty), code := g1.code + SlotCode((id, ty), isParam));
      assert g2.code == g.code + SlotsCode(binds, isParam);
      g2
  }

  function ParamBinds(t: Target, ps: seq<Param>): (r: seq<(string, string)>)
    ensures |r| == |ps|
    ensures forall i :: 0 <= i < |ps| ==> r[i] == (ps[i].1, LlvmType(t, ps[i].0))
  {
    seq(|ps|, i requires 0 <= i < |ps| => (ps[i].1, LlvmType(t, ps[i].0)))
  }

  function LocalBinds(t: Target, vs: seq<VarDecl>): (r: seq<(string, string)>)
    ensures |r| == |vs|
    ensures forall i :: 0 <= i < |vs| ==> r[i] == (vs[i].name, LlvmType(t, vs[i].typeTag))
  {
    seq(|vs|, i requires 0 <= i < |vs| => (vs[i].name, LlvmType(t, vs[i].typeTag)))
  }

  /** The body of a method: the prologue, the statements, and the `ret` of the
      result expression. */
  function MethodBody(ctx: Ctx, g: Gen, params: seq<Param>, m: MethodDecl): (r: Result<Gen, CodeFault>)
    ensures r.Ok? ==>
      && g.code + SlotsCode(ParamBinds(ctx.t, params), true) + SlotsCode(LocalBinds(ctx.t, m.locals), false) <= r.value.code
      && |r.value.code| > 0 && r.value.code[|r.value.code| - 1].Ret?
    ensures r.Ok? ==> MethodSendCount(m) <= |g.queue| && r.value.queue == g.queue[MethodSendCount(m)..]
  {
    var g1 := DeclareSlots(g, ParamBinds(ctx.t, params), true);
    var g2 := DeclareSlots(g1, LocalBinds(ctx.t, m.locals), false);
    var g3 :- GenStmts(ctx, g2, m.body);
    var v :- GenExpr(ctx, g3, m.result);
    QueueChain(g.queue, StmtsSendCount(m.body), g3.queue, SendCount(m.result), v.1.queue);
    Ok(Emit(v.1, Ret(v.0)))
  }

  /** `visitMethodDeclaration`: the header from the layout's argument list, the
      body, and a cleared state for the next method. */
  function GenMethod(t: Target, classes: OMap<ClassLayout>, fixes: Fixes, className: string,
                     g: Gen, m: MethodDecl): (r: Result<(FunctionDef, Gen), CodeFault>)
    ensures Get(classes, className).None? ==> r == Err(UnknownClass(className))
    ensures Get(classes, className).Some? && Get(Get(classes, className).value.methods, m.name).None? ==>
      r == Err(UnknownMethod(className, m.name))
    ensures r.Ok? ==>
      var md := Get(Get(classes, className).value.methods, m.name).value;
      var params := if md.arguments.Some? then md.arguments.value else [];
      var f := r.value.0;
      && f.name == className + "." + m.name
      && f.retTy == LlvmType(t, m.returnType)
      && f.params == ArgList(t, md.arguments, true)
      && SlotsCode(ParamBinds(t, params), true) + SlotsCode(LocalBinds(t, m.locals), false) <= f.body
      && |f.body| > 0 && f.body[|f.body| - 1].Ret?
    ensures r.Ok? ==> r.value.1.st == Init() && r.value.1.code == []
    ensures r.Ok? ==> MethodSendCount(m) <= |g.queue| && r.value.1.queue == g.queue[MethodSendCount(m)..]
  {
    match Get(classes, className)
    case None => Err(UnknownClass(className))
    case Some(cls) =>
      match Get(cls.methods, m.name)
      case None => Err(UnknownMethod(className, m.name))
      case Some(md) =>
        var params := if md.arguments.Some? then md.arguments.value else [];
        var b :- MethodBody(Ctx(t, classes, className, fixes), g.(code := []), params, m);
        assert [] + SlotsCode(ParamBinds(t, params), true) == SlotsCode(ParamBinds(t, params), true);
        Ok((FunctionDef(className + "." + m.name, LlvmType(t, m.returnType), ArgList(t, md.arguments, true), b.code),
            b.(st := Clear(b.st), code := [])))
  }

  function GenMethods(t: Target, classes: OMap<ClassLayout>, fixes: Fixes, className: string,
                      g: Gen, ms: seq<MethodDecl>): (r: Result<(seq<FunctionDef>, Gen), CodeFault>)
    ensures r.Ok? ==> |r.value.0| == |ms|
    ensures r.Ok? ==> MethodsSendCount(ms) <= |g.queue| && r.value.1.queue == g.queue[MethodsSendCount(ms)..]
    decreases |ms|
  {
    if |ms| == 0 then Ok(([], g))
    else
      var d :- GenMethod(t, classes, fixes, className, g, ms[0]);
      var ds :- GenMethods(t, classes, fixes, className, d.1, ms[1..]);
      MethodsQueue(ms, g.queue, d.1.queue, ds.1.queue);
      Ok(([d.0] + ds.0, ds.1))
  }

  function MethodTotal(cs: seq<ClassDecl>): nat
  {
    if |cs| == 0 then 0 else |cs[0].methods| + MethodTotal(cs[1..])
  }

  /** Every class, plain or derived, in source order: its methods under its own name. */
  function GenClasses(t: Target, classes: OMap<ClassLayout>, fixes: Fixes,
                      g: Gen, cs: seq<ClassDecl>): (r: Result<(seq<FunctionDef>, Gen), CodeFault>)
    ensures r.Ok? ==> |r.value.0| == MethodTotal(cs)
    ensures r.Ok? ==> ClassesSendCount(cs) <= |g.queue| && r.value.1.queue == g.queue[ClassesSendCount(cs)..]
    decreases |cs|
  {
    if |cs| == 0 then Ok(([], g))
    else
      var d :- GenMethods(t, classes, fixes, cs[0].name, g, cs[0].methods);
      var ds :- GenClasses(t, classes, fixes, d.1, cs[1..]);
      ClassesQueue(cs, g.queue, d.1.queue, ds.1.queue);
      Ok((d.0 + ds.0, ds.1))
  }

  /** `visitMainClass`: `define i32 @main()`, the locals, the statements and
      `ret i32 0`; the state is not cleared afterwards. */
  function GenMain(t: Target, classes: OMap<ClassLayout>, fixes: Fixes,
                   g: Gen, main: MainClass): (r: Result<(FunctionDef, Gen), CodeFault>)
    ensures r.Ok? ==>
      && r.value.0.name == "main" && r.value.0.retTy == "i32" && r.value.0.params == "()"
      && SlotsCode(LocalBinds(t, main.locals), false) <= r.value.0.body
      && |r.value.0.body| > 0 && r.value.0.body[|r.value.0.body| - 1] == Ret(Typed("i32", Const(0)))
      && r.value.1.code == []
    ensures r.Ok? ==> StmtsSendCount(main.body) <= |g.queue| && r.value.1.queue == g.queue[StmtsSendCount(main.body)..]
  {
    var ctx := Ctx(t, classes, main.name, fixes);
    var g1 := DeclareSlots(g.(code := []), LocalBinds(t, main.locals), false);
    var g2 :- GenStmts(ctx, g1, main.body);
    var g3 := Emit(g2, Ret(Typed("i32", Const(0))));
    Ok((FunctionDef("main", "i32", "()", g3.code), g3.(code := [])))
  }

  /** The second pass over a whole program, from a fresh state and the queue the
      first pass filled; answers the functions and what is left of the queue. */
  function GenProgram(t: Target, classes: OMap<ClassLayout>, fixes: Fixes,
                      p: Program, queue: seq<Option<string>>): (r: Result<(seq<FunctionDef>, seq<Option<string>>), CodeFault>)
    ensures r.Ok? ==> |r.value.0| == 1 + MethodTotal(p.classes) && r.value.0[0].name == "main"
    ensures r.Ok? ==> ProgramSendCount(p) <= |queue| && r.value.1 == queue[ProgramSendCount(p)..]
  {
    var m :- GenMain(t, classes, fixes, Gen(Init(), [], queue), p.main);
    var cs :- GenClasses(t, classes, fixes, m.1, p.classes);
    QueueChain(queue, StmtsSendCount(p.main.body), m.1.queue, ClassesSendCount(p.classes), cs.1.queue);
    Ok(([m.0] + cs.0, cs.1.queue))
  }

  /** Why compilation stopped: in the layout pass or in the emission pass. */
  datatype CompileFault = LayoutFault(layout: SymbolTable.Fault) | EmitFault(emit: CodeFault)

  /** Both passes: the layouts and receiver queue of the first feed the second. */
  function Compile(t: Target, fixes: Fixes, p: Program): Result<(seq<FunctionDef>, seq<Option<string>>), CompileFault>
  {
    match SymbolTable.BuildProgram(t, p)
    case Err(f) => Err(LayoutFault(f))
    case Ok(b) =>
      match GenProgram(t, b.classes, fixes, p, b.queue)
      case Err(f) => Err(EmitFault(f))
      case Ok(r) => Ok(r)
  }

  /** The two passes agree on the receivers: the second consumes exactly the
      entries the first produced, and none is left over. */
  lemma QueueDrained(t: Target, fixes: Fixes, p: Program)
    requires Compile(t, fixes, p).Ok?
    ensures Compile(t, fixes, p).value.1 == []
    ensures |Compile(t, fixes, p).value.0| == 1 + MethodTotal(p.classes)
  {
    SymbolTable.QueueLength(t, p);
  }

  // ---------------------------------------------------------------------------
  // Short-circuit and, on the machine

  /** What `visitAndExpression` appends after the left operand's code: the branch
      on the left value, the true block holding the right operand's code, the
      false block, and the merge whose phi names `from` for the right value. */
  function AndCode(a: Operand, labels: seq<string>, right: seq<Instr>, vr: Operand, p: string, from: string): seq<Instr>
    requires |labels| == 3
  {
    [CondBr(a, labels[0], labels[1]), Label(labels[0])] + right + AndTail(a, labels, vr, p, from)
  }

  function AndTail(a: Operand, labels: seq<string>, vr: Operand, p: string, from: string): seq<Instr>
    requires |labels| == 3
  {
    [Jump(labels[2]), Label(labels[1]), Jump(labels[2]), Label(labels[2]), Phi(p, "i1", [(vr, from), (a, labels[1])])]
  }

  /** `GenAnd` is the left operand's code followed by `AndCode`. */
  lemma GenAndShape(ctx: Ctx, g: Gen, e: Expr)
    requires e.And? && GenAnd(ctx, g, e).Ok?
    ensures var vl := GenExpr(ctx, g, e.left).value;
      var labels := LabelTuple(vl.1.st, 3);
      var g2 := Emit(Emit(NewLabels(vl.1, "and").1, CondBr(vl.0.op, labels[0], labels[1])), Label(labels[0]));
      var vr := GenExpr(ctx, g2, e.right).value;
      var r := GenAnd(ctx, g, e).value;
      && r.0 == Typed("i1", Reg(RegName(vr.1.st.regCounter)))
      && Appended(g, r.1) == Appended(g, vl.1)
           + AndCode(vl.0.op, labels, Appended(g2, vr.1), vr.0.op, RegName(vr.1.st.regCounter), AndMergeLabel(ctx, vr.1, labels))
  {
    var vl := GenExpr(ctx, g, e.left).value;
    var labels := LabelTuple(vl.1.st, 3);
    var g2 := Emit(Emit(NewLabels(vl.1, "and").1, CondBr(vl.0.op, labels[0], labels[1])), Label(labels[0]));
    var vr := GenExpr(ctx, g2, e.right).value;
    var r := GenAnd(ctx, g, e).value;
    assert r == AndMerge(ctx, vr.1, vl.0, vr.0, labels);
    var tail := AndTail(vl.0.op, labels, vr.0.op, RegName(vr.1.st.regCounter), AndMergeLabel(ctx, vr.1, labels));
    assert r.1.code == vr.1.code + tail;
    assert vr.1.code == g2.code + Appended(g2, vr.1);
    assert g2.code == vl.1.code + [CondBr(vl.0.op, labels[0], labels[1]), Label(labels[0])];
    assert vl.1.code == g.code + Appended(g, vl.1);
    AppendedSteps(g.code, vl.1.code, g2.code, vr.1.code, r.1.code,
      Appended(g, vl.1), [CondBr(vl.0.op, labels[0], labels[1]), Label(labels[0])], Appended(g2, vr.1), tail);
    assert AndCode(vl.0.op, labels, Appended(g2, vr.1), vr.0.op, RegName(vr.1.st.regCounter), AndMergeLabel(ctx, vr.1, labels))
      == [CondBr(vl.0.op, labels[0], labels[1]), Label(labels[0])] + Appended(g2, vr.1) + tail;
  }

  /** Code grown in four steps is the four pieces after the starting code. */
  lemma AppendedSteps(c0: seq<Instr>, c1: seq<Instr>, c2: seq<Instr>, c3: seq<Instr>, c4: seq<Instr>,
                      a: seq<Instr>, b: seq<Instr>, c: seq<Instr>, d: seq<Instr>)
    requires c1 == c0 + a && c2 == c1 + b && c3 == c2 + c && c4 == c3 + d
    ensures |c0| <= |c4| && c4[|c0|..] == a + (b + c + d)
  {
    assert c4 == c0 + (a + (b + c + d));
  }

  /** With a right operand of straight-line code, both phi policies name the true
      block: the block the right operand's code starts and ends in. */
  lemma {:induction false} MergeLabelStraight(ctx: Ctx, g: Gen, right: seq<Instr>, labels: seq<string>)
    requires |labels| == 3 && |g.code| > 0 && g.code[|g.code| - 1] == Label(labels[0])
    requires forall i :: 0 <= i < |right| ==> Straight(right[i])
    ensures AndMergeLabel(ctx, g.(code := g.code + right), labels) == labels[0]
    decreases |right|
  {
    if |right| > 0 {
      var c := g.code + right;
      assert c[..|c| - 1] == g.code + right[..|right| - 1];
      MergeLabelStraight(ctx, g, right[..|right| - 1], labels);
    } else {
      assert g.code + right == g.code;
    }
  }

  /** Where the pieces of `AndCode` sit. */
  lemma AndCodeIndices(a: Operand, labels: seq<string>, right: seq<Instr>, vr: Operand, p: string, from: string)
    requires |labels| == 3
    ensures var code := AndCode(a, labels, right, vr, p, from);
      var k := |right|;
      && |code| == 7 + k
      && code[0] == CondBr(a, labels[0], labels[1]) && code[1] == Label(labels[0])
      && code[2..2 + k] == right
      && code[2 + k] == Jump(labels[2]) && code[3 + k] == Label(labels[1])
      && code[4 + k] == Jump(labels[2]) && code[5 + k] == Label(labels[2])
      && code[6 + k] == Phi(p, "i1", [(vr, from), (a, labels[1])])
  {
    var head: seq<Instr> := [CondBr(a, labels[0], labels[1]), Label(labels[0])];
    var tail := AndTail(a, labels, vr, p, from);
    var code := AndCode(a, labels, right, vr, p, from);
    var k := |right|;
    assert code == head + right + tail;
    assert code[2..2 + k] == right;
    assert forall j :: 0 <= j < 5 ==> code[2 + k + j] == tail[j];
  }

  /** Where branches to the three labels of `AndCode` land. */
  lemma AndCodeLabels(a: Operand, labels: seq<string>, right: seq<Instr>, vr: Operand, p: string, from: string)
    requires |labels| == 3 && labels[0] != labels[1] && labels[1] != labels[2] && labels[0] != labels[2]
    requires forall i :: 0 <= i < |right| ==> Straight(right[i])
    ensures var code := AndCode(a, labels, right, vr, p, from);
      var k := |right|;
      && FindLabel(code, labels[0]) == Some(1)
      && FindLabel(code, labels[1]) == Some(3 + k)
      && FindLabel(code, labels[2]) == Some(5 + k)
  {
    var code := AndCode(a, labels, right, vr, p, from);
    var k := |right|;
    AndCodeIndices(a, labels, right, vr, p, from);
    forall i | 2 <= i < 2 + k ensures !code[i].Label? {
      assert code[i] == code[2..2 + k][i - 2];
      assert Straight(right[i - 2]);
    }
    assert forall i :: 0 <= i < 1 ==> code[i] != Label(labels[0]);
    FindLabelFirst(code, 1, labels[0]);
    assert forall i :: 0 <= i < 3 + k ==> code[i] != Label(labels[1]);
    FindLabelFirst(code, 3 + k, labels[1]);
    assert forall i :: 0 <= i < 5 + k ==> code[i] != Label(labels[2]);
    FindLabelFirst(code, 5 + k, labels[2]);
  }

  /** A true left operand runs the right operand's code, and the phi takes its value. */
  lemma AndTrue(a: Operand, labels: seq<string>, right: seq<Instr>, vr: Operand, p: string,
                m: Machine, y: bool, fuel: nat)
    requires |labels| == 3 && labels[0] != labels[1] && labels[1] != labels[2] && labels[0] != labels[2]
    requires forall i :: 0 <= i < |right| ==> Straight(right[i])
    requires Eval(m, a) == Some(VBool(true))
    requires RunStraight(Enter(m, labels[0]), right).Some?
    requires Eval(RunStraight(Enter(m, labels[0]), right).value, vr) == Some(VBool(y))
    requires fuel >= |right| + 8
    ensures var out := Exec(AndCode(a, labels, right, vr, p, labels[0]), 0, m, fuel);
      out.Done? && p in out.m.regs && out.m.regs[p] == VBool(y)
  {
    var code := AndCode(a, labels, right, vr, p, labels[0]);
    var k := |right|;
    AndCodeIndices(a, labels, right, vr, p, labels[0]);
    AndCodeLabels(a, labels, right, vr, p, labels[0]);
    var m1 := Enter(m, labels[0]);
    var m2 := RunStraight(m1, right).value;
    RunStraightKeepsBlock(m1, right);
    ExecCondBr(code, 0, m, fuel, true, 1);
    ExecStraight(code, 2, right, m1, fuel - 2);
    var m3 := Enter(m2, labels[2]);
    ExecJump(code, 2 + k, m2, fuel - 2 - k, 5 + k);
    assert PhiPick([(vr, labels[0]), (a, labels[1])], m3.pred) == Some(vr);
    ExecPhi(code, 6 + k, m3, fuel - 4 - k, vr, VBool(y));
    var m4 := SetReg(m3, p, VBool(y));
    calc {
      Exec(code, 0, m, fuel);
      Exec(code, 2, m1, fuel - 2);
      Exec(code, 2 + k, m2, fuel - 2 - k);
      Exec(code, 6 + k, m3, fuel - 4 - k);
      Exec(code, 7 + k, m4, fuel - 5 - k);
      Done(m4);
    }
  }

  /** A false left operand skips the right operand's code; the phi takes the left value. */
  lemma AndFalse(a: Operand, labels: seq<string>, right: seq<Instr>, vr: Operand, p: string,
                 m: Machine, fuel: nat)
    requires |labels| == 3 && labels[0] != labels[1] && labels[1] != labels[2] && labels[0] != labels[2]
    requires forall i :: 0 <= i < |right| ==> Straight(right[i])
    requires Eval(m, a) == Some(VBool(false))
    requires fuel >= 8
    ensures var out := Exec(AndCode(a, labels, right, vr, p, labels[0]), 0, m, fuel);
      out.Done? && p in out.m.regs && out.m.regs[p] == VBool(false)
  {
    var code := AndCode(a, labels, right, vr, p, labels[0]);
    var k := |right|;
    AndCodeIndices(a, labels, right, vr, p, labels[0]);
    AndCodeLabels(a, labels, right, vr, p, labels[0]);
    var m1 := Enter(m, labels[1]);
    ExecCondBr(code, 0, m, fuel, false, 3 + k);
    var m2 := Enter(m1, labels[2]);
    ExecJump(code, 4 + k, m1, fuel - 2, 5 + k);
    assert PhiPick([(vr, labels[0]), (a, labels[1])], m2.pred) == Some(a);
    ExecPhi(code, 6 + k, m2, fuel - 4, a, VBool(false));
    var m3 := SetReg(m2, p, VBool(false));
    assert Exec(code, 7 + k, m3, fuel - 5) == Done(m3);
    assert Exec(code, 0, m, fuel) == Done(m3);
  }

  /** The right operand runs only when the left one is true, and the phi then
      yields `left && right`. */
  lemma AndValue(a: Operand, labels: seq<string>, right: seq<Instr>, vr: Operand, p: string,
                 m: Machine, x: bool, y: bool, fuel: nat)
    requires |labels| == 3 && labels[0] != labels[1] && labels[1] != labels[2] && labels[0] != labels[2]
    requires forall i :: 0 <= i < |right| ==> Straight(right[i])
    requires Eval(m, a) == Some(VBool(x))
    requires x ==> RunStraight(Enter(m, labels[0]), right).Some?
                   && Eval(RunStraight(Enter(m, labels[0]), right).value, vr) == Some(VBool(y))
    requires fuel >= |right| + 8
    ensures var out := Exec(AndCode(a, labels, right, vr, p, labels[0]), 0, m, fuel);
      out.Done? && p in out.m.regs && out.m.regs[p] == VBool(x && y)
  {
    if x {
      AndTrue(a, labels, right, vr, p, m, y, fuel);
    } else {
      AndFalse(a, labels, right, vr, p, m, fuel);
    }
  }

  // ---------------------------------------------------------------------------
  // A nested and: the phi label as written and as intended

  /** `true && (true && true)`: the expression whose right operand ends in a block
      other than the one it starts in. */
  const NestedAnd: Expr := And(BoolLit(true), Paren(And(BoolLit(true), BoolLit(true))))

  /** Six pairwise distinct labels: the outer tuple then the inner one. */
  predicate SixDistinct(outer: seq<string>, inner: seq<string>)
  {
    |outer| == 3 && |inner| == 3
    && outer[0] != outer[1] && outer[1] != outer[2] && outer[0] != outer[2]
    && inner[0] != inner[1] && inner[1] != inner[2] && inner[0] != inner[2]
    && (forall i, j :: 0 <= i < 3 && 0 <= j < 3 ==> outer[i] != inner[j])
  }

  /** The code of `true && (true && true)`, with the outer phi naming `from`. */
  function NestedAndCode(outer: seq<string>, inner: seq<string>, q: string, p: string, from: string): seq<Instr>
    requires |outer| == 3 && |inner| == 3
  {
    AndCode(Flag(true), outer, AndCode(Flag(true), inner, [], Flag(true), q, inner[0]), Reg(q), p, from)
  }

  /** The machine at the outer phi: through the outer true block, the inner true
      and end blocks, the inner phi, into the outer end block. */
  function AtOuterPhi(outer: seq<string>, inner: seq<string>, q: string, m: Machine): Machine
    requires |outer| == 3 && |inner| == 3
  {
    Enter(SetReg(Enter(Enter(Enter(m, outer[0]), inner[0]), inner[2]), q, VBool(true)), outer[2])
  }

  /** The nested code, instruction by instruction. */
  function NestedAndListing(outer: seq<string>, inner: seq<string>, q: string, p: string, from: string): seq<Instr>
    requires |outer| == 3 && |inner| == 3
  {
    [ CondBr(Flag(true), outer[0], outer[1]), Label(outer[0]),
      CondBr(Flag(true), inner[0], inner[1]), Label(inner[0]),
      Jump(inner[2]), Label(inner[1]), Jump(inner[2]), Label(inner[2]),
      Phi(q, "i1", [(Flag(true), inner[0]), (Flag(true), inner[1])]),
      Jump(outer[2]), Label(outer[1]), Jump(outer[2]), Label(outer[2]),
      Phi(p, "i1", [(Reg(q), from), (Flag(true), outer[1])]) ]
  }

  /** Each position of the nested listing. */
  lemma NestedAndAt(outer: seq<string>, inner: seq<string>, q: string, p: string, from: string)
    requires |outer| == 3 && |inner| == 3
    ensures var code := NestedAndListing(outer, inner, q, p, from);
      && |code| == 14
      && code[0] == CondBr(Flag(true), outer[0], outer[1]) && code[1] == Label(outer[0])
      && code[2] == CondBr(Flag(true), inner[0], inner[1]) && code[3] == Label(inner[0])
      && code[4] == Jump(inner[2]) && code[5] == Label(inner[1])
      && code[6] == Jump(inner[2]) && code[7] == Label(inner[2])
      && code[8] == Phi(q, "i1", [(Flag(true), inner[0]), (Flag(true), inner[1])])
      && code[9] == Jump(outer[2]) && code[10] == Label(outer[1])
      && code[11] == Jump(outer[2]) && code[12] == Label(outer[2])
      && code[13] == Phi(p, "i1", [(Reg(q), from), (Flag(true), outer[1])])
  {
    var code := NestedAndListing(outer, inner, q, p, from);
    var head := [ CondBr(Flag(true), outer[0], outer[1]), Label(outer[0]),
      CondBr(Flag(true), inner[0], inner[1]), Label(inner[0]),
      Jump(inner[2]), Label(inner[1]), Jump(inner[2]) ];
    var tail := [ Label(inner[2]),
      Phi(q, "i1", [(Flag(true), inner[0]), (Flag(true), inner[1])]),
      Jump(outer[2]), Label(outer[1]), Jump(outer[2]), Label(outer[2]),
      Phi(p, "i1", [(Reg(q), from), (Flag(true), outer[1])]) ];
    assert code == head + tail;
    assert forall i :: 0 <= i < 7 ==> code[i] == head[i];
    assert forall i :: 0 <= i < 7 ==> code[7 + i] == tail[i];
  }

  lemma NestedAndCodeListing(outer: seq<string>, inner: seq<string>, q: string, p: string, from: string)
    requires |outer| == 3 && |inner| == 3
    ensures NestedAndCode(outer, inner, q, p, from) == NestedAndListing(outer, inner, q, p, from)
  {
  }

  /** Where branches to the labels the nested code uses land. */
  lemma NestedAndLabels(outer: seq<string>, inner: seq<string>, q: string, p: string, from: string)
    requires SixDistinct(outer, inner)
    ensures var code := NestedAndListing(outer, inner, q, p, from);
      && FindLabel(code, outer[0]) == Some(1) && FindLabel(code, inner[0]) == Some(3)
      && FindLabel(code, inner[2]) == Some(7) && FindLabel(code, outer[2]) == Some(12)
  {
    NestedLabelTrue(outer, inner, q, p, from);
    NestedLabelInnerTrue(outer, inner, q, p, from);
    NestedLabelInnerEnd(outer, inner, q, p, from);
    NestedLabelEnd(outer, inner, q, p, from);
  }

  lemma NestedLabelTrue(outer: seq<string>, inner: seq<string>, q: string, p: string, from: string)
    requires SixDistinct(outer, inner)
    ensures FindLabel(NestedAndListing(outer, inner, q, p, from), outer[0]) == Some(1)
  {
    var code := NestedAndListing(outer, inner, q, p, from);
    NestedAndAt(outer, inner, q, p, from);
    assert forall i :: 0 <= i < 1 ==> code[i] != Label(outer[0]);
    FindLabelFirst(code, 1, outer[0]);
  }

  lemma NestedLabelInnerTrue(outer: seq<string>, inner: seq<string>, q: string, p: string, from: string)
    requires SixDistinct(outer, inner)
    ensures FindLabel(NestedAndListing(outer, inner, q, p, from), inner[0]) == Some(3)
  {
    var code := NestedAndListing(outer, inner, q, p, from);
    NestedAndAt(outer, inner, q, p, from);
    assert forall i :: 0 <= i < 3 ==> code[i] != Label(inner[0]);
    FindLabelFirst(code, 3, inner[0]);
  }

  lemma NestedLabelInnerEnd(outer: seq<string>, inner: seq<string>, q: string, p: string, from: string)
    requires SixDistinct(outer, inner)
    ensures FindLabel(NestedAndListing(outer, inner, q, p, from), inner[2]) == Some(7)
  {
    var code := NestedAndListing(outer, inner, q, p, from);
    NestedAndAt(outer, inner, q, p, from);
    assert forall i :: 0 <= i < 7 ==> code[i] != Label(inner[2]);
    FindLabelFirst(code, 7, inner[2]);
  }

  lemma NestedLabelEnd(outer: seq<string>, inner: seq<string>, q: string, p: string, from: string)
    requires SixDistinct(outer, inner)
    ensures FindLabel(NestedAndListing(outer, inner, q, p, from), outer[2]) == Some(12)
  {
    var code := NestedAndListing(outer, inner, q, p, from);
    NestedAndAt(outer, inner, q, p, from);
    assert forall i :: 0 <= i < 12 ==> code[i] != Label(outer[2]);
    FindLabelFirst(code, 12, outer[2]);
  }

  /** Running the nested code up to the outer phi: control arrives there from the
      inner end block, with the inner result in `q`. */
  lemma NestedAndReachesPhi(outer: seq<string>, inner: seq<string>, q: string, p: string, from: string, m: Machine)
    requires SixDistinct(outer, inner)
    ensures var code := NestedAndListing(outer, inner, q, p, from);
      && AtOuterPhi(outer, inner, q, m).pred == inner[2]
      && Exec(code, 0, m, 20) == Exec(code, 13, AtOuterPhi(outer, inner, q, m), 11)
  {
    var code := NestedAndListing(outer, inner, q, p, from);
    NestedAndAt(outer, inner, q, p, from);
    NestedAndLabels(outer, inner, q, p, from);
    NestedAndInnerRuns(code, outer, inner, q, m);
    NestedAndOuterRuns(code, outer, inner, q, Enter(Enter(Enter(m, outer[0]), inner[0]), inner[2]));
  }

  /** Both branches are taken true, and the inner jump lands at the inner phi. */
  lemma NestedAndInnerRuns(code: seq<Instr>, outer: seq<string>, inner: seq<string>, q: string, m: Machine)
    requires |outer| == 3 && |inner| == 3 && |code| == 14
    requires code[0] == CondBr(Flag(true), outer[0], outer[1]) && code[2] == CondBr(Flag(true), inner[0], inner[1])
    requires code[4] == Jump(inner[2])
    requires FindLabel(code, outer[0]) == Some(1) && FindLabel(code, inner[0]) == Some(3)
    requires FindLabel(code, inner[2]) == Some(7)
    ensures Exec(code, 0, m, 20) == Exec(code, 8, Enter(Enter(Enter(m, outer[0]), inner[0]), inner[2]), 14)
  {
    var m1 := Enter(m, outer[0]);
    ExecCondBr(code, 0, m, 20, true, 1);
    var m2 := Enter(m1, inner[0]);
    ExecCondBr(code, 2, m1, 18, true, 3);
    ExecJump(code, 4, m2, 16, 7);
  }

  /** From the inner phi, entered from the inner true block, to the outer phi. */
  lemma NestedAndOuterRuns(code: seq<Instr>, outer: seq<string>, inner: seq<string>, q: string, m3: Machine)
    requires |outer| == 3 && |inner| == 3 && |code| == 14 && inner[0] != inner[1]
    requires code[8] == Phi(q, "i1", [(Flag(true), inner[0]), (Flag(true), inner[1])])
    requires code[9] == Jump(outer[2]) && FindLabel(code, outer[2]) == Some(12)
    requires m3.pred == inner[0]
    ensures Exec(code, 8, m3, 14) == Exec(code, 13, Enter(SetReg(m3, q, VBool(true)), outer[2]), 11)
  {
    ExecPhi(code, 8, m3, 14, Flag(true), VBool(true));
    ExecJump(code, 9, SetReg(m3, q, VBool(true)), 13, 12);
  }

  /** As written, the outer phi lists the block the right operand starts in, but
      control reaches it from the inner end block: the phi has no operand for it. */
  lemma NestedAndAsWrittenStuck(outer: seq<string>, inner: seq<string>, q: string, p: string, m: Machine)
    requires SixDistinct(outer, inner)
    ensures Exec(NestedAndCode(outer, inner, q, p, outer[0]), 0, m, 20) == Stuck
  {
    var code := NestedAndListing(outer, inner, q, p, outer[0]);
    NestedAndCodeListing(outer, inner, q, p, outer[0]);
    NestedAndReachesPhi(outer, inner, q, p, outer[0], m);
    var m' := AtOuterPhi(outer, inner, q, m);
    assert code[13] == Phi(p, "i1", [(Reg(q), outer[0]), (Flag(true), outer[1])]);
    assert PhiPick(code[13].incoming, m'.pred).None?;
    ExecPhiStuck(code, 13, m', 11);
  }

  /** Naming the block the right operand's code ends in, the phi yields `true`. */
  lemma NestedAndCorrectedValue(outer: seq<string>, inner: seq<string>, q: string, p: string, m: Machine)
    requires SixDistinct(outer, inner)
    ensures var out := Exec(NestedAndCode(outer, inner, q, p, inner[2]), 0, m, 20);
      out.Done? && p in out.m.regs && out.m.regs[p] == VBool(true)
  {
    var code := NestedAndListing(outer, inner, q, p, inner[2]);
    NestedAndCodeListing(outer, inner, q, p, inner[2]);
    NestedAndReachesPhi(outer, inner, q, p, inner[2], m);
    var m' := AtOuterPhi(outer, inner, q, m);
    assert PhiPick([(Reg(q), inner[2]), (Flag(true), outer[1])], m'.pred) == Some(Reg(q));
    ExecPhi(code, 13, m', 11, Reg(q), VBool(true));
  }

  /** The two `and` tuples handed out one after the other are six distinct labels. */
  lemma AndTuplesDistinct(st: State)
    ensures SixDistinct(LabelTuple(st, 3), LabelTuple(NewLabel(st, "and").1, 3))
  {
    var outer := LabelTuple(st, 3);
    var inner := LabelTuple(NewLabel(st, "and").1, 3);
    var c := st.labelCounters[3];
    assert NewLabel(st, "and").1.labelCounters[3] == c + 1;
    forall i, j | 0 <= i < 3 && 0 <= j < 3
      ensures outer[i] != inner[j]
      ensures i != j ==> outer[i] != outer[j] && inner[i] != inner[j]
    {
      AndLabelsInjective(i, j, c, c + 1);
      AndLabelsInjective(i, j, c, c);
      AndLabelsInjective(i, j, c + 1, c + 1);
    }
  }

  /** An `and` label names its position and its counter. */
  lemma AndLabelsInjective(i: nat, j: nat, c1: nat, c2: nat)
    requires i < 3 && j < 3
    ensures LabelName(LabelBases[3][i], c1) == LabelName(LabelBases[3][j], c2) ==> i == j && c1 == c2
  {
    BasesDistinct(LabelId(3, i, c1), LabelId(3, j, c2));
    if LabelName(LabelBases[3][i], c1) == LabelName(LabelBases[3][j], c2) {
      LabelNameInjective(LabelBases[3][i], c1, LabelBases[3][j], c2);
    }
  }

  /** The generator emits exactly `NestedAndCode` for `true && (true && true)`,
      naming the inner end block in the outer phi only with `mergeFromEnd`. */
  lemma NestedAndGenerated(ctx: Ctx, g: Gen)
    ensures GenExpr(ctx, g, NestedAnd).Ok?
    ensures var r := GenExpr(ctx, g, NestedAnd).value;
      var outer := LabelTuple(g.st, 3);
      var inner := LabelTuple(NewLabel(g.st, "and").1, 3);
      var n := g.st.regCounter;
      && SixDistinct(outer, inner)
      && r.0 == Typed("i1", Reg(RegName(n + 1)))
      && Appended(g, r.1) == NestedAndCode(outer, inner, RegName(n), RegName(n + 1),
                                           if ctx.fixes.mergeFromEnd then inner[2] else outer[0])
  {
    NestedAndShape(ctx, g);
    assert GenExpr(ctx, g, NestedAnd) == GenAnd(ctx, g, NestedAnd);
  }

  /** `NestedAndGenerated`, for the `and` generator itself. */
  lemma NestedAndShape(ctx: Ctx, g: Gen)
    ensures GenAnd(ctx, g, NestedAnd).Ok?
    ensures var r := GenAnd(ctx, g, NestedAnd).value;
      var outer := LabelTuple(g.st, 3);
      var inner := LabelTuple(NewLabel(g.st, "and").1, 3);
      var n := g.st.regCounter;
      && SixDistinct(outer, inner)
      && r.0 == Typed("i1", Reg(RegName(n + 1)))
      && Appended(g, r.1) == NestedAndCode(outer, inner, RegName(n), RegName(n + 1),
                                           if ctx.fixes.mergeFromEnd then inner[2] else outer[0])
  {
    var e := NestedAnd;
    var outer := LabelTuple(g.st, 3);
    var n := g.st.regCounter;
    var g2 := Emit(Emit(NewLabels(g, "and").1, CondBr(Flag(true), outer[0], outer[1])), Label(outer[0]));
    NestedAndOk(ctx, g);
    AndTuplesDistinct(g.st);
    InnerAndGenerated(ctx, g2);
    GenAndShape(ctx, g, e);
    var vr := GenExpr(ctx, g2, e.right).value;
    var inner := LabelTuple(g2.st, 3);
    assert vr.1.st.regCounter == n + 1;
    assert AndMergeLabel(ctx, vr.1, outer) == if ctx.fixes.mergeFromEnd then inner[2] else outer[0];
    assert Appended(g, g) == [];
  }

  /** The outer `and` of `true && (true && true)` generates without a fault: its
      left operand is a constant and its right operand generates. */
  lemma NestedAndOk(ctx: Ctx, g: Gen)
    ensures var outer := LabelTuple(g.st, 3);
      var g2 := Emit(Emit(NewLabels(g, "and").1, CondBr(Flag(true), outer[0], outer[1])), Label(outer[0]));
      && GenExpr(ctx, g, NestedAnd.left) == Ok((Typed("i1", Flag(true)), g))
      && NewLabels(g, "and").0 == outer
      && g2.st == NewLabel(g.st, "and").1
      && GenAnd(ctx, g, NestedAnd).Ok?
  {
    var e := NestedAnd;
    var outer := LabelTuple(g.st, 3);
    assert KindIndex("and") == Some(3);
    var g2 := Emit(Emit(NewLabels(g, "and").1, CondBr(Flag(true), outer[0], outer[1])), Label(outer[0]));
    assert GenExpr(ctx, g, e.left) == Ok((Typed("i1", Flag(true)), g));
    InnerAndGenerated(ctx, g2);
    assert NewLabels(g, "and").0 == outer;
    assert GenExpr(ctx, g2, e.right).Ok?;
  }

  /** The inner `true && true`, generated after the outer branch into its true block. */
  lemma InnerAndGenerated(ctx: Ctx, g2: Gen)
    ensures var innerE := And(BoolLit(true), BoolLit(true));
      var inner := LabelTuple(g2.st, 3);
      var n := g2.st.regCounter;
      && GenExpr(ctx, g2, Paren(innerE)).Ok?
      && var vr := GenExpr(ctx, g2, Paren(innerE)).value;
      && vr.0 == Typed("i1", Reg(RegName(n)))
      && Appended(g2, vr.1) == AndCode(Flag(true), inner, [], Flag(true), RegName(n), inner[0])
      && vr.1.st.regCounter == n + 1
      && CurrentBlock(vr.1.code) == inner[2]
  {
    var innerE := And(BoolLit(true), BoolLit(true));
    var inner := LabelTuple(g2.st, 3);
    var n := g2.st.regCounter;
    assert GenExpr(ctx, g2, Paren(innerE)) == GenAnd(ctx, g2, innerE);
    AndOfLiterals(ctx, g2);
    var vr := GenAnd(ctx, g2, innerE).value;
    AndEndsInEndBlock(g2.code, Flag(true), inner, [], Flag(true), RegName(n), inner[0]);
  }

  /** `true && true` on its own: both operands are literals, so the right block is empty. */
  lemma AndOfLiterals(ctx: Ctx, g2: Gen)
    ensures var innerE := And(BoolLit(true), BoolLit(true));
      var inner := LabelTuple(g2.st, 3);
      var n := g2.st.regCounter;
      && GenAnd(ctx, g2, innerE).Ok?
      && var vr := GenAnd(ctx, g2, innerE).value;
      && vr.0 == Typed("i1", Reg(RegName(n)))
      && vr.1.code == g2.code + AndCode(Flag(true), inner, [], Flag(true), RegName(n), inner[0])
      && vr.1.st.regCounter == n + 1
  {
    var innerE := And(BoolLit(true), BoolLit(true));
    var inner := LabelTuple(g2.st, 3);
    var h2 := Emit(Emit(NewLabels(g2, "and").1, CondBr(Flag(true), inner[0], inner[1])), Label(inner[0]));
    assert GenExpr(ctx, g2, innerE.left) == Ok((Typed("i1", Flag(true)), g2));
    assert GenExpr(ctx, h2, innerE.right) == Ok((Typed("i1", Flag(true)), h2));
    assert AndMergeLabel(ctx, h2, inner) == inner[0];
    assert h2.code == g2.code + [CondBr(Flag(true), inner[0], inner[1]), Label(inner[0])];
  }

  /** The code of an `and` ends in its end block. */
  lemma AndEndsInEndBlock(pre: seq<Instr>, a: Operand, labels: seq<string>, right: seq<Instr>, vr: Operand, p: string, from: string)
    requires |labels| == 3
    ensures CurrentBlock(pre + AndCode(a, labels, right, vr, p, from)) == labels[2]
  {
    var c := pre + AndCode(a, labels, right, vr, p, from);
    assert c[|c| - 1].Phi?;
    assert c[..|c| - 1][|c| - 2] == Label(labels[2]);
  }

  /** As written, `true && (true && true)` gets stuck at its outer phi. */
  lemma AndPhiAsWritten(ctx: Ctx, g: Gen, m: Machine)
    requires !ctx.fixes.mergeFromEnd
    ensures GenExpr(ctx, g, NestedAnd).Ok?
    ensures Exec(Appended(g, GenExpr(ctx, g, NestedAnd).value.1), 0, m, 20) == Stuck
  {
    NestedAndGenerated(ctx, g);
    NestedAndAsWrittenStuck(LabelTuple(g.st, 3), LabelTuple(NewLabel(g.st, "and").1, 3),
      RegName(g.st.regCounter), RegName(g.st.regCounter + 1), m);
  }

  /** Naming the block the right operand ends in, it evaluates to `true`. */
  lemma AndPhiCorrected(ctx: Ctx, g: Gen, m: Machine)
    requires ctx.fixes.mergeFromEnd
    ensures GenExpr(ctx, g, NestedAnd).Ok?
    ensures var r := GenExpr(ctx, g, NestedAnd).value;
      var out := Exec(Appended(g, r.1), 0, m, 20);
      && r.0.op == Reg(RegName(g.st.regCounter + 1))
      && out.Done? && r.0.op.name in out.m.regs && out.m.regs[r.0.op.name] == VBool(true)
  {
    NestedAndGenerated(ctx, g);
    NestedAndCorrectedValue(LabelTuple(g.st, 3), LabelTuple(NewLabel(g.st, "and").1, 3),
      RegName(g.st.regCounter), RegName(g.st.regCounter + 1), m);
  }

  // ---------------------------------------------------------------------------
  // Message sends: dispatch through the vtable

  /** The first five instructions of a send, run: the pointer called is the
      vtable entry at the method's slot, read through the object's first word. */
  lemma SendDispatch(n: nat, slot: nat, castTy: string, retTy: string, operands: seq<Typed>,
                     m: Machine, ob: nat, oo: int, vb: nat, vo: int, f: Value)
    requires |operands| > 0
    requires Eval(m, operands[0].op) == Some(VPtr(ob, oo))
    requires ReadCell(m, ob, oo) == VPtr(vb, vo)
    requires ReadCell(m, vb, vo + 8 * slot) == f
    ensures var code := SendCode(n, slot, castTy, retTy, operands);
      && RunStraight(m, code[..5]).Some?
      && Eval(RunStraight(m, code[..5]).value, Reg(RegName(n + 4))) == Some(f)
      && code[5] == Call(Some(RegName(n + 5)), retTy, Pointer(Reg(RegName(n + 4))), operands)
  {
    var code := SendCode(n, slot, castTy, retTy, operands);
    var m1 := SetReg(m, RegName(n), VPtr(ob, oo));
    var m2 := SetReg(m1, RegName(n + 1), VPtr(vb, vo));
    var m3 := SetReg(m2, RegName(n + 2), VPtr(vb, vo + 8 * slot));
    var m4 := SetReg(m3, RegName(n + 3), f);
    var m5 := SetReg(m4, RegName(n + 4), f);
    RegNameInjective(n, n + 1);
    RegNameInjective(n + 1, n + 2);
    RegNameInjective(n + 2, n + 3);
    RegNameInjective(n + 3, n + 4);
    StepBitcast(m, RegName(n), operands[0].ty, operands[0].op, "i8***", VPtr(ob, oo));
    StepLoad(m1, RegName(n + 1), "i8**", Reg(RegName(n)), ob, oo);
    StepGep(m2, RegName(n + 2), "i8*", Reg(RegName(n + 1)), Const(slot), vb, vo, slot);
    StepLoad(m3, RegName(n + 3), "i8*", Reg(RegName(n + 2)), vb, vo + 8 * slot);
    StepBitcast(m4, RegName(n + 4), "i8*", Reg(RegName(n + 3)), castTy, f);
    var c := code[..5];
    assert c == [ Bitcast(RegName(n), operands[0].ty, operands[0].op, "i8***"),
                  Load(RegName(n + 1), "i8**", Reg(RegName(n))),
                  Gep(RegName(n + 2), "i8*", Reg(RegName(n + 1)), [Const(slot)]),
                  Load(RegName(n + 3), "i8*", Reg(RegName(n + 2))),
                  Bitcast(RegName(n + 4), "i8*", Reg(RegName(n + 3)), castTy) ];
    RunFive(m, m1, m2, m3, m4, m5, c[0], c[1], c[2], c[3], c[4]);
  }

  /** A send's receiver is an `i8*` and its arguments have the LLVM types of the
      callee's recorded parameters; every operand renders as two words. */
  predicate CallMatches(t: Target, md: MethodInfo, operands: seq<Typed>)
  {
    && |operands| >= 1 && operands[0].ty == "i8*"
    && (forall i :: 0 <= i < |operands| ==> Word(operands[i].ty) && Word(ValueText(operands[i].op)))
    && (md.arguments.None? ==> |operands| == 1)
    && (md.arguments.Some? ==>
         && |md.arguments.value| == |operands| - 1
         && forall i :: 0 <= i < |md.arguments.value| ==> operands[i + 1].ty == LlvmType(t, md.arguments.value[i].0))
  }

  /** For a well-typed call, the pointer type a send casts the vtable entry to is
      the function type `declareMethods` gave that entry. */
  lemma CastMatchesEntry(t: Target, md: MethodInfo, name: string, operands: seq<Typed>)
    requires CallMatches(t, md, operands)
    ensures CastType(t, md, operands) == LlvmType(t, md.returnType) + ArgList(t, md.arguments, false)
    ensures VTableEntry(t, name, md) == "i8* bitcast (" + CastType(t, md, operands) + " @" + md.className + "." + name + " to i8*)"
  {
    RenderedCall(t, md, operands);
    var sig := CallSignature(Rendered(operands));
    var fs := FilterSignature(sig, OperandText(Render(operands[0])));
    assert fs == FilterSignature(sig, "");
    Concat4(LlvmType(t, md.returnType), " ", fs, "*");
    var ct := CastType(t, md, operands);
    Concat3("i8* bitcast (", LlvmType(t, md.returnType), ArgList(t, md.arguments, false));
    assert "i8* bitcast (" + ct == "i8* bitcast (" + LlvmType(t, md.returnType) + ArgList(t, md.arguments, false);
  }

  lemma Concat3(a: string, b: string, c: string)
    ensures a + (b + c) == a + b + c
  {
  }

  lemma Concat4(a: string, b: string, c: string, d: string)
    ensures a + b + c + d == a + (b + c + d)
  {
  }

  /** The rendered operands of a well-typed call meet what `CallCastMatchesVTable` asks. */
  lemma RenderedCall(t: Target, md: MethodInfo, operands: seq<Typed>)
    requires CallMatches(t, md, operands)
    ensures " " + FilterSignature(CallSignature(Rendered(operands)), "") + "*" == ArgList(t, md.arguments, false)
  {
    var ops := Rendered(operands);
    assert forall i :: 0 <= i < |ops| ==> ops[i] == (operands[i].ty, ValueText(operands[i].op));
    assert forall i :: 0 <= i < |ops| ==> Word(ops[i].0) && Word(ops[i].1);
    CallCastMatchesVTable(t, md.arguments, ops);
  }

  /** Each message send takes the receiver class from the queue, indexes that
      class's vtable at the method's slot, and casts the entry found there to its
      own declared type: the entry at that slot is the method's, named after the
      class that defines it. */
  lemma SendUsesVTableEntry(ctx: Ctx, g: Gen, name: string, operands: seq<Typed>)
    requires PopReceiver(ctx, g, name).Ok?
    requires WellFormedLayout(Get(ctx.classes, g.queue[0].value).value)
    requires CallMatches(ctx.t, PopReceiver(ctx, g, name).value.0, operands)
    ensures var c := g.queue[0].value;
      var methods := Get(ctx.classes, c).value.methods;
      var md := PopReceiver(ctx, g, name).value.0;
      var r := EmitSend(ctx.t, PopReceiver(ctx, g, name).value.1, md, operands);
      && r.1.code[|g.code| + 2] == Gep(RegName(g.st.regCounter + 2), "i8*", Reg(RegName(g.st.regCounter + 1)), [Const(md.slot)])
      && md.slot < |VTableEntries(ctx.t, methods)|
      && VTableEntries(ctx.t, methods)[md.slot]
           == "i8* bitcast (" + CastType(ctx.t, md, operands) + " @" + md.className + "." + name + " to i8*)"
      && r.0.ty == LlvmType(ctx.t, md.returnType)
      && r.1.queue == g.queue[1..]
  {
    var c := g.queue[0].value;
    var methods := Get(ctx.classes, c).value.methods;
    var (md, g1) := PopReceiver(ctx, g, name).value;
    assert g1.code == g.code && g1.st == g.st;
    SendIndexesSlot(ctx.t, g1, md, operands);
    VTableSlotEntry(ctx.t, methods, name);
    CastMatchesEntry(ctx.t, md, name, operands);
  }

  /** The third instruction of a send indexes the loaded vtable at the method's slot. */
  lemma SendIndexesSlot(t: Target, g: Gen, md: MethodInfo, operands: seq<Typed>)
    requires |operands| > 0
    ensures EmitSend(t, g, md, operands).1.code[|g.code| + 2]
            == Gep(RegName(g.st.regCounter + 2), "i8*", Reg(RegName(g.st.regCounter + 1)), [Const(md.slot)])
  {
    var code := SendCode(g.st.regCounter, md.slot, CastType(t, md, operands), LlvmType(t, md.returnType), operands);
    assert EmitSend(t, g, md, operands).1.code[|g.code| + 2] == code[2];
  }

  /** The global an allocated object's vtable pointer is taken from is the one
      `declareVTable` declares for the class, with the same array type. */
  lemma ObjectVTableDeclared(ctx: Ctx, g: Gen, c: string, init: string)
    requires NewObject(ctx, g, c).Ok?
    ensures var data := Get(ctx.classes, c).value;
      var gep := NewObject(ctx, g, c).value.1.code[|g.code| + 2];
      var decl := VTableDecl(c, |data.methods|, init);
      && gep.Gep? && gep.ptr == Global(VTableName(c)) && gep.elemTy == TableType(decl.slots)
      && VTableLine(decl) == VTableName(c) + " = global " + TableType(decl.slots) + " [" + init + "]"
  {
    var data := Get(ctx.classes, c).value;
    var code := ObjectCode(g.st.regCounter, c, ctx.t.instanceSize(data), |data.methods|);
    var out := NewObject(ctx, g, c).value.1.code;
    assert out == g.code + code;
    assert out[|g.code| + 2] == code[2];
    VTableLineSplit(VTableDecl(c, |data.methods|, init));
  }

  /** A vtable line is the global's name, its array type and its initialiser. */
  lemma VTableLineSplit(d: VTableDecl)
    ensures VTableLine(d) == VTableName(d.className) + " = global " + TableType(d.slots) + " [" + d.init + "]"
  {
    assert "_vtable = global [" == "_vtable" + " = global " + "[";
  }

  // ---------------------------------------------------------------------------
  // Method prologue and print

  /** `LastBinding` finds the last declaration of `x`, and nothing when there is none. */
  lemma {:induction false} LastBindingFinds(binds: seq<(string, string)>, x: string)
    ensures LastBinding(binds, x).None? <==> forall i :: 0 <= i < |binds| ==> binds[i].0 != x
    ensures LastBinding(binds, x).Some? ==>
      exists i :: 0 <= i < |binds| && binds[i] == (x, LastBinding(binds, x).value)
                  && forall j :: i < j < |binds| ==> binds[j].0 != x
    decreases |binds|
  {
    if |binds| > 0 {
      var init := binds[..|binds| - 1];
      LastBindingFinds(init, x);
      assert forall i :: 0 <= i < |init| ==> init[i] == binds[i];
      if binds[|binds| - 1].0 != x && LastBinding(init, x).Some? {
        var i :| 0 <= i < |init| && init[i] == (x, LastBinding(init, x).value)
                 && forall j :: i < j < |init| ==> init[j].0 != x;
        assert binds[i] == (x, LastBinding(binds, x).value);
      }
    }
  }

  /** After the prologue, a local resolves to its own slot, a parameter not
      shadowed by a local to its slot, and any other name as before. */
  lemma PrologueResolves(ctx: Ctx, g: Gen, params: seq<Param>, locals: seq<VarDecl>, x: string)
    ensures var g2 := DeclareSlots(DeclareSlots(g, ParamBinds(ctx.t, params), true), LocalBinds(ctx.t, locals), false);
      var fromLocals := LastBinding(LocalBinds(ctx.t, locals), x);
      var fromParams := LastBinding(ParamBinds(ctx.t, params), x);
      && (fromLocals.Some? ==> GetIdAddress(ctx, g2, x) == Ok((Typed(fromLocals.value + "*", Reg("%" + x)), g2)))
      && (fromLocals.None? && fromParams.Some? ==>
            GetIdAddress(ctx, g2, x) == Ok((Typed(fromParams.value + "*", Reg("%" + x)), g2)))
      && (fromLocals.None? && fromParams.None? ==> GetIdInfo(g2.st, x) == GetIdInfo(g.st, x))
  {
  }

  /** A print statement calls `print_bool` for a boolean value and `print_int`
      otherwise, with the value as its one argument. */
  lemma PrintDispatch(ctx: Ctx, g: Gen, v: Expr)
    requires GenStmt(ctx, g, Print(v)).Ok?
    ensures var val := GenExpr(ctx, g, v).value.0;
      var code := GenStmt(ctx, g, Print(v)).value.code;
      && code[|code| - 1].Call?
      && code[|code| - 1].callee == Named(if val.ty == "i1" then "print_bool" else "print_int")
      && code[|code| - 1].args == [val]
      && code[|code| - 1].result.None?
  {
  }
}
