/** The per-method emission context of the code generator (src/State.java):
    a virtual-register counter, the identifier -> (register, LLVM type) table,
    and four label generators, one per construct kind, each with its own counter.
    Every operation is a pure function from the old state to the new one. */
module EmissionState {
  import opened Options
  import opened Strings

  datatype IdInfo = IdInfo(register: string, llvmType: string)

  /** One counter per label kind, indexed like `labelTypes`. */
  type Counters = s: seq<nat> | |s| == 4 witness [0, 0, 0, 0]

  datatype State = State(ids: map<string, IdInfo>, regCounter: nat, labelCounters: Counters)

  /** The name of virtual register `n`. */
  function RegName(n: nat): string
  {
    "%_" + NatToString(n)
  }

  lemma RegNameInjective(a: nat, b: nat)
    ensures RegName(a) == RegName(b) <==> a == b
  {
    if RegName(a) == RegName(b) {
      assert NatToString(a) == RegName(a)[2..];
      assert NatToString(b) == RegName(b)[2..];
      NatToStringInjective(a, b);
    }
  }

  /** The keys of `labelTypes`, at their codes 0..3. */
  const LabelKinds: seq<string> := ["if", "while", "oob", "and"]

  /** The base names each kind's generator is built with. */
  const LabelBases: seq<seq<string>> :=
    [["if", "else", "fi"], ["while", "do", "done"], ["outOfBounds", "withinBounds"], ["true", "false", "end"]]

  /** `labelTypes.get(kind)`. */
  function KindIndex(kind: string): (r: Option<nat>)
    ensures r.Some? ==> r.value < 4 && LabelKinds[r.value] == kind
    ensures r.None? <==> kind !in LabelKinds
  {
    if kind == "if" then Some(0)
    else if kind == "while" then Some(1)
    else if kind == "oob" then Some(2)
    else if kind == "and" then Some(3)
    else None
  }

  /** A base name suffixed with `"_" + counter`. */
  function LabelName(base: string, counter: nat): string
  {
    base + "_" + NatToString(counter)
  }

  /** Which label: its kind, its position in that kind's tuple, its counter. */
  datatype LabelId = LabelId(kind: nat, position: nat, counter: nat)

  predicate ValidLabelId(l: LabelId)
  {
    l.kind < 4 && l.position < |LabelBases[l.kind]|
  }

  function LabelText(l: LabelId): string
    requires ValidLabelId(l)
  {
    LabelName(LabelBases[l.kind][l.position], l.counter)
  }

  /** `new State()`. */
  function Init(): (s: State)
    ensures s.ids == map[] && s.regCounter == 0
    ensures forall k :: 0 <= k < 4 ==> s.labelCounters[k] == 0
  {
    State(map[], 0, [0, 0, 0, 0])
  }

  /** `newReg()`: the register named after the counter, and the counter moved on by one. */
  function NewReg(s: State): (r: (string, State))
    ensures r.0 == RegName(s.regCounter)
    ensures r.1.regCounter == s.regCounter + 1
    ensures r.1.ids == s.ids && r.1.labelCounters == s.labelCounters
  {
    (RegName(s.regCounter), s.(regCounter := s.regCounter + 1))
  }

  /** `newReg(id, llvmType)`: binds `id` to the very register it hands out. */
  function NewRegFor(s: State, id: string, llvmType: string): (r: (string, State))
    ensures r.0 == RegName(s.regCounter)
    ensures id in r.1.ids && r.1.ids[id] == IdInfo(r.0, llvmType)
    ensures forall other :: other != id ==> GetIdInfo(r.1, other) == GetIdInfo(s, other)
    ensures r.1.regCounter == s.regCounter + 1 && r.1.labelCounters == s.labelCounters
  {
    NewReg(Put(s, id, RegName(s.regCounter), llvmType))
  }

  /** `put(id, register, llvmType)`. */
  function Put(s: State, id: string, register: string, llvmType: string): (r: State)
    ensures GetIdInfo(r, id) == Some(IdInfo(register, llvmType))
    ensures forall other :: other != id ==> GetIdInfo(r, other) == GetIdInfo(s, other)
    ensures r.regCounter == s.regCounter && r.labelCounters == s.labelCounters
  {
    s.(ids := s.ids[id := IdInfo(register, llvmType)])
  }

  /** `getIdInfo(id)`: None where Java answers null. */
  function GetIdInfo(s: State, id: string): (r: Option<IdInfo>)
    ensures r.None? <==> id !in s.ids
  {
    if id in s.ids then Some(s.ids[id]) else None
  }

  /** `getRegCounter()`. */
  function GetRegCounter(s: State): nat
  {
    s.regCounter
  }

  /** `Statement.getLabels()` of kind `k`: every base name suffixed with the current count. */
  function LabelTuple(s: State, k: nat): (r: seq<string>)
    requires k < 4
    ensures |r| == |LabelBases[k]|
    ensures forall j :: 0 <= j < |r| ==> r[j] == LabelText(LabelId(k, j, s.labelCounters[k]))
  {
    seq(|LabelBases[k]|, j requires 0 <= j < |LabelBases[k]| => LabelName(LabelBases[k][j], s.labelCounters[k]))
  }

  /** `newLabel(kind)`: an unknown kind yields None and leaves the state alone; a known
      kind yields its tuple and advances only its own counter. */
  function NewLabel(s: State, kind: string): (r: (Option<seq<string>>, State))
    ensures KindIndex(kind).None? ==> r == (None, s)
    ensures KindIndex(kind).Some? ==>
      var k := KindIndex(kind).value;
      && r.0 == Some(LabelTuple(s, k))
      && r.1.labelCounters[k] == s.labelCounters[k] + 1
      && (forall k' :: 0 <= k' < 4 && k' != k ==> r.1.labelCounters[k'] == s.labelCounters[k'])
      && r.1.ids == s.ids && r.1.regCounter == s.regCounter
  {
    match KindIndex(kind)
    case None => (None, s)
    case Some(k) =>
      var c := s.labelCounters[k];
      (Some(LabelTuple(s, k)), s.(labelCounters := s.labelCounters[k := c + 1]))
  }

  /** `clear()`. */
  function Clear(s: State): (r: State)
    ensures r.ids == map[] && r.regCounter == 0
    ensures forall k :: 0 <= k < 4 ==> r.labelCounters[k] == 0
  {
    Init()
  }

  /** The tuple of every kind has the fixed shape of its constructor arguments. */
  lemma LabelShapes(s: State)
    ensures NewLabel(s, "if").0 == Some([
      LabelName("if", s.labelCounters[0]),
      LabelName("else", s.labelCounters[0]),
      LabelName("fi", s.labelCounters[0])])
    ensures NewLabel(s, "while").0 == Some([
      LabelName("while", s.labelCounters[1]),
      LabelName("do", s.labelCounters[1]),
      LabelName("done", s.labelCounters[1])])
    ensures NewLabel(s, "oob").0 == Some([
      LabelName("outOfBounds", s.labelCounters[2]),
      LabelName("withinBounds", s.labelCounters[2])])
    ensures NewLabel(s, "and").0 == Some([
      LabelName("true", s.labelCounters[3]),
      LabelName("false", s.labelCounters[3]),
      LabelName("end", s.labelCounters[3])])
  {
    var t0, t1, t2, t3 := LabelTuple(s, 0), LabelTuple(s, 1), LabelTuple(s, 2), LabelTuple(s, 3);
    assert t0[0] == LabelText(LabelId(0, 0, s.labelCounters[0]));
    assert t0[1] == LabelText(LabelId(0, 1, s.labelCounters[0]));
    assert t0[2] == LabelText(LabelId(0, 2, s.labelCounters[0]));
    assert t1[0] == LabelText(LabelId(1, 0, s.labelCounters[1]));
    assert t1[1] == LabelText(LabelId(1, 1, s.labelCounters[1]));
    assert t1[2] == LabelText(LabelId(1, 2, s.labelCounters[1]));
    assert t2[0] == LabelText(LabelId(2, 0, s.labelCounters[2]));
    assert t2[1] == LabelText(LabelId(2, 1, s.labelCounters[2]));
    assert t3[0] == LabelText(LabelId(3, 0, s.labelCounters[3]));
    assert t3[1] == LabelText(LabelId(3, 1, s.labelCounters[3]));
    assert t3[2] == LabelText(LabelId(3, 2, s.labelCounters[3]));
    assert KindIndex("if") == Some(0) && KindIndex("while") == Some(1);
    assert KindIndex("oob") == Some(2) && KindIndex("and") == Some(3);
    assert |t0| == 3 && |t1| == 3 && |t2| == 2 && |t3| == 3;
    assert NewLabel(s, "if").0 == Some(t0);
    assert t0 == [LabelName("if", s.labelCounters[0]), LabelName("else", s.labelCounters[0]), LabelName("fi", s.labelCounters[0])];
    assert NewLabel(s, "while").0 == Some(t1);
    assert t1 == [LabelName("while", s.labelCounters[1]), LabelName("do", s.labelCounters[1]), LabelName("done", s.labelCounters[1])];
    assert NewLabel(s, "oob").0 == Some(t2);
    assert t2 == [LabelName("outOfBounds", s.labelCounters[2]), LabelName("withinBounds", s.labelCounters[2])];
    assert NewLabel(s, "and").0 == Some(t3);
    assert t3 == [LabelName("true", s.labelCounters[3]), LabelName("false", s.labelCounters[3]), LabelName("end", s.labelCounters[3])];
  }

  // ---------------------------------------------------------------------------
  // Traces: what a sequence of requests hands out between two `clear()` calls.

  datatype Request =
    | FreshReg
    | FreshRegFor(id: string, llvmType: string)
    | Bind(id: string, register: string, llvmType: string)
    | Labels(kind: string)
    | Reset

  predicate NoReset(reqs: seq<Request>)
  {
    forall i :: 0 <= i < |reqs| ==> !reqs[i].Reset?
  }

  /** Registers and labels handed out by a run, the labels also by identity. */
  datatype Trace = Trace(regs: seq<string>, labels: seq<string>, labelIds: seq<LabelId>, final: State)

  function Serve(s: State, req: Request): Trace
  {
    match req
    case FreshReg => var (r, s') := NewReg(s); Trace([r], [], [], s')
    case FreshRegFor(id, t) => var (r, s') := NewRegFor(s, id, t); Trace([r], [], [], s')
    case Bind(id, reg, t) => Trace([], [], [], Put(s, id, reg, t))
    case Labels(kind) =>
      var (ls, s') := NewLabel(s, kind);
      if ls.None? then Trace([], [], [], s')
      else
        var k := KindIndex(kind).value;
        Trace([], ls.value, seq(|ls.value|, j requires 0 <= j < |ls.value| => LabelId(k, j, s.labelCounters[k])), s')
    case Reset => Trace([], [], [], Clear(s))
  }

  function Run(s: State, reqs: seq<Request>): (t: Trace)
    decreases |reqs|
  {
    if |reqs| == 0 then Trace([], [], [], s)
    else
      var head := Serve(s, reqs[0]);
      var rest := Run(head.final, reqs[1..]);
      Trace(head.regs + rest.regs, head.labels + rest.labels, head.labelIds + rest.labelIds, rest.final)
  }

  /** Without a `clear()`, registers are handed out consecutively from the counter's
      starting value, and the counter ends up advanced by exactly how many were handed out. */
  lemma {:induction false} RegistersConsecutive(s: State, reqs: seq<Request>)
    requires NoReset(reqs)
    ensures Run(s, reqs).final.regCounter == s.regCounter + |Run(s, reqs).regs|
    ensures forall i :: 0 <= i < |Run(s, reqs).regs| ==> Run(s, reqs).regs[i] == RegName(s.regCounter + i)
    decreases |reqs|
  {
    if |reqs| > 0 {
      var head := Serve(s, reqs[0]);
      assert NoReset(reqs[1..]) by {
        forall i | 0 <= i < |reqs[1..]| ensures !reqs[1..][i].Reset? { assert reqs[1..][i] == reqs[i + 1]; }
      }
      RegistersConsecutive(head.final, reqs[1..]);
      assert head.final.regCounter == s.regCounter + |head.regs|;
      assert forall i :: 0 <= i < |head.regs| ==> head.regs[i] == RegName(s.regCounter + i);
    }
  }

  /** From a fresh or cleared state, the registers handed out are `%_0 .. %_(n-1)`,
      pairwise distinct, and `getRegCounter()` is their number. */
  lemma RegistersFromZero(s: State, reqs: seq<Request>)
    requires s.regCounter == 0
    requires NoReset(reqs)
    ensures GetRegCounter(Run(s, reqs).final) == |Run(s, reqs).regs|
    ensures forall i :: 0 <= i < |Run(s, reqs).regs| ==> Run(s, reqs).regs[i] == RegName(i)
    ensures forall i, j :: 0 <= i < j < |Run(s, reqs).regs| ==> Run(s, reqs).regs[i] != Run(s, reqs).regs[j]
  {
    RegistersConsecutive(s, reqs);
    var regs := Run(s, reqs).regs;
    forall i, j | 0 <= i < j < |regs| ensures regs[i] != regs[j] {
      RegNameInjective(i, j);
    }
  }

  /** Every label is the text of its identity; identities have valid kinds and
      positions and counters no lower than their kind's counter at the start. */
  lemma {:induction false} LabelIdsFresh(s: State, reqs: seq<Request>)
    requires NoReset(reqs)
    ensures |Run(s, reqs).labels| == |Run(s, reqs).labelIds|
    ensures forall i :: 0 <= i < |Run(s, reqs).labelIds| ==>
      var l := Run(s, reqs).labelIds[i];
      ValidLabelId(l) && l.counter >= s.labelCounters[l.kind] && Run(s, reqs).labels[i] == LabelText(l)
    ensures forall i, j :: 0 <= i < j < |Run(s, reqs).labelIds| ==> Run(s, reqs).labelIds[i] != Run(s, reqs).labelIds[j]
    decreases |reqs|
  {
    if |reqs| > 0 {
      var head := Serve(s, reqs[0]);
      assert NoReset(reqs[1..]) by {
        forall i | 0 <= i < |reqs[1..]| ensures !reqs[1..][i].Reset? { assert reqs[1..][i] == reqs[i + 1]; }
      }
      LabelIdsFresh(head.final, reqs[1..]);
      ServeLabels(s, reqs[0]);
      var rest := Run(head.final, reqs[1..]);
      var ids := head.labelIds + rest.labelIds;
      forall i, j | 0 <= i < j < |ids| ensures ids[i] != ids[j] {
        if j >= |head.labelIds| && i < |head.labelIds| {
          var l, l' := ids[i], ids[j];
          assert l' == rest.labelIds[j - |head.labelIds|];
          if l.kind == l'.kind {
            assert l'.counter >= head.final.labelCounters[l.kind];
          }
        } else if i >= |head.labelIds| {
          assert ids[i] == rest.labelIds[i - |head.labelIds|];
          assert ids[j] == rest.labelIds[j - |head.labelIds|];
        }
      }
    }
  }

  /** One request other than `clear()`: its labels are the texts of valid identities
      at the kind's current counter, which it advances, leaving the others as they were. */
  lemma ServeLabels(s: State, req: Request)
    requires !req.Reset?
    ensures var h := Serve(s, req);
      && |h.labels| == |h.labelIds|
      && (forall k :: 0 <= k < 4 ==> h.final.labelCounters[k] >= s.labelCounters[k])
      && (forall i :: 0 <= i < |h.labelIds| ==>
            && ValidLabelId(h.labelIds[i])
            && h.labelIds[i].counter == s.labelCounters[h.labelIds[i].kind]
            && h.final.labelCounters[h.labelIds[i].kind] == s.labelCounters[h.labelIds[i].kind] + 1
            && h.labels[i] == LabelText(h.labelIds[i]))
      && (forall i, j :: 0 <= i < j < |h.labelIds| ==> h.labelIds[i] != h.labelIds[j])
  {
  }

  /** No base name contains `'_'`, and distinct (kind, position) pairs name distinct bases. */
  lemma BasesDistinct(a: LabelId, b: LabelId)
    requires ValidLabelId(a) && ValidLabelId(b)
    ensures '_' !in LabelBases[a.kind][a.position]
    ensures LabelBases[a.kind][a.position] == LabelBases[b.kind][b.position] ==>
      a.kind == b.kind && a.position == b.position
  {
  }

  /** The first `'_'` of a label sits right after its base name. */
  lemma UnderscoreAfterBase(b: string, c: nat)
    requires '_' !in b
    ensures IndexOf(LabelName(b, c), '_') == Some(|b|)
    ensures LabelName(b, c)[..|b|] == b
    ensures LabelName(b, c)[|b| + 1..] == NatToString(c)
  {
    var s := LabelName(b, c);
    assert s[..|b|] == b;
    assert s[|b|] == '_';
    var r := IndexOf(s, '_');
    assert r.Some?;
    assert r.value == |b|;
  }

  lemma LabelNameInjective(b1: string, c1: nat, b2: string, c2: nat)
    requires '_' !in b1 && '_' !in b2
    requires LabelName(b1, c1) == LabelName(b2, c2)
    ensures b1 == b2 && c1 == c2
  {
    UnderscoreAfterBase(b1, c1);
    UnderscoreAfterBase(b2, c2);
    NatToStringInjective(c1, c2);
  }

  /** All labels handed out between two `clear()` calls are pairwise distinct. */
  lemma LabelsDistinct(s: State, reqs: seq<Request>)
    requires NoReset(reqs)
    ensures forall i, j :: 0 <= i < j < |Run(s, reqs).labels| ==> Run(s, reqs).labels[i] != Run(s, reqs).labels[j]
  {
    LabelIdsFresh(s, reqs);
    var t := Run(s, reqs);
    forall i, j | 0 <= i < j < |t.labels| ensures t.labels[i] != t.labels[j] {
      var a, b := t.labelIds[i], t.labelIds[j];
      BasesDistinct(a, b);
      BasesDistinct(b, a);
      if t.labels[i] == t.labels[j] {
        LabelNameInjective(LabelBases[a.kind][a.position], a.counter, LabelBases[b.kind][b.position], b.counter);
      }
    }
  }
}
