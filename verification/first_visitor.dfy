/** The first pass (src/FirstVisitor.java): it lays out every class (field byte
    offsets after the vtable pointer, vtable slots for methods), keeps a
    name -> type table for the variables it has seen, and records, for every
    message send in traversal order, the static class of its receiver. Each
    visit is a pure step from one `Builder` to the next. */
module SymbolTable {
  import opened Options
  import opened Strings
  import opened OrderedMap
  import opened Layout
  import opened Syntax
  import opened Signatures

  /** The visitor's fields: the class table, the variable-type table, the
      message queue (None where Java enqueues null), the next field offset,
      the next vtable slot and the class being visited. */
  datatype Builder = Builder(
    classes: OMap<ClassLayout>,
    vars: OMap<string>,
    queue: seq<Option<string>>,
    nextVar: int,
    nextMethod: nat,
    className: string)

  /** Where Java would dereference a missing parent's class data. */
  datatype Fault = UnknownParent(className: string, parent: string)

  /** The constructor: empty tables, offsets after the vtable pointer, slot 0. */
  function Start(t: Target): Builder
  {
    Builder([], [], [], t.pointerSize, 0, "")
  }

  /** Everything but the variable-type table and the queue is as in `b`. */
  predicate SameLayoutState(b: Builder, b': Builder)
  {
    b'.classes == b.classes && b'.nextVar == b.nextVar && b'.nextMethod == b.nextMethod
    && b'.className == b.className
  }

  // ---------------------------------------------------------------------------
  // Class headers

  /** A root class: a fresh layout, fields from `pointerSize`, slots from 0. */
  function EnterClass(t: Target, b: Builder, id: string): (r: (Builder, ClassLayout))
    ensures r.1 == EmptyLayout(None) && WellFormedLayout(r.1)
    ensures r.0.nextVar == t.pointerSize && r.0.nextMethod == 0 && r.0.className == id
    ensures r.0.classes == b.classes && r.0.vars == b.vars && r.0.queue == b.queue
  {
    (b.(className := id, nextVar := t.pointerSize, nextMethod := 0), EmptyLayout(None))
  }

  /** A derived class: a copy of the parent's fields and methods, fields continuing
      at the parent's next offset and slots at the parent's method count. A parent
      that is not yet in the class table is a fault. */
  function EnterDerivedClass(t: Target, b: Builder, id: string, parent: string): (r: Result<(Builder, ClassLayout), Fault>)
    ensures r.Err? <==> parent !in Keys(b.classes)
    ensures r.Ok? ==> r.value.0.className == id && r.value.0.classes == b.classes
    ensures r.Ok? ==> r.value.0.vars == b.vars && r.value.0.queue == b.queue
    ensures r.Ok? ==> r.value.1.parent == Some(parent)
    ensures r.Ok? ==> r.value.0.nextVar == t.offsetOfNextVar(Get(b.classes, parent).value)
    ensures r.Ok? && WellFormedLayout(Get(b.classes, parent).value) ==>
      var p := Get(b.classes, parent).value;
      r.value.1.vars == p.vars && r.value.1.methods == p.methods
      && r.value.0.nextMethod == |p.methods| && WellFormedLayout(r.value.1)
  {
    match Get(b.classes, parent)
    case None => Err(UnknownParent(id, parent))
    case Some(p) =>
      var cd := ClassLayout(Some(parent), PutAll([], p.vars), PutAll([], p.methods));
      CopyOfWellFormed(p);
      Ok((b.(className := id, nextVar := t.offsetOfNextVar(p), nextMethod := |cd.methods|), cd))
  }

  lemma CopyOfWellFormed(p: ClassLayout)
    ensures WellFormedLayout(p) ==> PutAll([], p.vars) == p.vars && PutAll([], p.methods) == p.methods
  {
    if WellFormedLayout(p) {
      PutAllIntoEmpty(p.vars);
      PutAllIntoEmpty(p.methods);
    }
  }

  // ---------------------------------------------------------------------------
  // Variable and method declarations

  /** A variable declaration. The name -> type table always learns it; only a
      class field (a declaration with class data) is recorded in the layout, at
      the current next offset, which then moves on by the type's size. */
  function DeclareVar(t: Target, b: Builder, data: Option<ClassLayout>, v: VarDecl): (r: (Builder, Option<ClassLayout>))
    ensures Get(r.0.vars, v.name) == Some(v.typeTag)
    ensures forall x :: x != v.name ==> Get(r.0.vars, x) == Get(b.vars, x)
    ensures r.0.classes == b.classes && r.0.queue == b.queue && r.0.nextMethod == b.nextMethod
    ensures r.0.className == b.className
    ensures r.1.Some? <==> data.Some?
    ensures data.None? ==> r.0.nextVar == b.nextVar
    ensures data.Some? ==>
      Get(r.1.value.vars, v.name) == Some(FieldInfo(v.typeTag, b.nextVar))
      && (forall x :: x != v.name ==> Get(r.1.value.vars, x) == Get(data.value.vars, x))
      && r.1.value.methods == data.value.methods && r.1.value.parent == data.value.parent
      && r.0.nextVar == b.nextVar + t.getSize(v.typeTag).bytes
    ensures data.Some? && WellFormedLayout(data.value) ==> WellFormedLayout(r.1.value)
  {
    var b1 := b.(vars := Put(b.vars, v.name, v.typeTag));
    match data
    case None => (b1, None)
    case Some(cd) =>
      var cd' := cd.(vars := Put(cd.vars, v.name, FieldInfo(v.typeTag, b.nextVar)));
      (b1.(nextVar := b.nextVar + t.getSize(v.typeTag).bytes), Some(cd'))
  }

  /** The vtable bookkeeping of a class: slots are dense, names are unique, and the
      next slot is the method count. */
  predicate SlotInvariant(b: Builder, cd: ClassLayout)
  {
    WellFormedLayout(cd) && b.nextMethod == |cd.methods|
  }

  /** A method declaration's entry. Redeclaring an inherited name keeps its slot and
      makes the current class its implementor; a new name takes the next slot. */
  function DeclareMethod(b: Builder, cd: ClassLayout, id: string, returnType: string, args: Option<seq<Param>>)
    : (r: (Builder, ClassLayout))
    ensures id in Keys(cd.methods) ==>
      Get(r.1.methods, id) == Some(MethodInfo(b.className, returnType, Get(cd.methods, id).value.slot, args))
      && r.0.nextMethod == b.nextMethod && |r.1.methods| == |cd.methods|
    ensures id !in Keys(cd.methods) ==>
      Get(r.1.methods, id) == Some(MethodInfo(b.className, returnType, b.nextMethod, args))
      && r.0.nextMethod == b.nextMethod + 1
    ensures forall x :: x != id ==> Get(r.1.methods, x) == Get(cd.methods, x)
    ensures |r.1.methods| >= |cd.methods|
    ensures forall i :: 0 <= i < |cd.methods| ==>
      r.1.methods[i].0 == cd.methods[i].0 && r.1.methods[i].1.slot == cd.methods[i].1.slot
    ensures r.1.vars == cd.vars && r.1.parent == cd.parent
    ensures r.0 == b.(nextMethod := r.0.nextMethod)
    ensures SlotInvariant(b, cd) ==> SlotInvariant(r.0, r.1)
  {
    match Get(cd.methods, id)
    case Some(prior) =>
      var ms := Put(cd.methods, id, MethodInfo(b.className, returnType, prior.slot, args));
      PutSamePosition(cd.methods, id, MethodInfo(b.className, returnType, prior.slot, args));
      (b, cd.(methods := ms))
    case None =>
      var ms := Put(cd.methods, id, MethodInfo(b.className, returnType, b.nextMethod, args));
      (b.(nextMethod := b.nextMethod + 1), cd.(methods := ms))
  }

  /** `put` on a present key writes its first position. */
  lemma PutSamePosition<V>(m: OMap<V>, k: string, v: V)
    requires k in Keys(m)
    ensures Put(m, k, v) == m[Find(m, k).value := (k, v)]
  {
  }

  // ---------------------------------------------------------------------------
  // Formal parameters

  /** One formal parameter as the first pass renders it, `type:name`. */
  function EncodeParam(v: VarDecl): string
  {
    v.typeTag + ":" + v.name
  }

  /** The formal-parameter tail: `","` before every parameter after the first. */
  function FormalTail(ps: seq<VarDecl>): string
  {
    if |ps| == 0 then "" else FormalTail(ps[..|ps| - 1]) + "," + EncodeParam(ps[|ps| - 1])
  }

  /** The whole formal-parameter list text: the first parameter, then the tail. */
  function FormalList(ps: seq<VarDecl>): string
    requires |ps| >= 1
  {
    EncodeParam(ps[0]) + FormalTail(ps[1..])
  }

  function Encoded(ps: seq<VarDecl>): (r: seq<string>)
    ensures |r| == |ps|
    ensures forall i :: 0 <= i < |ps| ==> r[i] == EncodeParam(ps[i])
  {
    seq(|ps|, i requires 0 <= i < |ps| => EncodeParam(ps[i]))
  }

  /** The (type, name) pairs a parameter list declares. */
  function Pairs(ps: seq<VarDecl>): (r: seq<Param>)
    ensures |r| == |ps|
    ensures forall i :: 0 <= i < |ps| ==> r[i] == (ps[i].typeTag, ps[i].name)
  {
    seq(|ps|, i requires 0 <= i < |ps| => (ps[i].typeTag, ps[i].name))
  }

  /** A method's recorded arguments: none without parameters, otherwise the list
      text split at commas and decoded by `getParams`. */
  function MethodArguments(ps: seq<VarDecl>): Option<seq<Param>>
  {
    if |ps| == 0 then None else Some(GetParams(JavaSplit(FormalList(ps), ',')))
  }

  /** Parameter names and types without commas, and types without colons: the
      shape MiniJava identifiers and type names have. */
  predicate PlainParams(ps: seq<VarDecl>)
  {
    forall i :: 0 <= i < |ps| ==> ',' !in ps[i].typeTag && ',' !in ps[i].name && ':' !in ps[i].typeTag
  }

  lemma {:induction false} FormalListIsJoin(ps: seq<VarDecl>)
    requires |ps| >= 1
    ensures FormalList(ps) == Join([','], Encoded(ps))
    decreases |ps|
  {
    if |ps| > 1 {
      var init := ps[..|ps| - 1];
      FormalListIsJoin(init);
      assert init[1..] == ps[1..][..|ps[1..]| - 1];
      assert Encoded(ps) == Encoded(init) + [EncodeParam(ps[|ps| - 1])];
      JoinSnoc([','], Encoded(init), EncodeParam(ps[|ps| - 1]));
    }
  }

  lemma SplitParamEncoded(v: VarDecl)
    requires ':' !in v.typeTag
    ensures SplitParam(EncodeParam(v)) == Some((v.typeTag, v.name))
  {
    var e := EncodeParam(v);
    assert e[|v.typeTag|] == ':';
    var r := SplitParam(e).value;
    assert e[..|v.typeTag|] == v.typeTag;
    assert e[|v.typeTag| + 1..] == v.name;
  }

  lemma {:induction false} GetParamsEncoded(ps: seq<VarDecl>)
    requires PlainParams(ps)
    ensures GetParams(Encoded(ps)) == Pairs(ps)
    decreases |ps|
  {
    if |ps| > 0 {
      SplitParamEncoded(ps[0]);
      assert Encoded(ps)[1..] == Encoded(ps[1..]);
      assert ':' in Encoded(ps)[0] by { assert EncodeParam(ps[0])[|ps[0].typeTag|] == ':'; }
      GetParamsEncoded(ps[1..]);
      assert Pairs(ps) == [(ps[0].typeTag, ps[0].name)] + Pairs(ps[1..]);
    }
  }

  /** Round trip: decoding the text the first pass builds for a parameter list gives
      back exactly the declared (type, name) pairs, in order. */
  lemma ParamsRoundTrip(ps: seq<VarDecl>)
    requires PlainParams(ps)
    ensures MethodArguments(ps) == if |ps| == 0 then None else Some(Pairs(ps))
  {
    if |ps| > 0 {
      FormalListIsJoin(ps);
      var xs := Encoded(ps);
      forall i | 0 <= i < |xs| ensures ',' !in xs[i] {
        var v := ps[i];
        assert xs[i] == v.typeTag + ":" + v.name;
        forall j | 0 <= j < |xs[i]| ensures xs[i][j] != ',' {
          if j < |v.typeTag| { assert xs[i][j] == v.typeTag[j]; }
          else if j > |v.typeTag| { assert xs[i][j] == v.name[j - |v.typeTag| - 1]; }
        }
      }
      assert xs[|xs| - 1][|ps[|ps| - 1].typeTag|] == ':';
      JavaSplitJoin(xs, ',');
      GetParamsEncoded(ps);
    }
  }

  /** Visiting the parameter list records every parameter's type, in order. */
  function BindParams(b: Builder, ps: seq<VarDecl>): (r: Builder)
    ensures r == b.(vars := r.vars)
    decreases |ps|
  {
    if |ps| == 0 then b else BindParams(b.(vars := Put(b.vars, ps[0].name, ps[0].typeTag)), ps[1..])
  }

  /** After the parameter list, a parameter name that occurs once is bound to its
      declared type, and names that are not parameters keep their binding. */
  lemma {:induction false} BindParamsTypes(b: Builder, ps: seq<VarDecl>, x: string)
    ensures (forall j :: 0 <= j < |ps| ==> ps[j].name != x) ==> Get(BindParams(b, ps).vars, x) == Get(b.vars, x)
    ensures forall i :: 0 <= i < |ps| && ps[i].name == x && (forall j :: 0 <= j < |ps| && j != i ==> ps[j].name != x) ==>
      Get(BindParams(b, ps).vars, x) == Some(ps[i].typeTag)
    decreases |ps|
  {
    if |ps| > 0 {
      var b1 := b.(vars := Put(b.vars, ps[0].name, ps[0].typeTag));
      BindParamsTypes(b1, ps[1..], x);
      forall i | 0 <= i < |ps| && ps[i].name == x && (forall j :: 0 <= j < |ps| && j != i ==> ps[j].name != x)
        ensures Get(BindParams(b, ps).vars, x) == Some(ps[i].typeTag)
      {
        if i == 0 {
          assert forall j :: 0 <= j < |ps[1..]| ==> ps[1..][j].name != x by {
            forall j | 0 <= j < |ps[1..]| ensures ps[1..][j].name != x { assert ps[1..][j] == ps[j + 1]; }
          }
        } else {
          assert ps[1..][i - 1] == ps[i];
          assert forall j :: 0 <= j < |ps[1..]| && j != i - 1 ==> ps[1..][j].name != x by {
            forall j | 0 <= j < |ps[1..]| && j != i - 1 ensures ps[1..][j].name != x { assert ps[1..][j] == ps[j + 1]; }
          }
        }
      }
      if forall j :: 0 <= j < |ps| ==> ps[j].name != x {
        assert forall j :: 0 <= j < |ps[1..]| ==> ps[1..][j].name != x by {
          forall j | 0 <= j < |ps[1..]| ensures ps[1..][j].name != x { assert ps[1..][j] == ps[j + 1]; }
        }
      }
    }
  }

  // ---------------------------------------------------------------------------
  // Message sends and static types

  /** The class the first pass attributes to an expression: the recorded type of an
      identifier, the current class for `this`, the class of an allocation, the
      type inside brackets, the receiver's type for a message send, and nothing
      for any other expression. */
  function StaticType(vars: OMap<string>, className: string, e: Expr): Option<string>
  {
    match e
    case Ident(x) => Get(vars, x)
    case This => Some(className)
    case New(c) => Some(c)
    case Paren(inner) => StaticType(vars, className, inner)
    case Send(receiver, _, _) => StaticType(vars, className, receiver)
    case _ => None
  }

  /** The queue entries an expression contributes, as a reference definition: for a
      send, the entries of its receiver, then the receiver's own class, then the
      entries of its arguments left to right. */
  function Receivers(vars: OMap<string>, className: string, e: Expr): seq<Option<string>>
  {
    match e
    case NewArray(size) => Receivers(vars, className, size)
    case Paren(inner) => Receivers(vars, className, inner)
    case Binary(_, l, r) => Receivers(vars, className, l) + Receivers(vars, className, r)
    case And(l, r) => Receivers(vars, className, l) + Receivers(vars, className, r)
    case Not(x) => Receivers(vars, className, x)
    case ArrayLookup(a, i) => Receivers(vars, className, a) + Receivers(vars, className, i)
    case Send(recv, _, args) =>
      Receivers(vars, className, recv) + [StaticType(vars, className, recv)] + ReceiversAll(vars, className, args)
    case _ => []
  }

  function ReceiversAll(vars: OMap<string>, className: string, es: seq<Expr>): seq<Option<string>>
  {
    if |es| == 0 then [] else Receivers(vars, className, es[0]) + ReceiversAll(vars, className, es[1..])
  }

  /** One entry per message send. */
  lemma {:induction false} ReceiversCount(vars: OMap<string>, className: string, e: Expr)
    ensures |Receivers(vars, className, e)| == SendCount(e)
    decreases e, 1
  {
    match e
    case NewArray(size) => ReceiversCount(vars, className, size);
    case Paren(inner) => ReceiversCount(vars, className, inner);
    case Binary(_, l, r) => ReceiversCount(vars, className, l); ReceiversCount(vars, className, r);
    case And(l, r) => ReceiversCount(vars, className, l); ReceiversCount(vars, className, r);
    case Not(x) => ReceiversCount(vars, className, x);
    case ArrayLookup(a, i) => ReceiversCount(vars, className, a); ReceiversCount(vars, className, i);
    case Send(recv, _, args) => ReceiversCount(vars, className, recv); ReceiversAllCount(vars, className, args);
    case _ =>
  }

  lemma {:induction false} ReceiversAllCount(vars: OMap<string>, className: string, es: seq<Expr>)
    ensures |ReceiversAll(vars, className, es)| == SendCountAll(es)
    decreases es, 0
  {
    if |es| > 0 {
      ReceiversCount(vars, className, es[0]);
      ReceiversAllCount(vars, className, es[1..]);
    }
  }

  /** The first pass over an expression: it returns the expression's static class
      and appends one queue entry per message send; nothing else changes. */
  function CollectExpr(b: Builder, e: Expr): (r: (Builder, Option<string>))
    ensures r.1 == StaticType(b.vars, b.className, e)
    ensures r.0 == b.(queue := b.queue + Receivers(b.vars, b.className, e))
    decreases e, 1
  {
    match e
    case Ident(x) => (b, Get(b.vars, x))
    case This => (b, Some(b.className))
    case New(c) => (b, Some(c))
    case Paren(inner) => CollectExpr(b, inner)
    case NewArray(size) => (CollectExpr(b, size).0, None)
    case Binary(_, l, r) =>
      Associative(b.queue, Receivers(b.vars, b.className, l), Receivers(b.vars, b.className, r));
      (CollectExpr(CollectExpr(b, l).0, r).0, None)
    case And(l, r) =>
      Associative(b.queue, Receivers(b.vars, b.className, l), Receivers(b.vars, b.className, r));
      (CollectExpr(CollectExpr(b, l).0, r).0, None)
    case Not(x) => (CollectExpr(b, x).0, None)
    case ArrayLookup(a, i) =>
      Associative(b.queue, Receivers(b.vars, b.className, a), Receivers(b.vars, b.className, i));
      (CollectExpr(CollectExpr(b, a).0, i).0, None)
    case Send(recv, _, args) =>
      var (b1, ty) := CollectExpr(b, recv);
      var rs := Receivers(b.vars, b.className, recv);
      Associative(b.queue, rs, [ty]);
      Associative(b.queue, rs + [ty], ReceiversAll(b.vars, b.className, args));
      (CollectExprs(b1.(queue := b1.queue + [ty]), args), ty)
    case _ => (b, None)
  }

  function CollectExprs(b: Builder, es: seq<Expr>): (r: Builder)
    ensures r == b.(queue := b.queue + ReceiversAll(b.vars, b.className, es))
    decreases es, 0
  {
    if |es| == 0 then b
    else
      Associative(b.queue, Receivers(b.vars, b.className, es[0]), ReceiversAll(b.vars, b.className, es[1..]));
      CollectExprs(CollectExpr(b, es[0]).0, es[1..])
  }

  /** A message send enqueues its receiver's class after the receiver's own sends
      and before any send inside its arguments. */
  lemma SendEnqueuesReceiver(b: Builder, e: Expr)
    requires e.Send?
    ensures var q := CollectExpr(b, e).0.queue;
      |q| == |b.queue| + SendCount(e)
      && q[|b.queue| + SendCount(e.receiver)] == StaticType(b.vars, b.className, e.receiver)
  {
    ReceiversCount(b.vars, b.className, e);
    ReceiversCount(b.vars, b.className, e.receiver);
    var rs := Receivers(b.vars, b.className, e);
    assert rs[SendCount(e.receiver)] == StaticType(b.vars, b.className, e.receiver);
  }

  // ---------------------------------------------------------------------------
  // Statements

  /** The first pass over a statement: every expression in it is visited left to
      right; an assignment whose right side has a static class records that class
      as the left identifier's type. */
  function CollectStmt(b: Builder, s: Stmt): (r: Builder)
    ensures SameLayoutState(b, r)
    ensures |r.queue| == |b.queue| + StmtSendCount(s) && r.queue[..|b.queue|] == b.queue
    ensures s.Assign? ==>
      var ty := StaticType(b.vars, b.className, s.value);
      (ty.Some? ==> Get(r.vars, s.id) == ty && forall x :: x != s.id ==> Get(r.vars, x) == Get(b.vars, x))
      && (ty.None? ==> r.vars == b.vars)
    decreases s, 1
  {
    match s
    case Block(stmts) => CollectStmts(b, stmts)
    case Assign(id, value) =>
      ReceiversCount(b.vars, b.className, value);
      var (b1, ty) := CollectExpr(b, value);
      if ty.Some? then b1.(vars := Put(b1.vars, id, ty.value)) else b1
    case ArrayAssign(_, index, value) =>
      var b1 := CollectExpr(b, index).0;
      ReceiversCount(b.vars, b.className, index);
      ReceiversCount(b1.vars, b1.className, value);
      CollectExpr(b1, value).0
    case If(cond, thenBranch, elseBranch) =>
      ReceiversCount(b.vars, b.className, cond);
      var b1 := CollectExpr(b, cond).0;
      var b2 := CollectStmt(b1, thenBranch);
      var b3 := CollectStmt(b2, elseBranch);
      assert b3.queue[..|b.queue|] == b2.queue[..|b1.queue|][..|b.queue|];
      b3
    case While(cond, loopBody) =>
      ReceiversCount(b.vars, b.className, cond);
      var b1 := CollectExpr(b, cond).0;
      var b2 := CollectStmt(b1, loopBody);
      assert b2.queue[..|b.queue|] == b2.queue[..|b1.queue|][..|b.queue|];
      b2
    case Print(value) =>
      ReceiversCount(b.vars, b.className, value);
      CollectExpr(b, value).0
  }

  function CollectStmts(b: Builder, ss: seq<Stmt>): (r: Builder)
    ensures SameLayoutState(b, r)
    ensures |r.queue| == |b.queue| + StmtsSendCount(ss) && r.queue[..|b.queue|] == b.queue
    decreases ss, 0
  {
    if |ss| == 0 then b
    else
      var b1 := CollectStmt(b, ss[0]);
      var r := CollectStmts(b1, ss[1..]);
      assert r.queue[..|b.queue|] == r.queue[..|b1.queue|][..|b.queue|];
      r
  }

  // ---------------------------------------------------------------------------
  // Methods, classes, program

  /** A method: its parameters are recorded as variables, its statements and its
      result expression are visited, and then its vtable entry is written. The
      method's local declarations are not visited by the first pass. */
  function CollectMethod(b: Builder, cd: ClassLayout, m: MethodDecl): (r: (Builder, ClassLayout))
    ensures r.0.classes == b.classes && r.0.nextVar == b.nextVar && r.0.className == b.className
    ensures |r.0.queue| == |b.queue| + MethodSendCount(m) && r.0.queue[..|b.queue|] == b.queue
    ensures r.1.vars == cd.vars && r.1.parent == cd.parent
    ensures Get(r.1.methods, m.name).Some?
    ensures Get(r.1.methods, m.name).value.className == b.className
    ensures Get(r.1.methods, m.name).value.arguments == MethodArguments(m.params)
    ensures |r.1.methods| >= |cd.methods|
    ensures forall i :: 0 <= i < |cd.methods| ==>
      r.1.methods[i].0 == cd.methods[i].0 && r.1.methods[i].1.slot == cd.methods[i].1.slot
    ensures SlotInvariant(b, cd) ==> SlotInvariant(r.0, r.1)
  {
    var args := MethodArguments(m.params);
    var b1 := BindParams(b, m.params);
    var b2 := CollectStmts(b1, m.body);
    ReceiversCount(b2.vars, b2.className, m.result);
    var b3 := CollectExpr(b2, m.result).0;
    assert b3.queue[..|b.queue|] == b3.queue[..|b2.queue|][..|b.queue|];
    DeclareMethod(b3, cd, m.name, m.returnType, args)
  }

  function CollectMethods(b: Builder, cd: ClassLayout, ms: seq<MethodDecl>): (r: (Builder, ClassLayout))
    ensures r.0.classes == b.classes && r.0.nextVar == b.nextVar && r.0.className == b.className
    ensures |r.0.queue| == |b.queue| + MethodsSendCount(ms) && r.0.queue[..|b.queue|] == b.queue
    ensures r.1.vars == cd.vars && r.1.parent == cd.parent
    ensures |r.1.methods| >= |cd.methods|
    ensures forall i :: 0 <= i < |cd.methods| ==>
      r.1.methods[i].0 == cd.methods[i].0 && r.1.methods[i].1.slot == cd.methods[i].1.slot
    ensures SlotInvariant(b, cd) ==> SlotInvariant(r.0, r.1)
    decreases |ms|
  {
    if |ms| == 0 then (b, cd)
    else
      var (b1, cd1) := CollectMethod(b, cd, ms[0]);
      var r := CollectMethods(b1, cd1, ms[1..]);
      assert r.0.queue[..|b.queue|] == r.0.queue[..|b1.queue|][..|b.queue|];
      r
  }

  function DeclareFields(t: Target, b: Builder, cd: ClassLayout, fs: seq<VarDecl>): (r: (Builder, ClassLayout))
    ensures r.0.classes == b.classes && r.0.queue == b.queue && r.0.nextMethod == b.nextMethod
    ensures r.0.className == b.className
    ensures r.1.methods == cd.methods && r.1.parent == cd.parent
    ensures WellFormedLayout(cd) ==> WellFormedLayout(r.1)
    decreases |fs|
  {
    if |fs| == 0 then (b, cd)
    else
      var (b1, cd1) := DeclareVar(t, b, Some(cd), fs[0]);
      DeclareFields(t, b1, cd1.value, fs[1..])
  }

  /** A class: its header, its fields, its methods, and finally its entry in the
      class table. */
  function CollectClass(t: Target, b: Builder, c: ClassDecl): (r: Result<Builder, Fault>)
    ensures r.Err? <==> c.parent.Some? && c.parent.value !in Keys(b.classes)
    ensures r.Ok? ==> Get(r.value.classes, c.name).Some?
    ensures r.Ok? ==> forall x :: x != c.name ==> Get(r.value.classes, x) == Get(b.classes, x)
    ensures r.Ok? ==> |r.value.queue| == |b.queue| + MethodsSendCount(c.methods)
    ensures r.Ok? ==> r.value.queue[..|b.queue|] == b.queue
  {
    var header :-
      match c.parent
      case None => Ok(EnterClass(t, b, c.name))
      case Some(p) => EnterDerivedClass(t, b, c.name, p);
    var (b1, cd1) := DeclareFields(t, header.0, header.1, c.fields);
    var (b2, cd2) := CollectMethods(b1, cd1, c.methods);
    Ok(b2.(classes := Put(b2.classes, c.name, cd2)))
  }

  function CollectClasses(t: Target, b: Builder, cs: seq<ClassDecl>): (r: Result<Builder, Fault>)
    ensures r.Ok? ==> |r.value.queue| == |b.queue| + ClassesSendCount(cs)
    decreases |cs|
  {
    if |cs| == 0 then Ok(b)
    else
      var b1 :- CollectClass(t, b, cs[0]);
      CollectClasses(t, b1, cs[1..])
  }

  /** The main class: its locals only update the name -> type table, its statements
      are visited, and it enters the class table with an empty layout. */
  function CollectMain(t: Target, b: Builder, main: MainClass): (r: Builder)
    ensures |r.queue| == |b.queue| + StmtsSendCount(main.body)
    ensures Get(r.classes, main.name) == Some(EmptyLayout(None))
    ensures forall x :: x != main.name ==> Get(r.classes, x) == Get(b.classes, x)
  {
    var b1 := DeclareLocals(t, b.(className := main.name), main.locals);
    var b2 := CollectStmts(b1, main.body);
    b2.(classes := Put(b2.classes, main.name, EmptyLayout(None)))
  }

  function DeclareLocals(t: Target, b: Builder, vs: seq<VarDecl>): (r: Builder)
    ensures SameLayoutState(b, r) && r.queue == b.queue
    decreases |vs|
  {
    if |vs| == 0 then b else DeclareLocals(t, DeclareVar(t, b, None, vs[0]).0, vs[1..])
  }

  /** The whole first pass: the main class, then every class in source order. */
  function BuildProgram(t: Target, p: Program): Result<Builder, Fault>
  {
    CollectClasses(t, CollectMain(t, Start(t), p.main), p.classes)
  }

  // ---------------------------------------------------------------------------
  // Properties

  /** Every message send of the program leaves exactly one queue entry. */
  lemma QueueLength(t: Target, p: Program)
    requires BuildProgram(t, p).Ok?
    ensures |BuildProgram(t, p).value.queue| == ProgramSendCount(p)
  {
  }

  /** Total storage of a list of declarations. */
  function SizeSum(t: Target, fs: seq<VarDecl>): nat
  {
    if |fs| == 0 then 0 else t.getSize(fs[0].typeTag).bytes + SizeSum(t, fs[1..])
  }

  /** The field entries a list of fresh, distinct declarations produces: each at the
      start offset plus the sizes of the fields before it. */
  function FieldEntries(t: Target, start: int, fs: seq<VarDecl>): (r: OMap<FieldInfo>)
    ensures |r| == |fs|
    ensures forall i :: 0 <= i < |fs| ==> r[i] == (fs[i].name, FieldInfo(fs[i].typeTag, start + SizeSum(t, fs[..i])))
  {
    seq(|fs|, i requires 0 <= i < |fs| => (fs[i].name, FieldInfo(fs[i].typeTag, start + SizeSum(t, fs[..i]))))
  }

  predicate FreshNames(cd: ClassLayout, fs: seq<VarDecl>)
  {
    (forall i :: 0 <= i < |fs| ==> fs[i].name !in Keys(cd.vars))
    && (forall i, j :: 0 <= i < j < |fs| ==> fs[i].name != fs[j].name)
  }

  lemma Associative<T>(a: seq<T>, b: seq<T>, c: seq<T>)
    ensures (a + b) + c == a + (b + c)
  {
  }

  lemma SizeSumStep(t: Target, fs: seq<VarDecl>, i: nat)
    requires 1 <= i <= |fs|
    ensures SizeSum(t, fs[..i]) == t.getSize(fs[0].typeTag).bytes + SizeSum(t, fs[1..][..i - 1])
  {
    assert fs[..i][1..] == fs[1..][..i - 1];
  }

  lemma FieldEntriesCons(t: Target, start: int, fs: seq<VarDecl>, next: int)
    requires |fs| >= 1 && next == start + t.getSize(fs[0].typeTag).bytes
    ensures FieldEntries(t, start, fs) == [(fs[0].name, FieldInfo(fs[0].typeTag, start))] + FieldEntries(t, next, fs[1..])
  {
    var e := FieldEntries(t, start, fs);
    var e' := FieldEntries(t, next, fs[1..]);
    assert e[0] == (fs[0].name, FieldInfo(fs[0].typeTag, start)) by {
      assert fs[..0] == [];
    }
    forall i | 1 <= i < |fs| ensures e[i] == e'[i - 1] {
      SizeSumStep(t, fs, i);
      assert fs[1..][i - 1] == fs[i];
    }
  }

  lemma FreshNamesTail(cd: ClassLayout, cd': ClassLayout, fs: seq<VarDecl>)
    requires |fs| >= 1 && FreshNames(cd, fs)
    requires Keys(cd'.vars) == Keys(cd.vars) + [fs[0].name]
    ensures FreshNames(cd', fs[1..])
  {
    forall i | 0 <= i < |fs[1..]| ensures fs[1..][i].name !in Keys(cd'.vars) {
      assert fs[1..][i] == fs[i + 1];
    }
  }

  /** Fields are laid out in declaration order, each right after the previous one,
      and the next offset ends past the last. */
  lemma {:induction false} FieldOffsets(t: Target, b: Builder, cd: ClassLayout, fs: seq<VarDecl>)
    requires FreshNames(cd, fs)
    ensures DeclareFields(t, b, cd, fs).1.vars == cd.vars + FieldEntries(t, b.nextVar, fs)
    ensures DeclareFields(t, b, cd, fs).0.nextVar == b.nextVar + SizeSum(t, fs)
    decreases |fs|
  {
    if |fs| > 0 {
      var (b1, cd1) := DeclareVar(t, b, Some(cd), fs[0]);
      var cd' := cd1.value;
      var entry := (fs[0].name, FieldInfo(fs[0].typeTag, b.nextVar));
      FieldStep(t, b, cd, fs);
      FieldOffsets(t, b1, cd', fs[1..]);
      var rest := FieldEntries(t, b1.nextVar, fs[1..]);
      FieldEntriesCons(t, b.nextVar, fs, b1.nextVar);
      Associative(cd.vars, [entry], rest);
    }
  }

  /** Declaring the first of fresh fields appends its entry at the current offset
      and leaves the rest fresh. */
  lemma FieldStep(t: Target, b: Builder, cd: ClassLayout, fs: seq<VarDecl>)
    requires |fs| > 0 && FreshNames(cd, fs)
    ensures var (b1, cd1) := DeclareVar(t, b, Some(cd), fs[0]);
      && cd1.Some?
      && cd1.value.vars == cd.vars + [(fs[0].name, FieldInfo(fs[0].typeTag, b.nextVar))]
      && b1.nextVar == b.nextVar + t.getSize(fs[0].typeTag).bytes
      && FreshNames(cd1.value, fs[1..])
      && DeclareFields(t, b, cd, fs) == DeclareFields(t, b1, cd1.value, fs[1..])
  {
    var (b1, cd1) := DeclareVar(t, b, Some(cd), fs[0]);
    var cd' := cd1.value;
    assert cd'.vars == cd.vars + [(fs[0].name, FieldInfo(fs[0].typeTag, b.nextVar))] by {
      assert fs[0].name !in Keys(cd.vars);
    }
    KeysAppend(cd.vars, fs[0].name, FieldInfo(fs[0].typeTag, b.nextVar));
    FreshNamesTail(cd, cd', fs);
  }

  /** The fields of a root class sit at strictly increasing offsets, all at or past
      the vtable pointer. */
  lemma RootFieldsIncreasing(t: Target, b: Builder, fs: seq<VarDecl>, id: string)
    requires FreshNames(EmptyLayout(None), fs)
    ensures var (b1, cd1) := EnterClass(t, b, id);
      var vars := DeclareFields(t, b1, cd1, fs).1.vars;
      |vars| == |fs|
      && (forall i :: 0 <= i < |fs| ==> vars[i].0 == fs[i].name && vars[i].1.offset >= t.pointerSize)
      && (forall i, j :: 0 <= i < j < |fs| ==> vars[i].1.offset < vars[j].1.offset)
  {
    var (b1, cd1) := EnterClass(t, b, id);
    FieldOffsets(t, b1, cd1, fs);
    var vars := DeclareFields(t, b1, cd1, fs).1.vars;
    assert vars == FieldEntries(t, t.pointerSize, fs);
    forall i | 0 <= i < |fs| ensures vars[i].1.offset == t.pointerSize + SizeSum(t, fs[..i]) {
    }
    forall i, j | 0 <= i < j < |fs| ensures vars[i].1.offset < vars[j].1.offset {
      SizeSumPrefix(t, fs, i, j);
    }
  }

  lemma {:induction false} SizeSumPrefix(t: Target, fs: seq<VarDecl>, i: nat, j: nat)
    requires i < j <= |fs|
    ensures SizeSum(t, fs[..i]) < SizeSum(t, fs[..j])
    decreases i
  {
    if i == 0 {
      assert fs[..j][1..] == fs[1..][..j - 1];
    } else {
      assert fs[..i][1..] == fs[1..][..i - 1];
      assert fs[..j][1..] == fs[1..][..j - 1];
      SizeSumPrefix(t, fs[1..], i - 1, j - 1);
    }
  }

  /** A derived class keeps every inherited method at the parent's position and
      slot, whatever it overrides or adds. */
  lemma DerivedKeepsSlots(t: Target, b: Builder, c: ClassDecl)
    requires c.parent.Some? && c.parent.value in Keys(b.classes)
    requires WellFormedLayout(Get(b.classes, c.parent.value).value)
    ensures var p := Get(b.classes, c.parent.value).value;
      var child := Get(CollectClass(t, b, c).value.classes, c.name).value;
      |child.methods| >= |p.methods|
      && forall i :: 0 <= i < |p.methods| ==>
        child.methods[i].0 == p.methods[i].0 && child.methods[i].1.slot == p.methods[i].1.slot
  {
  }

  predicate AllWellFormed(classes: OMap<ClassLayout>)
  {
    NoDupKeys(classes) && forall i :: 0 <= i < |classes| ==> WellFormedLayout(classes[i].1)
  }

  lemma AllWellFormedGet(classes: OMap<ClassLayout>, k: string)
    requires AllWellFormed(classes) && k in Keys(classes)
    ensures WellFormedLayout(Get(classes, k).value)
  {
  }

  lemma AllWellFormedPut(classes: OMap<ClassLayout>, k: string, cd: ClassLayout)
    requires AllWellFormed(classes) && WellFormedLayout(cd)
    ensures AllWellFormed(Put(classes, k, cd))
  {
    var r := Put(classes, k, cd);
    forall i | 0 <= i < |r| ensures WellFormedLayout(r[i].1) {
      if i < |classes| && classes[i].0 != k {
        assert r[i] == classes[i];
      } else {
        assert r[i].0 == k;
        assert Get(r, k) == Some(cd);
      }
    }
  }

  lemma CollectClassWellFormed(t: Target, b: Builder, c: ClassDecl)
    requires AllWellFormed(b.classes)
    ensures CollectClass(t, b, c).Ok? ==> AllWellFormed(CollectClass(t, b, c).value.classes)
  {
    if CollectClass(t, b, c).Ok? {
      var header :=
        match c.parent
        case None => EnterClass(t, b, c.name)
        case Some(p) => EnterDerivedClass(t, b, c.name, p).value;
      match c.parent {
        case None =>
        case Some(p) => AllWellFormedGet(b.classes, p);
      }
      assert SlotInvariant(header.0, header.1);
      var (b1, cd1) := DeclareFields(t, header.0, header.1, c.fields);
      assert SlotInvariant(b1, cd1);
      var (b2, cd2) := CollectMethods(b1, cd1, c.methods);
      AllWellFormedPut(b2.classes, c.name, cd2);
    }
  }

  lemma {:induction false} CollectClassesWellFormed(t: Target, b: Builder, cs: seq<ClassDecl>)
    requires AllWellFormed(b.classes)
    ensures CollectClasses(t, b, cs).Ok? ==> AllWellFormed(CollectClasses(t, b, cs).value.classes)
    decreases |cs|
  {
    if |cs| > 0 {
      CollectClassWellFormed(t, b, cs[0]);
      if CollectClass(t, b, cs[0]).Ok? {
        CollectClassesWellFormed(t, CollectClass(t, b, cs[0]).value, cs[1..]);
      }
    }
  }

  /** Every class the first pass records has unique field and method names and
      vtable slots exactly 0 .. n-1 in map order. */
  lemma ProgramWellFormed(t: Target, p: Program)
    requires BuildProgram(t, p).Ok?
    ensures AllWellFormed(BuildProgram(t, p).value.classes)
  {
    var b := CollectMain(t, Start(t), p.main);
    AllWellFormedPut([], p.main.name, EmptyLayout(None));
    assert b.classes == Put([], p.main.name, EmptyLayout(None)) by {
      var b1 := DeclareLocals(t, Start(t).(className := p.main.name), p.main.locals);
      assert CollectStmts(b1, p.main.body).classes == [];
    }
    CollectClassesWellFormed(t, b, p.classes);
  }
}
