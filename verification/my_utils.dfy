/** The string helpers of src/MyUtils.java: decoding `"type:name"` parameter
    entries, building LLVM argument lists, reducing a call signature to its
    parameter types, and assembling the vtable initialisers. */
module Signatures {
  import opened Options
  import opened Strings
  import opened OrderedMap
  import opened Layout

  /** A (type tag, parameter name) pair. */
  type Param = (string, string)

  // ---------------------------------------------------------------------------
  // getParams

  /** One entry split at its first `':'`, or None when it has no `':'`. */
  function SplitParam(entry: string): (r: Option<Param>)
    ensures r.None? <==> ':' !in entry
    ensures r.Some? ==> ':' !in r.value.0 && entry == r.value.0 + ":" + r.value.1
  {
    match IndexOf(entry, ':')
    case None => None
    case Some(i) =>
      assert entry == entry[..i] + ":" + entry[i + 1..];
      Some((entry[..i], entry[i + 1..]))
  }

  /** `getParams`: every entry that has a `':'`, split there, in input order. */
  function GetParams(params: seq<string>): (r: seq<Param>)
    ensures |r| <= |params|
    ensures |r| == |params| <==> forall i :: 0 <= i < |params| ==> ':' in params[i]
    ensures forall k :: 0 <= k < |r| ==> ':' !in r[k].0 && r[k].0 + ":" + r[k].1 in params
  {
    if |params| == 0 then []
    else
      var rest := GetParams(params[1..]);
      assert forall k :: 0 <= k < |rest| ==> rest[k].0 + ":" + rest[k].1 in params by {
        forall k | 0 <= k < |rest| ensures rest[k].0 + ":" + rest[k].1 in params {
          var j :| 0 <= j < |params[1..]| && params[1..][j] == rest[k].0 + ":" + rest[k].1;
          assert params[j + 1] == params[1..][j];
        }
      }
      if ':' !in params[0] then
        assert |rest| < |params|;
        rest
      else
        var p := SplitParam(params[0]).value;
        assert (forall i :: 0 <= i < |params| ==> ':' in params[i]) <==>
               (forall i :: 0 <= i < |params[1..]| ==> ':' in params[1..][i]) by {
          if forall i :: 0 <= i < |params[1..]| ==> ':' in params[1..][i] {
            forall i | 0 <= i < |params| ensures ':' in params[i] {
              if i > 0 { assert params[i] == params[1..][i - 1]; }
            }
          }
        }
        [p] + rest
  }

  /** Order: the result for a concatenation is the concatenation of the results. */
  lemma {:induction false} GetParamsAppend(xs: seq<string>, ys: seq<string>)
    ensures GetParams(xs + ys) == GetParams(xs) + GetParams(ys)
    decreases |xs|
  {
    if |xs| > 0 {
      assert (xs + ys)[1..] == xs[1..] + ys;
      assert (xs + ys)[0] == xs[0];
      GetParamsAppend(xs[1..], ys);
    } else {
      assert xs + ys == ys;
    }
  }

  /** A single entry contributes its split when it has a `':'` and nothing otherwise. */
  lemma GetParamsSingle(entry: string)
    ensures GetParams([entry]) == if ':' in entry then [SplitParam(entry).value] else []
  {
    assert [entry][1..] == [];
  }

  // ---------------------------------------------------------------------------
  // getArgs

  /** What one argument contributes to an argument list. */
  function ArgPiece(t: Target, arg: Param, isDefinition: bool): string
  {
    ", " + LlvmType(t, arg.0) + (if isDefinition then " %." + arg.1 else "")
  }

  function ArgPieces(t: Target, args: seq<Param>, isDefinition: bool): string
    decreases |args|
  {
    if |args| == 0 then ""
    else ArgPieces(t, args[..|args| - 1], isDefinition) + ArgPiece(t, args[|args| - 1], isDefinition)
  }

  /** The argument list `getArgs` produces: the receiver, one piece per argument in
      order, then the closing parenthesis (and a `*` for a pointer type). */
  function ArgList(t: Target, args: Option<seq<Param>>, isDefinition: bool): string
  {
    " (i8*" + (if isDefinition then " %this" else "")
    + (if args.Some? then ArgPieces(t, args.value, isDefinition) else "")
    + ")" + (if isDefinition then "" else "*")
  }

  /** `getArgs`, loop for loop. The `i++ < args.size()` test is always true inside
      the loop, so every argument is preceded by `", "`. */
  method GetArgs(t: Target, args: Option<seq<Param>>, isDefinition: bool) returns (rv: string)
    ensures rv == ArgList(t, args, isDefinition)
    ensures |rv| >= 6 && rv[..5] == " (i8*"
    ensures isDefinition ==> rv[5..11] == " %this" && rv[|rv| - 1] == ')'
    ensures !isDefinition ==> rv[|rv| - 2..] == ")*"
  {
    rv := " (i8*" + (if isDefinition then " %this" else "");
    var i := 0;
    if args.Some? {
      var list := args.value;
      var k := 0;
      while k < |list|
        invariant 0 <= k <= |list| && i == k
        invariant rv == " (i8*" + (if isDefinition then " %this" else "") + ArgPieces(t, list[..k], isDefinition)
      {
        var llvmType := LlvmType(t, list[k].0);
        var sep := if i < |list| then ", " else "";
        i := i + 1;
        rv := rv + sep + llvmType + (if isDefinition then " %." + list[k].1 else "");
        assert list[..k + 1][..k] == list[..k];
        k := k + 1;
      }
      assert list[..k] == list;
    }
    rv := rv + ")" + (if isDefinition then "" else "*");
  }

  // ---------------------------------------------------------------------------
  // declareMethods / declareVTable

  /** The vtable initialiser entry for one method: its function, cast to `i8*`,
      named after the class that most recently defined it. */
  function VTableEntry(t: Target, name: string, m: MethodInfo): string
  {
    "i8* bitcast (" + LlvmType(t, m.returnType) + ArgList(t, m.arguments, false)
    + " @" + m.className + "." + name + " to i8*)"
  }

  function VTableEntries(t: Target, methods: OMap<MethodInfo>): (r: seq<string>)
    ensures |r| == |methods|
    ensures forall i :: 0 <= i < |methods| ==> r[i] == VTableEntry(t, methods[i].0, methods[i].1)
  {
    seq(|methods|, i requires 0 <= i < |methods| => VTableEntry(t, methods[i].0, methods[i].1))
  }

  lemma {:induction false} JoinSnoc(sep: string, xs: seq<string>, x: string)
    requires |xs| > 0
    ensures Join(sep, xs + [x]) == Join(sep, xs) + sep + x
    decreases |xs|
  {
    if |xs| == 1 {
      assert (xs + [x])[1..] == [x];
    } else {
      assert (xs + [x])[1..] == xs[1..] + [x];
      JoinSnoc(sep, xs[1..], x);
    }
  }

  /** `declareMethods`: one entry per method in map order, separated by `", "`, with
      no separator after the last. */
  method DeclareMethods(t: Target, className: string, methods: OMap<MethodInfo>) returns (rv: string)
    ensures rv == Join(", ", VTableEntries(t, methods))
  {
    ghost var entries := VTableEntries(t, methods);
    rv := "";
    var i := 0;
    var k := 0;
    while k < |methods|
      invariant 0 <= k <= |methods| && i == k
      invariant rv == Join(", ", entries[..k]) + (if 0 < k < |methods| then ", " else "")
    {
      var (methodName, info) := methods[k];
      var retType := LlvmType(t, info.returnType);
      var argList := GetArgs(t, info.arguments, false);
      var entry := "i8* bitcast (" + retType + argList + " @" + info.className + "." + methodName + " to i8*)";
      assert entry == entries[k];
      if k > 0 {
        JoinSnoc(", ", entries[..k], entries[k]);
      }
      assert entries[..k + 1] == entries[..k] + [entries[k]];
      rv := rv + entry;
      i := i + 1;
      rv := rv + (if i < |methods| then ", " else "");
      k := k + 1;
    }
    assert entries[..k] == entries;
  }

  /** One vtable global: its class, its number of slots and its initialiser. */
  datatype VTableDecl = VTableDecl(className: string, slots: nat, init: string)

  /** The text of the global, `@.C_vtable = global [n x i8*] [...]`. */
  function VTableLine(d: VTableDecl): string
  {
    "@." + d.className + "_vtable = global [" + NatToString(d.slots) + " x i8*] [" + d.init + "]"
  }

  /** `declareVTable`: one global per class, in class-table order, sized to the
      class's method count. */
  method DeclareVTable(t: Target, classes: OMap<ClassLayout>) returns (decls: seq<VTableDecl>)
    ensures |decls| == |classes|
    ensures forall i :: 0 <= i < |classes| ==>
      decls[i] == VTableDecl(classes[i].0, |classes[i].1.methods|,
                             Join(", ", VTableEntries(t, classes[i].1.methods)))
  {
    decls := [];
    var k := 0;
    while k < |classes|
      invariant 0 <= k <= |classes| && |decls| == k
      invariant forall i :: 0 <= i < k ==>
        decls[i] == VTableDecl(classes[i].0, |classes[i].1.methods|,
                               Join(", ", VTableEntries(t, classes[i].1.methods)))
    {
      var (className, data) := classes[k];
      var init := DeclareMethods(t, className, data.methods);
      decls := decls + [VTableDecl(className, |data.methods|, init)];
      k := k + 1;
    }
  }

  /** With dense slots, the vtable entry at a method's slot is that method's own
      entry, and the slot is inside the table. */
  lemma VTableSlotEntry(t: Target, methods: OMap<MethodInfo>, name: string)
    requires SlotsDense(methods)
    requires Get(methods, name).Some?
    ensures Get(methods, name).value.slot < |VTableEntries(t, methods)|
    ensures VTableEntries(t, methods)[Get(methods, name).value.slot] == VTableEntry(t, name, Get(methods, name).value)
  {
    var i := Find(methods, name).value;
    assert methods[i].1.slot == i;
  }

  // ---------------------------------------------------------------------------
  // filterSignature

  function Tokens(pieces: seq<string>): (r: seq<string>)
    ensures |r| == |pieces|
    ensures forall i :: 0 <= i < |pieces| ==> r[i] == Token(pieces[i])
    decreases |pieces|
  {
    if |pieces| == 0 then [] else [Token(pieces[0])] + Tokens(pieces[1..])
  }

  /** The loop of `filterSignature`: each token followed by `", "`, the last by `")"`. */
  function Closed(pieces: seq<string>): string
  {
    if |pieces| == 0 then ""
    else if |pieces| == 1 then Token(pieces[0]) + ")"
    else Token(pieces[0]) + ", " + Closed(pieces[1..])
  }

  /** `filterSignature`: a signature without a comma reduces to `(i8*)`; otherwise the
      first word of every comma-separated piece, joined by `", "` and closed. */
  function FilterSignature(signature: string, classPointer: string): (r: string)
    ensures ',' !in signature ==> r == "(i8*)"
    ensures |JavaSplit(signature, ',')| >= 2 ==> r == Join(", ", Tokens(JavaSplit(signature, ','))) + ")"
  {
    var args := JavaSplit(signature, ',');
    if |args| == 1 then "(i8*)"
    else if |args| == 0 then Closed(args)
    else
      ClosedIsJoin(args);
      Closed(args)
  }

  lemma {:induction false} ClosedIsJoin(pieces: seq<string>)
    requires |pieces| >= 1
    ensures Closed(pieces) == Join(", ", Tokens(pieces)) + ")"
    decreases |pieces|
  {
    if |pieces| > 1 {
      ClosedIsJoin(pieces[1..]);
      ClosedStep(pieces);
    }
  }

  lemma ClosedStep(pieces: seq<string>)
    requires |pieces| > 1
    requires Closed(pieces[1..]) == Join(", ", Tokens(pieces[1..])) + ")"
    ensures Closed(pieces) == Join(", ", Tokens(pieces)) + ")"
  {
    var t := Tokens(pieces);
    var rest := Join(", ", Tokens(pieces[1..]));
    var head := Token(pieces[0]) + ", ";
    assert t == [Token(pieces[0])] + Tokens(pieces[1..]);
    assert t[1..] == Tokens(pieces[1..]);
    assert Join(", ", t) == head + rest;
    assert Closed(pieces) == head + (rest + ")");
    ConcatAssoc(head, rest, ")");
  }

  // ---------------------------------------------------------------------------
  // Call signatures against declared argument lists

  /** A type or value word as it appears in a call: non-empty, no blank or control
      character and no comma. */
  predicate Word(w: string)
  {
    |w| > 0 && forall i :: 0 <= i < |w| ==> w[i] > ' ' && w[i] != ','
  }

  /** The rendered operand `"type value"`. */
  function OperandText(operand: (string, string)): string
  {
    operand.0 + " " + operand.1
  }

  /** The argument text of a call: receiver first, then the arguments, each as
      `"type value"`, separated by `", "` and parenthesised. */
  function CallSignature(operands: seq<(string, string)>): string
  {
    "(" + Join(", ", seq(|operands|, i requires 0 <= i < |operands| => OperandText(operands[i]))) + ")"
  }

  function OperandTypes(operands: seq<(string, string)>): (r: seq<string>)
    ensures |r| == |operands|
    ensures forall i :: 0 <= i < |operands| ==> r[i] == operands[i].0
  {
    seq(|operands|, i requires 0 <= i < |operands| => operands[i].0)
  }

  lemma {:induction false} JoinSpaced(xs: seq<string>)
    requires |xs| >= 1
    ensures " " + Join(", ", xs) == Join([','], Spaced(xs))
    decreases |xs|
  {
    if |xs| > 1 {
      assert Spaced(xs)[1..] == Spaced(xs[1..]);
      JoinSpaced(xs[1..]);
    }
  }

  function Spaced(xs: seq<string>): (r: seq<string>)
    ensures |r| == |xs|
    ensures forall i :: 0 <= i < |xs| ==> r[i] == " " + xs[i]
  {
    seq(|xs|, i requires 0 <= i < |xs| => " " + xs[i])
  }

  lemma {:induction false} JoinAppendLast(c: string, xs: seq<string>, s: string)
    requires |xs| >= 1
    ensures Join(c, xs) + s == Join(c, xs[..|xs| - 1] + [xs[|xs| - 1] + s])
    decreases |xs|
  {
    if |xs| > 1 {
      var n := |xs|;
      var ys := xs[..n - 1] + [xs[n - 1] + s];
      var tail := Join(c, xs[1..]);
      JoinAppendLast(c, xs[1..], s);
      assert xs[1..][..n - 2] == xs[1..n - 1];
      assert ys[1..] == xs[1..n - 1] + [xs[n - 1] + s];
      assert Join(c, ys) == xs[0] + c + Join(c, ys[1..]);
      assert Join(c, xs) == xs[0] + c + tail;
      ConcatAssoc(xs[0] + c, tail, s);
    }
  }

  /** The comma pieces of a parenthesised, `", "`-joined list of at least two items:
      the first carries the `"("`, the others a leading blank, the last the `")"`. */
  function CallPieces(items: seq<string>): (r: seq<string>)
    requires |items| >= 2
    ensures |r| == |items|
  {
    ["(" + items[0]] + Spaced(items[1..|items| - 1]) + [" " + items[|items| - 1] + ")"]
  }

  /** Prefixing the first element prefixes the joined text. */
  lemma JoinPrefixFirst(sep: string, p: string, xs: seq<string>)
    requires |xs| >= 1
    ensures Join(sep, [p + xs[0]] + xs[1..]) == p + Join(sep, xs)
  {
    var ys := [p + xs[0]] + xs[1..];
    assert ys[1..] == xs[1..];
    if |xs| > 1 {
      assert Join(sep, ys) == (p + xs[0]) + sep + Join(sep, xs[1..]);
      assert Join(sep, xs) == xs[0] + sep + Join(sep, xs[1..]);
    }
  }

  lemma CommaSplice(a: string, b: string)
    ensures "(" + (a + ", " + b) == ("(" + a) + [','] + (" " + b)
  {
    assert ", " == [','] + " ";
    assert a + ", " + b == a + [','] + (" " + b);
  }

  lemma CallPiecesOpen(items: seq<string>)
    requires |items| >= 2
    ensures "(" + Join(", ", items) == Join([','], ["(" + items[0]] + Spaced(items[1..]))
  {
    var rest := items[1..];
    var sp := Spaced(rest);
    var tail := Join(", ", rest);
    JoinSpaced(rest);
    var pre := ["(" + items[0]] + sp;
    assert pre[1..] == sp;
    assert Join(", ", items) == items[0] + ", " + tail;
    assert Join([','], pre) == ("(" + items[0]) + [','] + Join([','], sp);
    CommaSplice(items[0], tail);
  }

  lemma SpacedInit(items: seq<string>)
    requires |items| >= 2
    ensures (["(" + items[0]] + Spaced(items[1..]))[..|items| - 1] == ["(" + items[0]] + Spaced(items[1..|items| - 1])
  {
    var pre := ["(" + items[0]] + Spaced(items[1..]);
    var init := Spaced(items[1..|items| - 1]);
    assert |pre[..|pre| - 1]| == |["(" + items[0]] + init|;
    forall i | 1 <= i < |pre| - 1 ensures pre[i] == init[i - 1] {
      assert pre[i] == " " + items[i];
    }
  }

  lemma CallPiecesJoin(items: seq<string>)
    requires |items| >= 2
    ensures "(" + Join(", ", items) + ")" == Join([','], CallPieces(items))
  {
    var pre := ["(" + items[0]] + Spaced(items[1..]);
    var q := pre[..|pre| - 1] + [pre[|pre| - 1] + ")"];
    assert q == CallPieces(items) by {
      SpacedInit(items);
      assert pre[|pre| - 1] == " " + items[|items| - 1];
    }
    assert "(" + Join(", ", items) + ")" == Join([','], pre) + ")" by {
      CallPiecesOpen(items);
    }
    JoinAppendLast([','], pre, ")");
  }

  lemma NoCommaInOperand(operand: (string, string))
    requires Word(operand.0) && Word(operand.1)
    ensures ',' !in OperandText(operand)
  {
    var w, v := operand.0, operand.1;
    var x := OperandText(operand);
    forall j | 0 <= j < |x| ensures x[j] != ',' {
      if j < |w| { assert x[j] == w[j]; }
      else if j > |w| { assert x[j] == v[j - |w| - 1]; }
    }
  }

  function OperandTexts(operands: seq<(string, string)>): (r: seq<string>)
    ensures |r| == |operands|
    ensures forall i :: 0 <= i < |operands| ==> r[i] == OperandText(operands[i])
  {
    seq(|operands|, i requires 0 <= i < |operands| => OperandText(operands[i]))
  }

  /** Splitting a call signature of two or more operands at commas yields one piece
      per operand. */
  lemma SplitCallSignature(operands: seq<(string, string)>)
    requires |operands| >= 2
    requires forall i :: 0 <= i < |operands| ==> Word(operands[i].0) && Word(operands[i].1)
    ensures JavaSplit(CallSignature(operands), ',') == CallPieces(OperandTexts(operands))
  {
    var items := OperandTexts(operands);
    var q := CallPieces(items);
    assert CallSignature(operands) == "(" + Join(", ", items) + ")";
    CallPiecesJoin(items);
    forall i | 0 <= i < |items| ensures ',' !in q[i] {
      NoCommaInOperand(operands[i]);
      if i == 0 {
        assert q[0] == "(" + items[0];
      } else if i < |items| - 1 {
        assert q[i] == " " + items[i];
      } else {
        assert q[i] == " " + items[i] + ")";
      }
    }
    JavaSplitJoin(q, ',');
  }

  /** The first word of each piece is the operand's type, with the `"("` still
      attached to the receiver's. */
  lemma TokensOfCallPieces(operands: seq<(string, string)>)
    requires |operands| >= 2
    requires forall i :: 0 <= i < |operands| ==> Word(operands[i].0) && Word(operands[i].1)
    ensures Tokens(CallPieces(OperandTexts(operands))) == ["(" + operands[0].0] + OperandTypes(operands)[1..]
  {
    var q := CallPieces(OperandTexts(operands));
    var expected := ["(" + operands[0].0] + OperandTypes(operands)[1..];
    forall i | 0 <= i < |operands| ensures Tokens(q)[i] == expected[i] {
      TokenOfCallPiece(operands, i);
    }
  }

  /** The first word of piece `i` of a split call signature. */
  lemma TokenOfCallPiece(operands: seq<(string, string)>, i: nat)
    requires |operands| >= 2 && i < |operands|
    requires Word(operands[i].0) && Word(operands[i].1)
    ensures Token(CallPieces(OperandTexts(operands))[i]) == if i == 0 then "(" + operands[0].0 else operands[i].0
  {
    var n := |operands|;
    var items := OperandTexts(operands);
    var q := CallPieces(items);
    var w, v := operands[i].0, operands[i].1;
    assert v[|v| - 1] > ' ';
    if i == 0 {
      assert q[0] == "(" + items[0];
      assert q[0] == "" + ("(" + w) + " " + v;
      TokenOfPiece("", "(" + w, v);
    } else if i < n - 1 {
      assert q[i] == Spaced(items[1..n - 1])[i - 1];
      assert q[i] == " " + w + " " + v;
      TokenOfPiece(" ", w, v);
    } else {
      assert q[i] == " " + items[n - 1] + ")";
      assert q[i] == " " + w + " " + (v + ")");
      TokenOfPiece(" ", w, v + ")");
    }
  }

  /** Filtering a call signature recovers the operand types, in order: the receiver
      alone gives `(i8*)`, more operands give their types parenthesised. */
  lemma FilterCallSignature(operands: seq<(string, string)>)
    requires |operands| >= 1
    requires forall i :: 0 <= i < |operands| ==> Word(operands[i].0) && Word(operands[i].1)
    ensures |operands| == 1 ==> FilterSignature(CallSignature(operands), "") == "(i8*)"
    ensures |operands| >= 2 ==>
      FilterSignature(CallSignature(operands), "") == "(" + Join(", ", OperandTypes(operands)) + ")"
  {
    var sig := CallSignature(operands);
    if |operands| == 1 {
      var x := OperandText(operands[0]);
      assert sig == "(" + x + ")";
      NoCommaInOperand(operands[0]);
      assert ',' !in sig by {
        forall j | 0 <= j < |sig| ensures sig[j] != ',' {
          if 0 < j < |sig| - 1 { assert sig[j] == x[j - 1]; }
        }
      }
    } else {
      SplitCallSignature(operands);
      TokensOfCallPieces(operands);
      var tys := OperandTypes(operands);
      JoinPrefixFirst(", ", "(", tys);
    }
  }

  /** The types `getArgs` lists after the receiver, joined the way a filtered call
      signature lists them. */
  lemma {:induction false} ArgPiecesAsJoin(t: Target, params: seq<Param>, head: string)
    ensures Join(", ", [head] + seq(|params|, i requires 0 <= i < |params| => LlvmType(t, params[i].0)))
            == head + ArgPieces(t, params, false)
    decreases |params|
  {
    var tys := seq(|params|, i requires 0 <= i < |params| => LlvmType(t, params[i].0));
    if |params| == 0 {
      assert [head] + tys == [head];
    } else {
      var init := params[..|params| - 1];
      var tys' := seq(|init|, i requires 0 <= i < |init| => LlvmType(t, init[i].0));
      ArgPiecesAsJoin(t, init, head);
      assert [head] + tys == ([head] + tys') + [LlvmType(t, params[|params| - 1].0)];
      JoinSnoc(", ", [head] + tys', LlvmType(t, params[|params| - 1].0));
    }
  }

  /** A call whose receiver is an `i8*` and whose argument types are the LLVM types
      of the callee's parameters casts the loaded vtable entry to exactly the
      pointer type that `declareMethods` gave it. */
  lemma CastText(p: string)
    ensures " " + ("(" + ("i8*" + p) + ")") + "*" == " (i8*" + "" + p + ")" + "*"
  {
    var a := " " + ("(" + ("i8*" + p) + ")") + "*";
    var b := " (i8*" + "" + p + ")" + "*";
    assert |a| == |b|;
    forall i | 0 <= i < |a| ensures a[i] == b[i] {
      if 5 <= i < 5 + |p| {
        assert a[i] == p[i - 5] == b[i];
      }
    }
  }

  lemma CallCastWithArguments(t: Target, ps: seq<Param>, operands: seq<(string, string)>)
    requires |operands| >= 2 && operands[0].0 == "i8*"
    requires forall i :: 0 <= i < |operands| ==> Word(operands[i].0) && Word(operands[i].1)
    requires |ps| == |operands| - 1
    requires forall i :: 0 <= i < |ps| ==> operands[i + 1].0 == LlvmType(t, ps[i].0)
    ensures " " + FilterSignature(CallSignature(operands), "") + "*" == ArgList(t, Some(ps), false)
  {
    var tys := OperandTypes(operands);
    var pieces := ArgPieces(t, ps, false);
    assert Join(", ", tys) == "i8*" + pieces by {
      assert tys == ["i8*"] + seq(|ps|, i requires 0 <= i < |ps| => LlvmType(t, ps[i].0));
      ArgPiecesAsJoin(t, ps, "i8*");
    }
    assert FilterSignature(CallSignature(operands), "") == "(" + ("i8*" + pieces) + ")" by {
      FilterCallSignature(operands);
    }
    CastText(pieces);
  }

  /** A call whose receiver is an `i8*` and whose argument types are the LLVM types
      of the callee's parameters casts the loaded vtable entry to exactly the
      pointer type that `declareMethods` gave it. */
  lemma CallCastMatchesVTable(t: Target, params: Option<seq<Param>>, operands: seq<(string, string)>)
    requires |operands| >= 1 && operands[0].0 == "i8*"
    requires forall i :: 0 <= i < |operands| ==> Word(operands[i].0) && Word(operands[i].1)
    requires params.None? ==> |operands| == 1
    requires params.Some? ==> |params.value| == |operands| - 1
    requires params.Some? ==>
      forall i :: 0 <= i < |params.value| ==> operands[i + 1].0 == LlvmType(t, params.value[i].0)
    ensures " " + FilterSignature(CallSignature(operands), "") + "*" == ArgList(t, params, false)
  {
    if |operands| >= 2 {
      CallCastWithArguments(t, params.value, operands);
    } else {
      FilterCallSignature(operands);
      if params.Some? {
        assert params.value == [];
        assert ArgPieces(t, params.value, false) == "";
      }
    }
  }
}
