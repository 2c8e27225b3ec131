/** The program tree both passes walk, one constructor per node kind the
    visitors handle. Type tags are "array", "boolean", "integer" or a class name. */
module Syntax {
  import opened Options

  /** Integer literals are Java `int` values. */
  type i32 = x: int | -0x8000_0000 <= x < 0x8000_0000

  datatype BinaryOp = Plus | Minus | Times | Less

  datatype Expr =
    | IntLit(value: i32)
    | BoolLit(truth: bool)
    | Ident(name: string)
    | This
    | NewArray(size: Expr)
    | New(className: string)
    | Paren(inner: Expr)
    | Binary(op: BinaryOp, left: Expr, right: Expr)
    | And(left: Expr, right: Expr)
    | Not(operand: Expr)
    | ArrayLookup(arr: Expr, index: Expr)
    | Send(receiver: Expr, methodName: string, args: seq<Expr>)

  datatype Stmt =
    | Block(stmts: seq<Stmt>)
    | Assign(id: string, value: Expr)
    | ArrayAssign(id: string, index: Expr, value: Expr)
    | If(cond: Expr, thenBranch: Stmt, elseBranch: Stmt)
    | While(cond: Expr, loopBody: Stmt)
    | Print(value: Expr)

  datatype VarDecl = VarDecl(typeTag: string, name: string)

  datatype MethodDecl = MethodDecl(
    returnType: string,
    name: string,
    params: seq<VarDecl>,
    locals: seq<VarDecl>,
    body: seq<Stmt>,
    result: Expr)

  datatype ClassDecl = ClassDecl(name: string, parent: Option<string>, fields: seq<VarDecl>, methods: seq<MethodDecl>)

  datatype MainClass = MainClass(name: string, locals: seq<VarDecl>, body: seq<Stmt>)

  datatype Program = Program(main: MainClass, classes: seq<ClassDecl>)

  /** How many message sends an expression contains. */
  function SendCount(e: Expr): nat
  {
    match e
    case NewArray(size) => SendCount(size)
    case Paren(inner) => SendCount(inner)
    case Binary(_, l, r) => SendCount(l) + SendCount(r)
    case And(l, r) => SendCount(l) + SendCount(r)
    case Not(x) => SendCount(x)
    case ArrayLookup(a, i) => SendCount(a) + SendCount(i)
    case Send(recv, _, args) => SendCount(recv) + 1 + SendCountAll(args)
    case _ => 0
  }

  function SendCountAll(es: seq<Expr>): nat
  {
    if |es| == 0 then 0 else SendCount(es[0]) + SendCountAll(es[1..])
  }

  function StmtSendCount(s: Stmt): nat
  {
    match s
    case Block(body) => StmtsSendCount(body)
    case Assign(_, v) => SendCount(v)
    case ArrayAssign(_, i, v) => SendCount(i) + SendCount(v)
    case If(c, t, e) => SendCount(c) + StmtSendCount(t) + StmtSendCount(e)
    case While(c, b) => SendCount(c) + StmtSendCount(b)
    case Print(v) => SendCount(v)
  }

  function StmtsSendCount(ss: seq<Stmt>): nat
  {
    if |ss| == 0 then 0 else StmtSendCount(ss[0]) + StmtsSendCount(ss[1..])
  }

  function MethodSendCount(m: MethodDecl): nat
  {
    StmtsSendCount(m.body) + SendCount(m.result)
  }

  function MethodsSendCount(ms: seq<MethodDecl>): nat
  {
    if |ms| == 0 then 0 else MethodSendCount(ms[0]) + MethodsSendCount(ms[1..])
  }

  function ClassesSendCount(cs: seq<ClassDecl>): nat
  {
    if |cs| == 0 then 0 else MethodsSendCount(cs[0].methods) + ClassesSendCount(cs[1..])
  }

  /** Every message send of a program, in both passes' traversal order. */
  function ProgramSendCount(p: Program): nat
  {
    StmtsSendCount(p.main.body) + ClassesSendCount(p.classes)
  }
}
