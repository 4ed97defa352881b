/** The semantic analyser: it resolves names to ids and types to expressions, follows what is
  * initialized on every path, and builds the checked tree. There is no result once an error has
  * been reported; the functions give the tree of an accepted program. */
module Analysis {
  import opened Values
  import opened Arith
  import opened Scopes
  import opened Constants
  import opened Mangling
  import opened Endings
  import C = Checked
  import S = Syntax

  datatype FuncSymbol = FuncSymbol(name: string, linkName: string, ret: ValueType, params: seq<ValueType>,
      defined: bool)

  type Funcs = seq<FuncSymbol>

  function FindFunc(funcs: Funcs, name: string): (r: Option<nat>)
    ensures r.Some? ==> r.value < |funcs| && funcs[r.value].name == name
  {
    if |funcs| == 0 then None
    else if funcs[0].name == name then Some(0)
    else match FindFunc(funcs[1..], name)
         case Some(i) => Some(i + 1)
         case None => None
  }

  /** A declaration or definition added to the table, unless it conflicts with an earlier one. */
  function InsertFunc(funcs: Funcs, f: FuncSymbol, isExtern: bool): Option<Funcs> {
    if isExtern && f.defined then None
    else
      match FindFunc(funcs, f.name)
      case None => Some(funcs + [f])
      case Some(i) =>
        if f.ret != funcs[i].ret || f.params != funcs[i].params then None
        else if f.defined && funcs[i].defined then None
        else Some(funcs[i := funcs[i].(defined := f.defined || funcs[i].defined)])
  }

  // ---------------------------------------------------------------- expressions

  predicate IsLiteral(e: S.Expr) {
    e.Number? || e.Boolean?
  }

  function OperandExpected(op: BinaryOp, expected: ValueType): ValueType {
    if IsLogical(op) then Bool
    else if IsRelational(op) then Unresolved
    else if !IsInteger(expected) then Unresolved
    else expected
  }

  /** An implicit conversion keeps the value: same group, no narrower. */
  predicate Converts(from: ValueType, to: ValueType) {
    SameGroup(from, to) && WidthBits(from) <= WidthBits(to)
  }

  /** A binary node over resolved operands. */
  function FinishBinary(op: BinaryOp, l: C.Expr, r: C.Expr): Option<C.Expr> {
    if l.t == Unresolved || r.t == Unresolved then None
    else if IsLogical(op) then
      if l.t != Bool || r.t != Bool then None else Some(C.Binary(Bool, op, l, r))
    else if IsShift(op) then
      (match EvalInt(r)
       case Some(v) => if v < 0 || v >= WidthBits(l.t) then None else Some(C.Binary(l.t, op, l, r))
       case None => Some(C.Binary(l.t, op, l, r)))
    else if IsRelational(op) then
      if !SameGroup(l.t, r.t) || WidthBits(l.t) != WidthBits(r.t) then None else Some(C.Binary(Bool, op, l, r))
    else if !SameGroup(l.t, r.t) || !IsInteger(l.t) then None
    else
      var t := Promote(l.t, r.t);
      var e := C.Binary(t, op, l, r);
      if op.Div? && IsConstantZero(r, IsSigned(t)) then None
      else if !NoOverflow(e, t) then None
      else Some(e)
  }

  function ResolveNumber(n: nat, expected: ValueType): Option<C.Expr> {
    var t := if IsInteger(expected) then expected else I64;
    if n > UINT64_MAX || !UintLiteralFits(t, n) then None else Some(C.Literal(t, n))
  }

  function ResolveNegatedNumber(n: nat, expected: ValueType): Option<C.Expr> {
    if IsUnsigned(expected) then None
    else
      var t := if IsSigned(expected) then expected else I64;
      if n > UINT64_MAX || !NegatedLiteralFits(t, n) then None else Some(C.Unary(t, Negate, C.Literal(t, n)))
  }

  function ResolveIdentifier(stack: Stack, name: string): Option<C.Expr> {
    match Lookup(stack, name)
    case None => None
    case Some(sym) => if !sym.initialized then None else Some(C.Ident(sym.t, name, sym.id))
  }

  function ResolveIncrement(stack: Stack, kind: S.UnaryKind, operand: S.Expr): Option<C.Expr> {
    if !operand.Identifier? then None
    else
      match ResolveIdentifier(stack, operand.name)
      case None => None
      case Some(a) =>
        if !IsInteger(a.t) || !Lookup(stack, operand.name).value.isMutable then None
        else Some(C.Increment(a.t, kind.PreInc? || kind.PostInc?, kind.PostInc? || kind.PostDec?, operand.name, a.id))
  }

  function ResolveExpr(funcs: Funcs, stack: Stack, e: S.Expr, expected: ValueType): Option<C.Expr>
    decreases e, 1
  {
    match e
    case Number(n) => ResolveNumber(n, expected)
    case Boolean(b) => Some(C.Literal(Bool, Flag(b)))
    case Identifier(name) => ResolveIdentifier(stack, name)
    case Binary(op, left, right) =>
      var want := OperandExpected(op, expected);
      if IsRelational(op) && IsLiteral(left) && !IsLiteral(right) then
        (match ResolveExpr(funcs, stack, right, want)
         case None => None
         case Some(r) =>
           match ResolveExpr(funcs, stack, left, if r.t != Unresolved then r.t else want)
           case None => None
           case Some(l) => FinishBinary(op, l, r))
      else
        (match ResolveExpr(funcs, stack, left, want)
         case None => None
         case Some(l) =>
           match ResolveExpr(funcs, stack, right, if !IsShift(op) && l.t != Unresolved then l.t else want)
           case None => None
           case Some(r) => FinishBinary(op, l, r))
    case Unary(Minus, a) =>
      if a.Number? then ResolveNegatedNumber(a.value, expected)
      else
        (match ResolveExpr(funcs, stack, a, if IsSigned(expected) then expected else I64)
         case None => None
         case Some(c) => if !IsSigned(c.t) then None else Some(C.Unary(c.t, Negate, c)))
    case Unary(Tilde, a) =>
      (match ResolveExpr(funcs, stack, a, expected)
       case None => None
       case Some(c) => if !IsInteger(c.t) then None else Some(C.Unary(c.t, BitNot, c)))
    case Unary(Bang, a) =>
      (match ResolveExpr(funcs, stack, a, Bool)
       case None => None
       case Some(c) => if c.t != Bool then None else Some(C.Unary(Bool, LogNot, c)))
    case Unary(kind, a) => ResolveIncrement(stack, kind, a)
    case Cast(a, target) =>
      (match ResolveExpr(funcs, stack, a, Unresolved)
       case None => None
       case Some(c) => if !Castable(c.t, target) then None else Some(C.Cast(target, c)))
    case Call(callee, args) =>
      (match FindFunc(funcs, callee)
       case None => None
       case Some(i) =>
         if |args| != |funcs[i].params| then None
         else
           match ResolveArgs(funcs, stack, args, funcs[i].params)
           case None => None
           case Some(cs) => Some(C.Call(funcs[i].ret, funcs[i].linkName, cs)))
  }

  /** Arguments take the types of the parameters; a narrower one of the same group is cast. */
  function ResolveArgs(funcs: Funcs, stack: Stack, args: seq<S.Expr>, params: seq<ValueType>): (r: Option<seq<C.Expr>>)
    requires |args| == |params|
    ensures r.Some? ==> |r.value| == |args|
    decreases args, 0
  {
    if |args| == 0 then Some([])
    else
      match ResolveExpr(funcs, stack, args[0], params[0])
      case None => None
      case Some(c) =>
        if !Converts(c.t, params[0]) then None
        else
          match ResolveArgs(funcs, stack, args[1..], params[1..])
          case None => None
          case Some(rest) => Some([if c.t == params[0] then c else C.Cast(params[0], c)] + rest)
  }

  // ---------------------------------------------------------------- statements

  datatype State = State(stack: Stack, nextId: nat)

  /** What the function being analysed fixes. */
  datatype Context = Context(funcs: Funcs, params: seq<string>, ret: ValueType)

  datatype Done<T> = Done(st: State, node: T)

  function PopStack(stack: Stack): Stack {
    if |stack| == 0 then [] else stack[..|stack| - 1]
  }

  function ResolveDecl(cx: Context, st: State, quals: S.Qualifiers, t: ValueType, name: string,
      init: Option<S.Expr>): Option<Done<C.Stmt>> {
    if t.Void? || name in cx.params || quals.isPublic || quals.isExtern then None
    else
      match ResolveInit(cx, st, t, init)
      case None => None
      case Some(value) =>
        match Insert(st.stack, Symbol(name, t, quals.isMutable, 0, 0, init.Some?), st.nextId)
        case None => None
        case Some(stack) => Some(Done(State(stack, st.nextId + 1), C.Decl(t, name, st.nextId, value)))
  }

  function ResolveInit(cx: Context, st: State, t: ValueType, init: Option<S.Expr>): Option<Option<C.Expr>> {
    match init
    case None => Some(None)
    case Some(e) =>
      match ResolveExpr(cx.funcs, st.stack, e, t)
      case None => None
      case Some(c) => if !Converts(c.t, t) then None else Some(Some(c))
  }

  function ResolveAssign(cx: Context, st: State, name: string, value: S.Expr): Option<Done<C.Stmt>> {
    match Lookup(st.stack, name)
    case None => None
    case Some(sym) =>
      match ResolveExpr(cx.funcs, st.stack, value, sym.t)
      case None => None
      case Some(c) =>
        if !Converts(c.t, sym.t) || !sym.isMutable then None
        else Some(Done(State(Replace(st.stack, name, true), st.nextId), C.Assign(sym.t, name, sym.id, c)))
  }

  function ResolveReturn(cx: Context, st: State, result: Option<S.Expr>): Option<Done<C.Stmt>> {
    match result
    case None => if cx.ret.Void? then Some(Done(st, C.Return(None))) else None
    case Some(e) =>
      if cx.ret.Void? then None
      else
        match ResolveExpr(cx.funcs, st.stack, e, cx.ret)
        case None => None
        case Some(c) => if !Converts(c.t, cx.ret) then None else Some(Done(st, C.Return(Some(c))))
  }

  function ResolveCondition(cx: Context, st: State, cond: S.Expr): Option<C.Expr> {
    match ResolveExpr(cx.funcs, st.stack, cond, Bool)
    case None => None
    case Some(c) => if c.t != Bool then None else Some(c)
  }

  /** What a branch leaves initialized; after one that always returns, everything. */
  function AfterBranch(stack: Stack, always: bool): seq<bool> {
    if always then Filled(Flags(stack), true) else Flags(stack)
  }

  function ResolveStmt(cx: Context, st: State, s: S.Stmt): Option<Done<C.Stmt>>
    decreases s, 1
  {
    match s
    case Decl(quals, t, name, init) => ResolveDecl(cx, st, quals, t, name, init)
    case Assign(name, value) => ResolveAssign(cx, st, name, value)
    case Block(stmts) =>
      (match ResolveAll(cx, st.(stack := st.stack + [[]]), stmts)
       case None => None
       case Some(d) => Some(Done(d.st.(stack := PopStack(d.st.stack)), C.Block(d.node))))
    case If(cond, thn, els) =>
      (match ResolveCondition(cx, st, cond)
       case None => None
       case Some(c) =>
         match ResolveStmt(cx, st, thn)
         case None => None
         case Some(a) =>
           var afterThen := AfterBranch(a.st.stack, AlwaysReturns(a.node));
           var st1 := a.st.(stack := WithFlags(a.st.stack, Flags(st.stack)));
           match els
           case None =>
             var stack := WithFlags(st1.stack, Intersect(afterThen, Flags(st1.stack)));
             Some(Done(st1.(stack := stack), C.If(c, a.node, None)))
           case Some(branch) =>
             match ResolveStmt(cx, st1, branch)
             case None => None
             case Some(b) =>
               var afterElse := AfterBranch(b.st.stack, AlwaysReturns(b.node));
               var stack := WithFlags(b.st.stack, Intersect(afterThen, afterElse));
               Some(Done(b.st.(stack := stack), C.If(c, a.node, Some(b.node)))))
    case While(cond, body) =>
      (match ResolveCondition(cx, st, cond)
       case None => None
       case Some(c) =>
         match ResolveStmt(cx, st, body)
         case None => None
         case Some(b) => Some(Done(b.st.(stack := WithFlags(b.st.stack, Flags(st.stack))), C.While(c, b.node))))
    case Return(result) => ResolveReturn(cx, st, result)
    case ExprStmt(e) =>
      (match ResolveExpr(cx.funcs, st.stack, e, Unresolved)
       case None => None
       case Some(c) => Some(Done(st, C.ExprStmt(c))))
    case FuncDecl(_, _, _, _, _) => None
  }

  function ResolveAll(cx: Context, st: State, stmts: seq<S.Stmt>): Option<Done<seq<C.Stmt>>>
    decreases stmts, 0
  {
    if |stmts| == 0 then Some(Done(st, []))
    else
      match ResolveStmt(cx, st, stmts[0])
      case None => None
      case Some(a) =>
        match ResolveAll(cx, a.st, stmts[1..])
        case None => None
        case Some(rest) => Some(Done(rest.st, [a.node] + rest.node))
  }

  // ---------------------------------------------------------------- functions

  predicate DistinctNames(params: seq<S.Param>) {
    forall i, j :: 0 <= j < i < |params| ==> params[i].name != params[j].name
  }

  function ParamTypes(params: seq<S.Param>): (ts: seq<ValueType>)
    ensures |ts| == |params| && forall i :: 0 <= i < |ts| ==> ts[i] == params[i].t
  {
    seq(|params|, i requires 0 <= i < |params| => params[i].t)
  }

  function ParamNames(params: seq<S.Param>): (ns: seq<string>)
    ensures |ns| == |params| && forall i :: 0 <= i < |ns| ==> ns[i] == params[i].name
  {
    seq(|params|, i requires 0 <= i < |params| => params[i].name)
  }

  /** The innermost scope with the parameters declared in it, and their ids. */
  function DeclareParams(st: State, params: seq<S.Param>): Option<Done<seq<C.Param>>>
    decreases |params|
  {
    if |params| == 0 then Some(Done(st, []))
    else
      var p := params[0];
      match Insert(st.stack, Symbol(p.name, p.t, p.quals.isMutable, 0, 0, true), st.nextId)
      case None => None
      case Some(stack) =>
        match DeclareParams(State(stack, st.nextId + 1), params[1..])
        case None => None
        case Some(rest) => Some(Done(rest.st, [C.Param(p.name, st.nextId, p.t)] + rest.node))
  }

  /** A function declaration or definition and the table it leaves. */
  datatype FunctionDone = FunctionDone(funcs: Funcs, st: State, node: C.Function)

  function Undeclared(params: seq<S.Param>): (r: seq<C.Param>)
    ensures |r| == |params|
  {
    seq(|params|, i requires 0 <= i < |params| => C.Param(params[i].name, 0, params[i].t))
  }

  function ResolveFunction(prefix: Option<string>, funcs: Funcs, st: State, f: S.Stmt): Option<FunctionDone>
    requires f.FuncDecl?
  {
    var link := MangleFunction(prefix, f.name, f.quals.isExtern);
    var symbol := FuncSymbol(f.name, link, f.ret, ParamTypes(f.params), f.definition.Some?);
    if f.quals.isMutable || (f.quals.isExtern && f.quals.isPublic) then None
    else if (exists i :: 0 <= i < |f.params| && f.params[i].t.Void?) || !DistinctNames(f.params) then None
    else
      match InsertFunc(funcs, symbol, f.quals.isExtern)
      case None => None
      case Some(table) =>
        if f.definition.None? then Some(FunctionDone(table, st, C.Function(link, Undeclared(f.params), f.ret, None)))
        else ResolveBody(table, link, st, f)
  }

  function ResolveBody(funcs: Funcs, link: string, st: State, f: S.Stmt): Option<FunctionDone>
    requires f.FuncDecl? && f.definition.Some?
  {
    match DeclareParams(st.(stack := st.stack + [[]]), f.params)
    case None => None
    case Some(d) =>
      match ResolveStmt(Context(funcs, ParamNames(f.params), f.ret), d.st, f.definition.value)
      case None => None
      case Some(b) =>
        if !f.ret.Void? && !AlwaysReturns(b.node) then None
        else Some(FunctionDone(funcs, b.st.(stack := PopStack(b.st.stack)),
                               C.Function(link, d.node, f.ret, Some(b.node))))
  }

  /** All functions of a file, in order. */
  function ResolveProgram(prefix: Option<string>, funcs: Funcs, st: State, fs: seq<S.Stmt>): Option<C.Program>
    requires forall i :: 0 <= i < |fs| ==> fs[i].FuncDecl?
    decreases |fs|
  {
    if |fs| == 0 then Some([])
    else
      match ResolveFunction(prefix, funcs, st, fs[0])
      case None => None
      case Some(d) =>
        match ResolveProgram(prefix, d.funcs, d.st, fs[1..])
        case None => None
        case Some(rest) => Some([d.node] + rest)
  }

  /** The analysis of a file: no variables are open outside functions. */
  function Analyze(prefix: Option<string>, imported: Funcs, fs: seq<S.Stmt>): Option<C.Program>
    requires forall i :: 0 <= i < |fs| ==> fs[i].FuncDecl?
  {
    ResolveProgram(prefix, imported, State([[]], 0), fs)
  }
}
