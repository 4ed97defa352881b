/** What a source tree means, as the parser builds it: names stand for the cells of the open scopes, every
  * cell and every value has a type, and a literal takes its type from where it stands. Whatever breaks a
  * rule of the language is a fault of the run. Nothing here depends on what the analyser makes of the tree. */
module Meaning {
  import opened Values
  import opened Arith
  import opened Mangling
  import A = Analysis
  import C = Checked
  import S = Syntax

  /** A file: the prefix of its link names, the functions it imports and those it declares. */
  datatype Source = Source(prefix: Option<string>, imported: A.Funcs, functions: seq<S.Stmt>)

  /** A variable; one that was declared without a value holds none. */
  datatype Cell = Cell(t: ValueType, isMutable: bool, value: Option<int>)

  type Scope = map<string, Cell>

  /** The open scopes, the innermost last. */
  type Scopes = seq<Scope>

  datatype Reason =
    | Undeclared(x: string)
    | Redeclared(x: string)
    | Immutable(x: string)
    | Unassigned(x: string)
    | IllTyped
    | Arithmetic
    | UnknownFunction
    | MissingReturn

  datatype ExprResult = Value(t: ValueType, v: int, scopes: Scopes) | ExprFault(reason: Reason) | ExprTimeout
  datatype ArgsResult = Args(vs: seq<int>, scopes: Scopes) | ArgsFault(reason: Reason) | ArgsTimeout
  datatype StmtResult = Next(scopes: Scopes) | Returned(v: int) | Fault(reason: Reason) | Timeout

  // ---------------------------------------------------------------- variables

  /** The innermost scope that has the name. */
  function ScopeOf(scopes: Scopes, name: string): (r: Option<nat>)
    ensures r.Some? ==> r.value < |scopes| && name in scopes[r.value] &&
                        forall i :: r.value < i < |scopes| ==> name !in scopes[i]
    ensures r.None? ==> forall i :: 0 <= i < |scopes| ==> name !in scopes[i]
  {
    if |scopes| == 0 then None
    else if name in scopes[|scopes| - 1] then Some(|scopes| - 1)
    else ScopeOf(scopes[..|scopes| - 1], name)
  }

  function CellOf(scopes: Scopes, name: string): Option<Cell> {
    match ScopeOf(scopes, name)
    case Some(i) => Some(scopes[i][name])
    case None => None
  }

  function Store(scopes: Scopes, name: string, v: int): Scopes {
    match ScopeOf(scopes, name)
    case Some(i) => scopes[i := scopes[i][name := scopes[i][name].(value := Some(v))]]
    case None => scopes
  }

  function Declare(scopes: Scopes, name: string, cell: Cell): Scopes {
    if |scopes| == 0 then scopes else scopes[|scopes| - 1 := scopes[|scopes| - 1][name := cell]]
  }

  function Close(scopes: Scopes): Scopes {
    if |scopes| == 0 then [] else scopes[..|scopes| - 1]
  }

  function Bind(params: seq<S.Param>, vs: seq<int>): Scope
    requires |params| == |vs|
  {
    if |params| == 0 then map[]
    else
      var n := |params| - 1;
      var q := params[n];
      Bind(params[..n], vs[..n])[q.name := Cell(q.t, q.quals.isMutable, Some(vs[n]))]
  }

  // ---------------------------------------------------------------- functions

  datatype Signature = Signature(link: string, params: seq<ValueType>, ret: ValueType)

  function LinkName(prefix: Option<string>, f: S.Stmt): string
    requires f.FuncDecl?
  {
    MangleFunction(prefix, f.name, f.quals.isExtern)
  }

  function TypesOf(params: seq<S.Param>): (ts: seq<ValueType>)
    ensures |ts| == |params|
  {
    if |params| == 0 then [] else [params[0].t] + TypesOf(params[1..])
  }

  /** A function name: imported, or else declared in the file. */
  function SignatureOf(prefix: Option<string>, imported: A.Funcs, fs: seq<S.Stmt>, name: string): Option<Signature>
    decreases |imported|, |fs|
  {
    if |imported| > 0 then
      if imported[0].name == name then Some(Signature(imported[0].linkName, imported[0].params, imported[0].ret))
      else SignatureOf(prefix, imported[1..], fs, name)
    else if |fs| > 0 then
      if fs[0].FuncDecl? && fs[0].name == name then
        Some(Signature(LinkName(prefix, fs[0]), TypesOf(fs[0].params), fs[0].ret))
      else SignatureOf(prefix, [], fs[1..], name)
    else None
  }

  /** The function a linker finds under a link name. */
  function Definition(prefix: Option<string>, fs: seq<S.Stmt>, link: string): (r: Option<S.Stmt>)
    ensures r.Some? ==> r.value in fs && r.value.FuncDecl? && r.value.definition.Some? &&
                        LinkName(prefix, r.value) == link
    decreases |fs|
  {
    if |fs| == 0 then None
    else if fs[0].FuncDecl? && fs[0].definition.Some? && LinkName(prefix, fs[0]) == link then Some(fs[0])
    else Definition(prefix, fs[1..], link)
  }

  // ---------------------------------------------------------------- types

  predicate IsNumeral(e: S.Expr) {
    e.Number? || e.Boolean?
  }

  /** Both signed, both unsigned or both `bool`. */
  predicate OneKind(a: ValueType, b: ValueType) {
    (IsSigned(a) && IsSigned(b)) || (IsUnsigned(a) && IsUnsigned(b)) || (a.Bool? && b.Bool?)
  }

  /** A value of type `from` may be stored at type `to`. */
  predicate Widens(from: ValueType, to: ValueType) {
    OneKind(from, to) && WidthBits(from) <= WidthBits(to)
  }

  /** What an operator asks of its operands; a shift asks nothing. */
  predicate OperandsFit(op: BinaryOp, t: ValueType, u: ValueType) {
    if IsLogical(op) then t.Bool? && u.Bool?
    else if IsRelational(op) then t == u && IsScalar(t)
    else if IsShift(op) then true
    else (IsSigned(t) && IsSigned(u)) || (IsUnsigned(t) && IsUnsigned(u))
  }

  function ResultType(op: BinaryOp, t: ValueType, u: ValueType): ValueType {
    if IsLogical(op) || IsRelational(op) then Bool
    else if IsShift(op) || WidthBits(u) <= WidthBits(t) then t
    else u
  }

  /** The type an operand is wanted at, in a place that wants `want`. */
  function OperandWant(op: BinaryOp, want: ValueType): ValueType {
    if IsLogical(op) then Bool else if IsRelational(op) || !IsInteger(want) then Unresolved else want
  }

  function UnaryWant(kind: S.UnaryKind, want: ValueType): ValueType {
    if kind.Bang? then Bool else if kind.Minus? && !IsSigned(want) then I64 else want
  }

  /** Anything becomes itself, and any integer any other. */
  predicate CastAllowed(from: ValueType, to: ValueType) {
    (from == to && to != Unresolved) || (IsInteger(from) && IsInteger(to))
  }

  // ---------------------------------------------------------------- expressions

  /** An operation is carried out in the type of its left operand. */
  function Operate(op: BinaryOp, t: ValueType, a: int, u: ValueType, b: int, scopes: Scopes): ExprResult {
    if !OperandsFit(op, t, u) then ExprFault(IllTyped)
    else
      match Apply(op, t, a, b)
      case Some(v) => Value(ResultType(op, t, u), v, scopes)
      case None => ExprFault(Arithmetic)
  }

  /** A number is of the type wanted, if that is an integer type; it must be in its range. */
  function NumberValue(t: ValueType, v: int, scopes: Scopes): ExprResult {
    if InRange(t, v) then Value(t, v, scopes) else ExprFault(IllTyped)
  }

  /** `++x`, `--x`, `x++` and `x--`. */
  function Count(kind: S.UnaryKind, operand: S.Expr, scopes: Scopes): ExprResult {
    if !operand.Identifier? then ExprFault(IllTyped)
    else
      match CellOf(scopes, operand.name)
      case None => ExprFault(Undeclared(operand.name))
      case Some(Cell(t, isMutable, value)) =>
        if value.None? then ExprFault(Unassigned(operand.name))
        else if !isMutable then ExprFault(Immutable(operand.name))
        else if !IsInteger(t) then ExprFault(IllTyped)
        else
          match kind
          case PreInc => Value(t, Wrap(t, value.value + 1), Store(scopes, operand.name, Wrap(t, value.value + 1)))
          case PreDec => Value(t, Wrap(t, value.value - 1), Store(scopes, operand.name, Wrap(t, value.value - 1)))
          case PostInc => Value(t, value.value, Store(scopes, operand.name, Wrap(t, value.value + 1)))
          case PostDec => Value(t, value.value, Store(scopes, operand.name, Wrap(t, value.value - 1)))
          case _ => ExprFault(IllTyped)
  }

  /** `-`, `~` and `!` of a value. */
  function Negated(kind: S.UnaryKind, r: ExprResult): ExprResult {
    match r
    case Value(t, v, scopes) =>
      (match kind
       case Minus => if IsSigned(t) then Value(t, ApplyUnary(Negate, t, v), scopes) else ExprFault(IllTyped)
       case Tilde => if IsInteger(t) then Value(t, ApplyUnary(BitNot, t, v), scopes) else ExprFault(IllTyped)
       case Bang => if t.Bool? then Value(Bool, ApplyUnary(LogNot, t, v), scopes) else ExprFault(IllTyped)
       case _ => ExprFault(IllTyped))
    case other => other
  }

  function Eval(src: Source, e: S.Expr, want: ValueType, scopes: Scopes, fuel: C.Fuel): ExprResult
    decreases fuel.calls, fuel.loops, e, 1
  {
    match e
    case Number(n) => NumberValue(if IsInteger(want) then want else I64, n, scopes)
    case Boolean(b) => Value(Bool, Flag(b), scopes)
    case Identifier(name) =>
      (match CellOf(scopes, name)
       case None => ExprFault(Undeclared(name))
       case Some(Cell(t, _, Some(v))) => Value(t, v, scopes)
       case Some(Cell(_, _, None)) => ExprFault(Unassigned(name)))
    case Binary(op, left, right) =>
      var w := OperandWant(op, want);
      if IsRelational(op) && IsNumeral(left) && !IsNumeral(right) then
        // a literal on the left of a comparison takes the type of the right operand
        (match Eval(src, right, w, scopes, fuel)
         case Value(u, b, scopes1) =>
           (match Eval(src, left, u, scopes1, fuel)
            case Value(t, a, scopes2) => Operate(op, t, a, u, b, scopes2)
            case other => other)
         case other => other)
      else
        (match Eval(src, left, w, scopes, fuel)
         case Value(t, a, scopes1) =>
           (match Eval(src, right, if IsShift(op) then w else t, scopes1, fuel)
            case Value(u, b, scopes2) => Operate(op, t, a, u, b, scopes2)
            case other => other)
         case other => other)
    case Unary(kind, a) =>
      if kind.Minus? && a.Number? then
        NumberValue(if IsSigned(want) then want else I64, -(a.value as int), scopes)
      else if kind.Minus? || kind.Tilde? || kind.Bang? then
        Negated(kind, Eval(src, a, UnaryWant(kind, want), scopes, fuel))
      else Count(kind, a, scopes)
    case Cast(a, target) =>
      (match Eval(src, a, Unresolved, scopes, fuel)
       case Value(t, v, scopes1) =>
         if CastAllowed(t, target) then Value(target, Convert(target, v), scopes1) else ExprFault(IllTyped)
       case other => other)
    case Call(callee, args) =>
      (match SignatureOf(src.prefix, src.imported, src.functions, callee)
       case None => ExprFault(Undeclared(callee))
       case Some(sig) =>
         if |args| != |sig.params| then ExprFault(IllTyped)
         else
           match EvalArgs(src, args, sig.params, scopes, fuel)
           case Args(vs, scopes1) =>
             if fuel.calls == 0 then ExprTimeout
             else
               (match Invoke(src, sig.link, vs, fuel.(calls := fuel.calls - 1))
                case Value(_, v, _) => Value(sig.ret, v, scopes1)
                case other => other)
           case ArgsFault(r) => ExprFault(r)
           case ArgsTimeout => ExprTimeout)
  }

  /** Arguments are evaluated left to right; one of another type is converted to that of its parameter. */
  function EvalArgs(src: Source, args: seq<S.Expr>, params: seq<ValueType>, scopes: Scopes,
      fuel: C.Fuel): (r: ArgsResult)
    requires |args| == |params|
    ensures r.Args? ==> |r.vs| == |args|
    decreases fuel.calls, fuel.loops, args, 0
  {
    if |args| == 0 then Args([], scopes)
    else
      match Eval(src, args[0], params[0], scopes, fuel)
      case Value(t, v, scopes1) =>
        if !Widens(t, params[0]) then ArgsFault(IllTyped)
        else
          (match EvalArgs(src, args[1..], params[1..], scopes1, fuel)
           case Args(vs, scopes2) => Args([if t == params[0] then v else Convert(params[0], v)] + vs, scopes2)
           case other => other)
      case ExprFault(r) => ArgsFault(r)
      case ExprTimeout => ArgsTimeout
  }

  /** A call opens a scope for the parameters. */
  function Invoke(src: Source, link: string, vs: seq<int>, fuel: C.Fuel): ExprResult
    decreases fuel.calls, fuel.loops
  {
    match Definition(src.prefix, src.functions, link)
    case None => ExprFault(UnknownFunction)
    case Some(f) =>
      if |vs| != |f.params| then ExprFault(UnknownFunction)
      else
        match Exec(src, f.ret, f.definition.value, [map[], Bind(f.params, vs)], fuel)
        case Returned(v) => Value(f.ret, v, [])
        case Next(_) => if f.ret.Void? then Value(Void, 0, []) else ExprFault(MissingReturn)
        case Fault(r) => ExprFault(r)
        case Timeout => ExprTimeout
  }

  // ---------------------------------------------------------------- statements

  /** A statement of a function that returns `ret`. */
  function Exec(src: Source, ret: ValueType, s: S.Stmt, scopes: Scopes, fuel: C.Fuel): StmtResult
    decreases fuel.calls, fuel.loops, s, 1
  {
    match s
    case Decl(quals, t, name, init) =>
      if |scopes| == 0 || name in scopes[|scopes| - 1] then Fault(Redeclared(name))
      else
        (match init
         case None => Next(Declare(scopes, name, Cell(t, quals.isMutable, None)))
         case Some(e) =>
           (match Eval(src, e, t, scopes, fuel)
            case Value(u, v, scopes1) =>
              if Widens(u, t) then Next(Declare(scopes1, name, Cell(t, quals.isMutable, Some(Convert(t, v)))))
              else Fault(IllTyped)
            case ExprFault(r) => Fault(r)
            case ExprTimeout => Timeout))
    case Assign(name, e) =>
      (match CellOf(scopes, name)
       case None => Fault(Undeclared(name))
       case Some(Cell(t, isMutable, _)) =>
         if !isMutable then Fault(Immutable(name))
         else
           match Eval(src, e, t, scopes, fuel)
           case Value(u, v, scopes1) =>
             if Widens(u, t) then Next(Store(scopes1, name, Convert(t, v))) else Fault(IllTyped)
           case ExprFault(r) => Fault(r)
           case ExprTimeout => Timeout)
    case Block(stmts) =>
      (match ExecAll(src, ret, stmts, scopes + [map[]], fuel)
       case Next(scopes1) => Next(Close(scopes1))
       case other => other)
    case If(cond, thn, els) =>
      (match Eval(src, cond, Bool, scopes, fuel)
       case Value(t, v, scopes1) =>
         if !t.Bool? then Fault(IllTyped)
         else if v != 0 then Exec(src, ret, thn, scopes1, fuel)
         else if els.Some? then Exec(src, ret, els.value, scopes1, fuel)
         else Next(scopes1)
       case ExprFault(r) => Fault(r)
       case ExprTimeout => Timeout)
    case While(cond, body) =>
      if fuel.loops == 0 then Timeout
      else
        (match Eval(src, cond, Bool, scopes, fuel)
         case Value(t, v, scopes1) =>
           if !t.Bool? then Fault(IllTyped)
           else if v == 0 then Next(scopes1)
           else
             (match Exec(src, ret, body, scopes1, fuel)
              case Next(scopes2) => Exec(src, ret, s, scopes2, fuel.(loops := fuel.loops - 1))
              case other => other)
         case ExprFault(r) => Fault(r)
         case ExprTimeout => Timeout)
    case Return(None) => if ret.Void? then Returned(0) else Fault(IllTyped)
    case Return(Some(e)) =>
      (match Eval(src, e, ret, scopes, fuel)
       case Value(t, v, _) => if Widens(t, ret) then Returned(v) else Fault(IllTyped)
       case ExprFault(r) => Fault(r)
       case ExprTimeout => Timeout)
    case ExprStmt(e) =>
      (match Eval(src, e, Unresolved, scopes, fuel)
       case Value(_, _, scopes1) => Next(scopes1)
       case ExprFault(r) => Fault(r)
       case ExprTimeout => Timeout)
    case FuncDecl(_, _, _, _, _) => Fault(IllTyped)
  }

  function ExecAll(src: Source, ret: ValueType, stmts: seq<S.Stmt>, scopes: Scopes, fuel: C.Fuel): StmtResult
    decreases fuel.calls, fuel.loops, stmts, 0
  {
    if |stmts| == 0 then Next(scopes)
    else
      match Exec(src, ret, stmts[0], scopes, fuel)
      case Next(scopes1) => ExecAll(src, ret, stmts[1..], scopes1, fuel)
      case other => other
  }
}
