/** The rules a file must keep to be accepted, on the tree the parser builds: types, qualifiers, declarations before
  * uses, variables that surely have a value where they are read, constants that fit, and results on every way to
  * the end of a function. The scopes are those of a run in which every value is 0: only whether a variable has
  * one counts. */
module Rules {
  import opened Values
  import opened Arith
  import opened Constants
  import A = Analysis
  import M = Meaning
  import S = Syntax

  // ---------------------------------------------------------------- constants

  /** The value of a constant expression in 64 signed bits, if it and its parts have one. */
  function IntOf(e: S.Expr): Option<int> {
    match e
    case Number(n) => if n <= INT64_MAX then Some(n) else None
    case Unary(kind, a) =>
      if !kind.Minus? then None
      else if a.Number? then if -(a.value as int) >= INT64_MIN then Some(-(a.value as int)) else None
      else
        (match IntOf(a)
         case Some(v) => if IsInt64(-v) then Some(-v) else None
         case None => None)
    case Binary(op, l, r) =>
      (match (IntOf(l), IntOf(r))
       case (Some(a), Some(b)) => Fitting(ExactOp(I64, op, a, b), INT64_MIN, INT64_MAX)
       case _ => None)
    case _ => None
  }

  /** Likewise in 64 unsigned bits. */
  function UintOf(e: S.Expr): Option<int> {
    match e
    case Number(n) => if n <= UINT64_MAX then Some(n) else None
    case Binary(op, l, r) =>
      (match (UintOf(l), UintOf(r))
       case (Some(a), Some(b)) => Fitting(ExactOp(U64, op, a, b), 0, UINT64_MAX)
       case _ => None)
    case _ => None
  }

  function Fitting(v: Option<int>, lo: int, hi: int): Option<int> {
    if v.Some? && lo <= v.value <= hi then v else None
  }

  function ConstantOf(t: ValueType, e: S.Expr): Option<int> {
    if IsSigned(t) then IntOf(e) else UintOf(e)
  }

  /** A constant count is within the width, a constant divisor is not zero, a constant result is in range. */
  predicate ConstantsFit(op: BinaryOp, t: ValueType, result: ValueType, left: S.Expr, right: S.Expr) {
    if IsLogical(op) || IsRelational(op) then true
    else if IsShift(op) then IntOf(right).Some? ==> 0 <= IntOf(right).value < WidthBits(t)
    else
      var v := ConstantOf(result, S.Binary(op, left, right));
      !(op.Div? && ConstantOf(result, right) == Some(0)) &&
      (v.Some? ==> InRange(result, v.value)) &&
      !(op.Sub? && IsUnsigned(result) && UintOf(left).Some? && UintOf(right).Some? &&
        UintOf(left).value < UintOf(right).value)
  }

  // ---------------------------------------------------------------- expressions

  function OperatorType(op: BinaryOp, t: ValueType, u: ValueType, left: S.Expr, right: S.Expr): Option<ValueType> {
    var result := M.ResultType(op, t, u);
    if t != Unresolved && u != Unresolved && M.OperandsFit(op, t, u) && ConstantsFit(op, t, result, left, right) then
      Some(result)
    else None
  }

  function NumberType(t: ValueType, v: int): Option<ValueType> {
    if InRange(t, v) then Some(t) else None
  }

  /** A variable that is declared and surely has a value. */
  function ReadType(scopes: M.Scopes, name: string): Option<ValueType> {
    match M.CellOf(scopes, name)
    case Some(cell) => if cell.value.Some? then Some(cell.t) else None
    case None => None
  }

  function CountType(scopes: M.Scopes, operand: S.Expr): Option<ValueType> {
    if !operand.Identifier? then None
    else
      match ReadType(scopes, operand.name)
      case Some(t) => if IsInteger(t) && M.CellOf(scopes, operand.name).value.isMutable then Some(t) else None
      case None => None
  }

  function NegatedType(kind: S.UnaryKind, t: ValueType): Option<ValueType> {
    if (if kind.Minus? then IsSigned(t) else if kind.Tilde? then IsInteger(t) else t.Bool?) then Some(t) else None
  }

  /** The type of an expression in a place that wants `want`, if it keeps the rules. */
  function TypeOf(src: M.Source, e: S.Expr, want: ValueType, scopes: M.Scopes): Option<ValueType>
    decreases e, 1
  {
    match e
    case Number(n) => NumberType(if IsInteger(want) then want else I64, n)
    case Boolean(_) => Some(Bool)
    case Identifier(name) => ReadType(scopes, name)
    case Binary(op, left, right) =>
      var w := M.OperandWant(op, want);
      if IsRelational(op) && M.IsNumeral(left) && !M.IsNumeral(right) then
        (match TypeOf(src, right, w, scopes)
         case Some(u) =>
           (match TypeOf(src, left, u, scopes)
            case Some(t) => OperatorType(op, t, u, left, right)
            case None => None)
         case None => None)
      else
        (match TypeOf(src, left, w, scopes)
         case Some(t) =>
           (match TypeOf(src, right, if IsShift(op) then w else t, scopes)
            case Some(u) => OperatorType(op, t, u, left, right)
            case None => None)
         case None => None)
    case Unary(kind, a) =>
      if kind.Minus? && a.Number? then
        if IsUnsigned(want) then None else NumberType(if IsSigned(want) then want else I64, -(a.value as int))
      else if kind.Minus? || kind.Tilde? || kind.Bang? then
        (match TypeOf(src, a, M.UnaryWant(kind, want), scopes)
         case Some(t) => NegatedType(kind, t)
         case None => None)
      else CountType(scopes, a)
    case Cast(a, target) =>
      (match TypeOf(src, a, Unresolved, scopes)
       case Some(t) => if M.CastAllowed(t, target) then Some(target) else None
       case None => None)
    case Call(callee, args) =>
      (match M.SignatureOf(src.prefix, src.imported, src.functions, callee)
       case Some(sig) =>
         if |args| == |sig.params| && ArgsFit(src, args, sig.params, scopes) then Some(sig.ret) else None
       case None => None)
  }

  predicate ArgsFit(src: M.Source, args: seq<S.Expr>, params: seq<ValueType>, scopes: M.Scopes)
    requires |args| == |params|
    decreases args, 0
  {
    |args| == 0 ||
    (ValueFits(params[0], TypeOf(src, args[0], params[0], scopes)) && ArgsFit(src, args[1..], params[1..], scopes))
  }

  /** A value of type `t` is there, up to widening. */
  predicate ValueFits(t: ValueType, found: Option<ValueType>) {
    found.Some? && M.Widens(found.value, t)
  }

  // ---------------------------------------------------------------- ways through a statement

  /** What is left of the choices when the way they describe comes to the end of the statement, if it does. */
  function Way(s: S.Stmt, choices: seq<bool>): (rest: Option<seq<bool>>)
    ensures rest.Some? ==> |rest.value| <= |choices|
    decreases |choices|, s, 1
  {
    match s
    case Block(stmts) => WayThrough(stmts, choices)
    case If(_, thn, els) =>
      if |choices| == 0 then None
      else if choices[0] then Way(thn, choices[1..])
      else if els.Some? then Way(els.value, choices[1..])
      else Some(choices[1..])
    case While(_, body) =>
      if |choices| == 0 then None
      else if !choices[0] then Some(choices[1..])
      else Again(s, Way(body, choices[1..]), |choices|)
    case Return(_) => None
    case _ => Some(choices)
  }

  function Again(s: S.Stmt, at: Option<seq<bool>>, n: nat): (rest: Option<seq<bool>>)
    requires at.Some? ==> |at.value| < n
    ensures rest.Some? ==> |rest.value| <= n
    decreases n, s, 0
  {
    if at.None? then None else Way(s, at.value)
  }

  function WayThrough(stmts: seq<S.Stmt>, choices: seq<bool>): (rest: Option<seq<bool>>)
    ensures rest.Some? ==> |rest.value| <= |choices|
    decreases |choices|, stmts, 0
  {
    if |stmts| == 0 then Some(choices)
    else
      match Way(stmts[0], choices)
      case Some(at) => WayThrough(stmts[1..], at)
      case None => None
  }

  /** However its conditions turn out, no way comes to its end. */
  ghost predicate NeverEnds(s: S.Stmt) {
    forall choices: seq<bool> :: Way(s, choices).None?
  }

  // ---------------------------------------------------------------- statements

  /** After two branches: what has a value at the end of both, where a branch that never ends does not count. */
  function JoinedScope(a: M.Scope, b: M.Scope, skipA: bool, skipB: bool): M.Scope {
    map x | x in a ::
      a[x].(value := if (skipA || a[x].value.Some?) && (skipB || (x in b && b[x].value.Some?)) then Some(0) else None)
  }

  function Joined(a: M.Scopes, b: M.Scopes, skipA: bool, skipB: bool): (r: M.Scopes)
    ensures |r| == |a|
  {
    seq(|a|, i requires 0 <= i < |a| => JoinedScope(a[i], if i < |b| then b[i] else map[], skipA, skipB))
  }

  /** The scopes after a statement of a function with these parameters that returns `ret`, if it keeps the rules. */
  ghost function Check(src: M.Source, params: seq<string>, ret: ValueType, s: S.Stmt, scopes: M.Scopes)
    : Option<M.Scopes>
    decreases s, 1
  {
    match s
    case Decl(quals, t, name, init) =>
      if t.Void? || name in params || quals.isPublic || quals.isExtern then None
      else if |scopes| == 0 || name in scopes[|scopes| - 1] then None
      else if init.Some? && !ValueFits(t, TypeOf(src, init.value, t, scopes)) then None
      else Some(M.Declare(scopes, name, M.Cell(t, quals.isMutable, if init.Some? then Some(0) else None)))
    case Assign(name, e) =>
      (match M.CellOf(scopes, name)
       case Some(cell) =>
         if cell.isMutable && ValueFits(cell.t, TypeOf(src, e, cell.t, scopes)) then Some(M.Store(scopes, name, 0))
         else None
       case None => None)
    case Block(stmts) =>
      (match CheckAll(src, params, ret, stmts, scopes + [map[]])
       case Some(inner) => Some(M.Close(inner))
       case None => None)
    case If(cond, thn, els) =>
      if TypeOf(src, cond, Bool, scopes) != Some(Bool) then None
      else
        (match (Check(src, params, ret, thn, scopes),
                if els.Some? then Check(src, params, ret, els.value, scopes) else Some(scopes))
         case (Some(a), Some(b)) => Some(Joined(a, b, NeverEnds(thn), els.Some? && NeverEnds(els.value)))
         case _ => None)
    case While(cond, body) =>
      if TypeOf(src, cond, Bool, scopes) == Some(Bool) && Check(src, params, ret, body, scopes).Some? then Some(scopes)
      else None
    case Return(None) => if ret.Void? then Some(scopes) else None
    case Return(Some(e)) => if ValueFits(ret, TypeOf(src, e, ret, scopes)) then Some(scopes) else None
    case ExprStmt(e) => if TypeOf(src, e, Unresolved, scopes).Some? then Some(scopes) else None
    case FuncDecl(_, _, _, _, _) => None
  }

  ghost function CheckAll(src: M.Source, params: seq<string>, ret: ValueType, stmts: seq<S.Stmt>, scopes: M.Scopes)
    : Option<M.Scopes>
    decreases stmts, 0
  {
    if |stmts| == 0 then Some(scopes)
    else
      match Check(src, params, ret, stmts[0], scopes)
      case Some(next) => CheckAll(src, params, ret, stmts[1..], next)
      case None => None
  }

  // ---------------------------------------------------------------- functions

  /** A function of the name has a definition, among the imported ones or before in the file. */
  predicate Defined(imported: A.Funcs, fs: seq<S.Stmt>, name: string) {
    (A.FindFunc(imported, name).Some? && imported[A.FindFunc(imported, name).value].defined) ||
    (exists i :: 0 <= i < |fs| && fs[i].FuncDecl? && fs[i].name == name && fs[i].definition.Some?)
  }

  /** `f` agrees with what is said of its name before it: the types are the same, and it is defined once. */
  predicate Agrees(src: M.Source, f: S.Stmt)
    requires f.FuncDecl?
  {
    var earlier := M.SignatureOf(src.prefix, src.imported, src.functions, f.name);
    earlier.Some? ==>
      earlier.value.params == M.TypesOf(f.params) && earlier.value.ret == f.ret &&
      !(f.definition.Some? && Defined(src.imported, src.functions, f.name))
  }

  predicate SignatureKept(f: S.Stmt)
    requires f.FuncDecl?
  {
    !f.quals.isMutable && !(f.quals.isExtern && (f.quals.isPublic || f.definition.Some?)) &&
    (forall i :: 0 <= i < |f.params| ==> !f.params[i].t.Void?) &&
    forall i, j :: 0 <= j < i < |f.params| ==> f.params[i].name != f.params[j].name
  }

  function Names(params: seq<S.Param>): (ns: seq<string>)
    ensures |ns| == |params| && forall i :: 0 <= i < |ns| ==> ns[i] == params[i].name
  {
    seq(|params|, i requires 0 <= i < |params| => params[i].name)
  }

  function Zeros(n: nat): (vs: seq<int>)
    ensures |vs| == n
  {
    seq(n, _ => 0)
  }

  /** The body, with the parameters bound; the function itself may be called in it. */
  ghost predicate BodyKept(src: M.Source, f: S.Stmt)
    requires f.FuncDecl? && f.definition.Some?
  {
    var visible := src.(functions := src.functions + [f]);
    Check(visible, Names(f.params), f.ret, f.definition.value, [map[], M.Bind(f.params, Zeros(|f.params|))]).Some? &&
    (f.ret.Void? || NeverEnds(f.definition.value))
  }

  /** A function behind those of `src`. */
  ghost predicate FunctionKept(src: M.Source, f: S.Stmt)
    requires f.FuncDecl?
  {
    SignatureKept(f) && Agrees(src, f) && (f.definition.Some? ==> BodyKept(src, f))
  }

  ghost predicate FileKept(prefix: Option<string>, imported: A.Funcs, fs: seq<S.Stmt>)
    requires forall i :: 0 <= i < |fs| ==> fs[i].FuncDecl?
  {
    forall i :: 0 <= i < |fs| ==> FunctionKept(M.Source(prefix, imported, fs[..i]), fs[i])
  }
}
