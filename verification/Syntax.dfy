/** The tree the parser builds: names are not resolved and expressions carry no types. */
module Syntax {
  import opened Values
  import opened Arith

  datatype UnaryKind = Minus | Tilde | Bang | PreInc | PreDec | PostInc | PostDec

  datatype Expr =
    | Number(value: nat)
    | Boolean(truth: bool)
    | Identifier(name: string)
    | Binary(op: BinaryOp, left: Expr, right: Expr)
    | Unary(kind: UnaryKind, operand: Expr)
    | Cast(operand: Expr, target: ValueType)
    | Call(callee: string, args: seq<Expr>)

  datatype Qualifiers = Qualifiers(isMutable: bool, isPublic: bool, isExtern: bool)

  datatype Param = Param(quals: Qualifiers, t: ValueType, name: string)

  datatype Stmt =
    | Decl(quals: Qualifiers, t: ValueType, name: string, init: Option<Expr>)
    | Assign(name: string, value: Expr)
    | Block(stmts: seq<Stmt>)
    | If(cond: Expr, thn: Stmt, els: Option<Stmt>)
    | While(cond: Expr, body: Stmt)
    | Return(result: Option<Expr>)
    | ExprStmt(e: Expr)
    | FuncDecl(quals: Qualifiers, name: string, params: seq<Param>, ret: ValueType, definition: Option<Stmt>)

  /** What the parser builds: bodies and branches are blocks, an `else` may hold another `if`, and
    * every declared type is a type keyword. */
  predicate Built(s: Stmt) {
    match s
    case Decl(_, t, _, _) => t != Unresolved
    case Block(stmts) => forall i :: 0 <= i < |stmts| ==> Built(stmts[i])
    case If(_, thn, els) =>
      thn.Block? && Built(thn) && (els.Some? ==> (els.value.Block? || els.value.If?) && Built(els.value))
    case While(_, body) => body.Block? && Built(body)
    case FuncDecl(_, _, params, ret, d) =>
      ret != Unresolved && (forall i :: 0 <= i < |params| ==> params[i].t != Unresolved) &&
      (d.Some? ==> d.value.Block? && Built(d.value))
    case _ => true
  }
}
