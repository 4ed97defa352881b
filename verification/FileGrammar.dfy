/** Statements, declarations and files as they are written. A file parsed without a report is one that the grammar
  * writes: the parser accepts nothing else. */
module FileGrammar {
  import opened Values
  import opened Arith
  import opened Tokens
  import opened Parsing
  import opened Printing
  import Mangling
  import opened Grammar
  import opened CompoundAssign
  import S = Syntax

  // ---------------------------------------------------------------- forms

  datatype ParamForm = ParamForm(quals: seq<Token>, t: ValueType, name: string)

  /** A statement as it is written; `compound` is the place of a compound sign in its table. */
  datatype StmtForm =
    | DeclForm(quals: seq<Token>, t: ValueType, name: string, init: Option<Form>)
    | AssignForm(name: string, compound: Option<nat>, value: Form)
    | BlockForm(stmts: seq<StmtForm>)
    | IfForm(cond: Form, thn: StmtForm, els: Option<StmtForm>)
    | WhileForm(cond: Form, body: StmtForm)
    | ReturnForm(result: Option<Form>)
    | ExprForm(e: Form)
    | FuncForm(quals: seq<Token>, name: string, params: seq<ParamForm>, ret: Option<ValueType>,
        definition: Option<StmtForm>)

  /** Qualifiers in any order, and as often as one likes. */
  function QualifiersOf(quals: seq<Token>): S.Qualifiers {
    S.Qualifiers(KwMut in quals, KwPub in quals, KwExtern in quals)
  }

  function MeantParams(ps: seq<ParamForm>): seq<S.Param> {
    if |ps| == 0 then [] else [S.Param(QualifiersOf(ps[0].quals), ps[0].t, ps[0].name)] + MeantParams(ps[1..])
  }

  /** What a statement stands for: a compound assignment for that of the operation, no return type for `void`. */
  function MeantStmt(s: StmtForm): S.Stmt {
    match s
    case DeclForm(quals, t, name, init) =>
      S.Decl(QualifiersOf(quals), t, name, if init.Some? then Some(Meant(init.value)) else None)
    case AssignForm(name, compound, value) =>
      if compound.Some? && compound.value < |COMPOUND| then
        S.Assign(name, S.Binary(COMPOUND[compound.value].1, S.Identifier(name), Meant(value)))
      else S.Assign(name, Meant(value))
    case BlockForm(stmts) => S.Block(MeantStmts(stmts))
    case IfForm(c, thn, els) =>
      S.If(Meant(c), MeantStmt(thn), if els.Some? then Some(MeantStmt(els.value)) else None)
    case WhileForm(c, body) => S.While(Meant(c), MeantStmt(body))
    case ReturnForm(e) => S.Return(if e.Some? then Some(Meant(e.value)) else None)
    case ExprForm(e) => S.ExprStmt(Meant(e))
    case FuncForm(quals, name, params, ret, body) =>
      S.FuncDecl(QualifiersOf(quals), name, MeantParams(params), if ret.Some? then ret.value else Void,
                 if body.Some? then Some(MeantStmt(body.value)) else None)
  }

  function MeantStmts(stmts: seq<StmtForm>): seq<S.Stmt> {
    if |stmts| == 0 then [] else [MeantStmt(stmts[0])] + MeantStmts(stmts[1..])
  }

  function WrittenParam(p: ParamForm): seq<Token> {
    p.quals + [KwType(p.t), Ident(p.name)]
  }

  function WrittenParams(ps: seq<ParamForm>): seq<Token> {
    if |ps| == 0 then []
    else if |ps| == 1 then WrittenParam(ps[0])
    else WrittenParam(ps[0]) + [Comma] + WrittenParams(ps[1..])
  }

  function AssignSign(compound: Option<nat>): Token {
    if compound.Some? && compound.value < |COMPOUND| then COMPOUND[compound.value].0 else Equal
  }

  function WrittenStmt(s: StmtForm): seq<Token> {
    match s
    case DeclForm(quals, t, name, init) =>
      quals + ([KwType(t), Ident(name)] + ((if init.Some? then [Equal] + Written(init.value) else []) + [Semicolon]))
    case AssignForm(name, compound, value) => [Ident(name), AssignSign(compound)] + (Written(value) + [Semicolon])
    case BlockForm(stmts) => [LBrace] + (WrittenStmts(stmts) + [RBrace])
    case IfForm(c, thn, els) =>
      [KwIf] + (Written(c) + (WrittenStmt(thn) + (if els.Some? then [KwElse] + WrittenStmt(els.value) else [])))
    case WhileForm(c, body) => [KwWhile] + (Written(c) + WrittenStmt(body))
    case ReturnForm(e) => [KwReturn] + ((if e.Some? then Written(e.value) else []) + [Semicolon])
    case ExprForm(e) => Written(e) + [Semicolon]
    case FuncForm(quals, name, params, ret, body) =>
      quals + ([KwFn, Ident(name), LParen] + (WrittenParams(params) + ([RParen] +
        ((if ret.Some? then [KwType(ret.value)] else []) +
         (if body.Some? then WrittenStmt(body.value) else [Semicolon])))))
  }

  function WrittenStmts(stmts: seq<StmtForm>): seq<Token> {
    if |stmts| == 0 then [] else WrittenStmt(stmts[0]) + WrittenStmts(stmts[1..])
  }

  predicate AreQualifiers(quals: seq<Token>) {
    forall i :: 0 <= i < |quals| ==> IsQualifier(quals[i])
  }

  predicate ProperParams(ps: seq<ParamForm>) {
    forall i :: 0 <= i < |ps| ==> AreQualifiers(ps[i].quals) && ps[i].t != Unresolved
  }

  /** Expressions are proper, types are type keywords, bodies and branches are blocks. */
  predicate ProperStmt(s: StmtForm) {
    match s
    case DeclForm(quals, t, _, init) => AreQualifiers(quals) && t != Unresolved && (init.Some? ==> Proper(init.value))
    case AssignForm(_, compound, value) => (compound.Some? ==> compound.value < |COMPOUND|) && Proper(value)
    case BlockForm(stmts) => forall i :: 0 <= i < |stmts| ==> ProperStmt(stmts[i])
    case IfForm(c, thn, els) =>
      Proper(c) && thn.BlockForm? && ProperStmt(thn) &&
      (els.Some? ==> (els.value.BlockForm? || els.value.IfForm?) && ProperStmt(els.value))
    case WhileForm(c, body) => Proper(c) && body.BlockForm? && ProperStmt(body)
    case ReturnForm(e) => e.Some? ==> Proper(e.value)
    case ExprForm(e) => Proper(e)
    case FuncForm(quals, _, params, ret, body) =>
      AreQualifiers(quals) && ProperParams(params) && ret != Some(Unresolved) &&
      (body.Some? ==> body.value.BlockForm? && ProperStmt(body.value))
  }

  // ---------------------------------------------------------------- what was read

  /** The tokens from `from` to `to` are those of `f`, which stands for `s`. */
  ghost predicate ShowsStmt(ts: seq<Token>, from: nat, to: nat, f: StmtForm, s: S.Stmt) {
    from <= to <= |ts| && ts[from..to] == WrittenStmt(f) && ProperStmt(f) && MeantStmt(f) == s
  }

  ghost predicate ReadsStmt(ts: seq<Token>, from: nat, r: Out<S.Stmt>, f: StmtForm) {
    r.clean ==> r.node.Some? && ShowsStmt(ts, from, r.pos, f, r.node.value)
  }

  const NOTHING := BlockForm([])

  lemma NotStray(ts: seq<Token>, at: nat)
    requires NoStray(ts) && at < |ts|
    ensures !ts[at].Undefined?
  {}

  lemma ShownExpression(ts: seq<Token>, from: nat, r: Out<S.Expr>, f: Form, level: nat)
    requires Reads(ts, from, r, f, level)
    ensures r.clean <==> r.node.Some?
    ensures r.node.Some? ==>
              from <= r.pos <= |ts| && ts[from..r.pos] == Written(f) && Proper(f) && Meant(f) == r.node.value
  {
    hide Written, Proper, Binds, Meant;
  }

  lemma Two(ts: seq<Token>, a: nat)
    requires a + 1 < |ts|
    ensures ts[a..a + 2] == [ts[a], ts[a + 1]]
  {}

  // ---------------------------------------------------------------- qualifiers and parameters

  lemma {:induction false} ReadQualifiers(ts: seq<Token>, pos: nat, q: S.Qualifiers)
    requires EndsInEof(ts) && pos < |ts|
    ensures var r := ParseQualifiers(ts, pos, q); var quals := ts[pos..r.1];
            AreQualifiers(quals) &&
            r.0 == S.Qualifiers(q.isMutable || KwMut in quals, q.isPublic || KwPub in quals, q.isExtern ||
                                KwExtern in quals)
    decreases |ts| - pos
  {
    if IsQualifier(ts[pos]) {
      var q' := AddQualifier(q, ts[pos]);
      ReadQualifiers(ts, pos + 1, q');
      var r := ParseQualifiers(ts, pos, q);
      Span(ts, pos, pos + 1, r.1);
      One(ts, pos);
      OneMoreQualifier(q, ts[pos], ts[pos + 1..r.1]);
    }
  }

  lemma OneMoreQualifier(q: S.Qualifiers, k: Token, rest: seq<Token>)
    requires IsQualifier(k)
    ensures var q', all := AddQualifier(q, k), [k] + rest;
            (q'.isMutable || KwMut in rest <==> q.isMutable || KwMut in all) &&
            (q'.isPublic || KwPub in rest <==> q.isPublic || KwPub in all) &&
            (q'.isExtern || KwExtern in rest <==> q.isExtern || KwExtern in all)
  {}

  lemma PlainQualifiers(ts: seq<Token>, pos: nat)
    requires EndsInEof(ts) && pos < |ts|
    ensures var r := ParseQualifiers(ts, pos, NO_QUALIFIERS);
            AreQualifiers(ts[pos..r.1]) && r.0 == QualifiersOf(ts[pos..r.1])
  {
    hide ParseQualifiers, IsQualifier;
    ReadQualifiers(ts, pos, NO_QUALIFIERS);
  }

  ghost predicate ShowsParams(ts: seq<Token>, from: nat, to: nat, fs: seq<ParamForm>, ps: seq<S.Param>) {
    from <= to <= |ts| && ts[from..to] == WrittenParams(fs) && ProperParams(fs) && MeantParams(fs) == ps
  }

  lemma ShowsParam(ts: seq<Token>, from: nat, at: nat, q: S.Qualifiers) returns (f: ParamForm)
    requires from <= at && at + 1 < |ts| && IsType(ts[at]) && ts[at + 1].Ident?
    requires AreQualifiers(ts[from..at]) && q == QualifiersOf(ts[from..at])
    ensures ShowsParams(ts, from, at + 2, [f], [S.Param(q, ts[at].t, ts[at + 1].name)])
    ensures ts[from..at + 2] == WrittenParam(f) && AreQualifiers(f.quals) && f.t != Unresolved
    ensures QualifiersOf(f.quals) == q && f.t == ts[at].t && f.name == ts[at + 1].name
  {
    f := ParamForm(ts[from..at], ts[at].t, ts[at + 1].name);
    Span(ts, from, at, at + 2);
    Two(ts, at);
    assert MeantParams([f][1..]) == [];
  }

  lemma ShowsMoreParams(ts: seq<Token>, from: nat, at: nat, to: nat, f: ParamForm, p: S.Param, fs: seq<ParamForm>,
      ps: seq<S.Param>)
    requires from <= at < |ts| && ts[at].Comma? && ts[from..at] == WrittenParam(f) && |fs| > 0
    requires AreQualifiers(f.quals) && f.t != Unresolved && p == S.Param(QualifiersOf(f.quals), f.t, f.name)
    requires ShowsParams(ts, at + 1, to, fs, ps)
    ensures ShowsParams(ts, from, to, [f] + fs, [p] + ps)
  {
    hide WrittenParam, QualifiersOf;
    One(ts, at);
    Span(ts, from, at, at + 1);
    Span(ts, from, at + 1, to);
    assert ([f] + fs)[1..] == fs;
  }

  lemma {:induction false} ReadParams(ts: seq<Token>, pos: nat) returns (fs: seq<ParamForm>)
    requires EndsInEof(ts) && NoStray(ts) && pos < |ts|
    ensures var r := ParseParams(ts, pos);
            r.clean ==> r.node.Some? && ShowsParams(ts, pos, r.pos, fs, r.node.value) && |fs| > 0
    decreases |ts| - pos
  {
    hide NoStray, ShowsParams, ParseQualifiers, RecoverStatement, AreQualifiers, QualifiersOf, WrittenParam, IsType;
    fs := [];
    PlainQualifiers(ts, pos);
    var q := ParseQualifiers(ts, pos, NO_QUALIFIERS);
    var at := q.1;
    NotStray(ts, at);
    if IsType(ts[at]) {
      TypeIsNotLast(ts, at);
      NotStray(ts, at + 1);
      if ts[at + 1].Ident? {
        var f := ShowsParam(ts, pos, at, q.0);
        if !ts[at + 2].Comma? {
          fs := [f];
        } else {
          var more := ReadParams(ts, at + 3);
          var rest := ParseParams(ts, at + 3);
          if rest.clean {
            ShowsMoreParams(ts, pos, at + 2, rest.pos, f, S.Param(q.0, ts[at].t, ts[at + 1].name), more,
              rest.node.value);
            fs := [f] + more;
          }
        }
      }
    }
  }

  lemma TypeIsNotLast(ts: seq<Token>, at: nat)
    requires EndsInEof(ts) && at < |ts| && IsType(ts[at])
    ensures at + 1 < |ts| && ts[at].KwType?
  {}

  lemma {:induction false} ReadParamList(ts: seq<Token>, pos: nat) returns (fs: seq<ParamForm>)
    requires EndsInEof(ts) && NoStray(ts) && pos < |ts|
    ensures var r := ParseParamList(ts, pos);
            r.clean ==> r.node.Some? && ts[pos].LParen? && pos + 1 < r.pos && ts[r.pos - 1].RParen? &&
                        ShowsParams(ts, pos + 1, r.pos - 1, fs, r.node.value)
  {
    hide NoStray, ShowsParams, ParseParams, RecoverStatement;
    fs := [];
    NotStray(ts, pos);
    if ts[pos].LParen? {
      if ts[pos + 1].RParen? {
        NoParamsShown(ts, pos + 1);
      } else {
        fs := ReadParams(ts, pos + 1);
        NotStray(ts, ParseParams(ts, pos + 1).pos);
      }
    }
  }

  lemma NoParamsShown(ts: seq<Token>, at: nat)
    requires at <= |ts|
    ensures ShowsParams(ts, at, at, [], [])
  {}

  // ---------------------------------------------------------------- simple statements

  /** An expression and the semicolon that ends it. */
  lemma ShowsEnded(ts: seq<Token>, from: nat, at: nat, f: Form)
    requires from <= at < |ts| && ts[from..at] == Written(f) && ts[at].Semicolon?
    ensures ts[from..at + 1] == Written(f) + [Semicolon]
  {
    hide Written;
    One(ts, at);
    Span(ts, from, at, at + 1);
  }

  lemma EndsClean(ts: seq<Token>, at: nat, s: S.Stmt)
    requires EndsInEof(ts) && NoStray(ts) && at < |ts|
    ensures EndStatement(ts, at, s).clean <==> ts[at].Semicolon?
    ensures ts[at].Semicolon? ==> EndStatement(ts, at, s) == Out(Some(s), at + 1, true)
  {
    hide RecoverStatement;
  }

  lemma {:induction false} ReadVarDecl(ts: seq<Token>, from: nat, at: nat, q: S.Qualifiers) returns (f: StmtForm)
    requires EndsInEof(ts) && NoStray(ts) && from <= at < |ts|
    requires AreQualifiers(ts[from..at]) && q == QualifiersOf(ts[from..at])
    ensures ReadsStmt(ts, from, ParseVarDecl(ts, at, q), f)
  {
    hide NoStray, ParseBinary, RecoverStatement, EndStatement, Written, Proper, Meant, ShowsStmt, QualifiersOf,
         AreQualifiers, Reads, IsType;
    f := NOTHING;
    NotStray(ts, at);
    if IsType(ts[at]) {
      TypeIsNotLast(ts, at);
      NotStray(ts, at + 1);
      if ts[at + 1].Ident? {
        if !ts[at + 2].Equal? {
          f := DeclForm(ts[from..at], ts[at].t, ts[at + 1].name, None);
          EndsClean(ts, at + 2, S.Decl(q, ts[at].t, ts[at + 1].name, None));
          if ts[at + 2].Semicolon? {
            ShowsPlainDecl(ts, from, at, q);
          }
        } else {
          var g := ReadBinary(ts, 0, at + 3);
          var e := ParseExpression(ts, at + 3);
          ShownExpression(ts, at + 3, e, g, 0);
          if e.node.Some? {
            f := DeclForm(ts[from..at], ts[at].t, ts[at + 1].name, Some(g));
            EndsClean(ts, e.pos, S.Decl(q, ts[at].t, ts[at + 1].name, e.node));
            if ts[e.pos].Semicolon? {
              ShowsInitialized(ts, from, at, e.pos, q, g, e.node.value);
            }
          }
        }
      }
    }
  }

  lemma ShowsPlainDecl(ts: seq<Token>, from: nat, at: nat, q: S.Qualifiers)
    requires from <= at && at + 2 < |ts| && IsType(ts[at]) && ts[at + 1].Ident? && ts[at + 2].Semicolon?
    requires AreQualifiers(ts[from..at]) && q == QualifiersOf(ts[from..at])
    ensures ShowsStmt(ts, from, at + 3, DeclForm(ts[from..at], ts[at].t, ts[at + 1].name, None),
                      S.Decl(q, ts[at].t, ts[at + 1].name, None))
  {
    Span(ts, from, at, at + 3);
    assert ts[at..at + 3] == [ts[at], ts[at + 1]] + ([] + [Semicolon]);
  }

  lemma ShowsInitialized(ts: seq<Token>, from: nat, at: nat, end: nat, q: S.Qualifiers, g: Form, e: S.Expr)
    requires from <= at && at + 3 <= end < |ts| && IsType(ts[at]) && ts[at + 1].Ident? && ts[at + 2].Equal? &&
             ts[end].Semicolon? && ts[at + 3..end] == Written(g) && Proper(g) && Meant(g) == e
    requires AreQualifiers(ts[from..at]) && q == QualifiersOf(ts[from..at])
    ensures ShowsStmt(ts, from, end + 1, DeclForm(ts[from..at], ts[at].t, ts[at + 1].name, Some(g)),
                      S.Decl(q, ts[at].t, ts[at + 1].name, Some(e)))
  {
    hide Written, Proper, Meant;
    ShowsEnded(ts, at + 3, end, g);
    Span(ts, from, at, end + 1);
    Span(ts, at, at + 2, end + 1);
    Span(ts, at + 2, at + 3, end + 1);
    Two(ts, at);
    One(ts, at + 2);
    assert [Equal] + (Written(g) + [Semicolon]) == [Equal] + Written(g) + [Semicolon];
  }

  lemma {:induction false} ReadAssign(ts: seq<Token>, pos: nat) returns (f: StmtForm)
    requires EndsInEof(ts) && NoStray(ts) && pos + 1 < |ts| && ts[pos].Ident? && IsAssign(ts[pos + 1])
    ensures ReadsStmt(ts, pos, ParseVarAssign(ts, pos), f)
  {
    hide NoStray, ParseBinary, RecoverStatement, EndStatement, Written, Proper, Meant, ShowsStmt, Reads, IsAssign,
         BinaryOpOf;
    f := NOTHING;
    AssignIsNotLast(ts, pos + 1);
    var k := ts[pos + 1];
    var i: Option<nat> := None;
    if !k.Equal? {
      var j := CompoundTable(k);
      CompoundOperator(j);
      i := Some(j);
    }
    var g := ReadBinary(ts, 0, pos + 2);
    var e := ParseExpression(ts, pos + 2);
    ShownExpression(ts, pos + 2, e, g, 0);
    if e.node.Some? {
      var value := if k.Equal? then e.node.value
                   else S.Binary(BinaryOpOf(k).value, S.Identifier(ts[pos].name), e.node.value);
      f := AssignForm(ts[pos].name, i, g);
      EndsClean(ts, e.pos, S.Assign(ts[pos].name, value));
      if ts[e.pos].Semicolon? {
        ShowsAssign(ts, pos, e.pos, i, g, value);
      }
    }
  }

  lemma AssignIsNotLast(ts: seq<Token>, at: nat)
    requires EndsInEof(ts) && at < |ts| && IsAssign(ts[at])
    ensures at + 1 < |ts|
  {}

  lemma ShowsAssign(ts: seq<Token>, pos: nat, end: nat, i: Option<nat>, g: Form, value: S.Expr)
    requires pos + 2 <= end < |ts| && ts[pos].Ident? && ts[end].Semicolon? && ts[pos + 2..end] == Written(g) &&
             Proper(g)
    requires i.Some? ==> i.value < |COMPOUND| && ts[pos + 1] == COMPOUND[i.value].0 &&
                         value == S.Binary(COMPOUND[i.value].1, S.Identifier(ts[pos].name), Meant(g))
    requires i.None? ==> ts[pos + 1] == Equal && value == Meant(g)
    ensures ShowsStmt(ts, pos, end + 1, AssignForm(ts[pos].name, i, g), S.Assign(ts[pos].name, value))
  {
    hide Written, Proper, Meant;
    ShowsEnded(ts, pos + 2, end, g);
    Span(ts, pos, pos + 2, end + 1);
    Two(ts, pos);
  }

  lemma {:induction false} ReadReturn(ts: seq<Token>, pos: nat) returns (f: StmtForm)
    requires EndsInEof(ts) && NoStray(ts) && pos < |ts| && ts[pos].KwReturn?
    ensures ReadsStmt(ts, pos, ParseReturn(ts, pos), f)
  {
    hide NoStray, ParseBinary, RecoverStatement, EndStatement, Written, Proper, Meant, ShowsStmt, Reads;
    f := NOTHING;
    if ts[pos + 1].Semicolon? {
      f := ReturnForm(None);
      ShowsPlainReturn(ts, pos);
    } else {
      var g := ReadBinary(ts, 0, pos + 1);
      var e := ParseExpression(ts, pos + 1);
      ShownExpression(ts, pos + 1, e, g, 0);
      if e.node.Some? {
        f := ReturnForm(Some(g));
        EndsClean(ts, e.pos, S.Return(e.node));
        if ts[e.pos].Semicolon? {
          ShowsReturn(ts, pos, e.pos, g, e.node.value);
        }
      }
    }
  }

  lemma ShowsPlainReturn(ts: seq<Token>, pos: nat)
    requires pos + 1 < |ts| && ts[pos].KwReturn? && ts[pos + 1].Semicolon?
    ensures ShowsStmt(ts, pos, pos + 2, ReturnForm(None), S.Return(None))
  {
    Two(ts, pos);
    assert [KwReturn] + ([] + [Semicolon]) == [KwReturn, Semicolon];
  }

  lemma ShowsReturn(ts: seq<Token>, pos: nat, end: nat, g: Form, e: S.Expr)
    requires pos + 1 <= end < |ts| && ts[pos].KwReturn? && ts[end].Semicolon? && ts[pos + 1..end] == Written(g)
    requires Proper(g) && Meant(g) == e
    ensures ShowsStmt(ts, pos, end + 1, ReturnForm(Some(g)), S.Return(Some(e)))
  {
    hide Written, Proper, Meant;
    ShowsEnded(ts, pos + 1, end, g);
    Span(ts, pos, pos + 1, end + 1);
    One(ts, pos);
  }

  lemma {:induction false} ReadExprStmt(ts: seq<Token>, pos: nat) returns (f: StmtForm)
    requires EndsInEof(ts) && NoStray(ts) && pos < |ts|
    ensures ReadsStmt(ts, pos, ParseExprStmt(ts, pos), f)
  {
    hide NoStray, ParseBinary, RecoverStatement, EndStatement, Written, Proper, Meant, ShowsStmt, Reads;
    f := NOTHING;
    var g := ReadBinary(ts, 0, pos);
    var e := ParseExpression(ts, pos);
    ShownExpression(ts, pos, e, g, 0);
    if e.node.Some? {
      f := ExprForm(g);
      EndsClean(ts, e.pos, S.ExprStmt(e.node.value));
      if ts[e.pos].Semicolon? {
        ShowsExprStmt(ts, pos, e.pos, g, e.node.value);
      }
    }
  }

  lemma ShowsExprStmt(ts: seq<Token>, pos: nat, end: nat, g: Form, e: S.Expr)
    requires pos <= end < |ts| && ts[end].Semicolon? && ts[pos..end] == Written(g) && Proper(g) && Meant(g) == e
    ensures ShowsStmt(ts, pos, end + 1, ExprForm(g), S.ExprStmt(e))
  {
    hide Written, Proper, Meant;
    ShowsEnded(ts, pos, end, g);
  }

  // ---------------------------------------------------------------- compound statements

  ghost predicate ShowsStmts(ts: seq<Token>, from: nat, to: nat, fs: seq<StmtForm>, ss: seq<S.Stmt>) {
    from <= to <= |ts| && ts[from..to] == WrittenStmts(fs) && (forall i :: 0 <= i < |fs| ==> ProperStmt(fs[i])) &&
    MeantStmts(fs) == ss
  }

  lemma ShowsNone(ts: seq<Token>, at: nat)
    requires at <= |ts|
    ensures ShowsStmts(ts, at, at, [], [])
  {}

  lemma ShowsMore(ts: seq<Token>, from: nat, at: nat, to: nat, f: StmtForm, s: S.Stmt, fs: seq<StmtForm>,
      ss: seq<S.Stmt>)
    requires ShowsStmt(ts, from, at, f, s) && ShowsStmts(ts, at, to, fs, ss)
    ensures ShowsStmts(ts, from, to, [f] + fs, [s] + ss)
  {
    hide WrittenStmt, ProperStmt, MeantStmt;
    Span(ts, from, at, to);
    assert ([f] + fs)[1..] == fs;
  }

  lemma ShowsBlock(ts: seq<Token>, pos: nat, at: nat, fs: seq<StmtForm>, ss: seq<S.Stmt>)
    requires pos < at < |ts| && ts[pos].LBrace? && ts[at].RBrace? && ShowsStmts(ts, pos + 1, at, fs, ss)
    ensures ShowsStmt(ts, pos, at + 1, BlockForm(fs), S.Block(ss))
  {
    One(ts, pos);
    One(ts, at);
    Span(ts, pos + 1, at, at + 1);
    Span(ts, pos, pos + 1, at + 1);
  }

  lemma ShowsIf(ts: seq<Token>, pos: nat, at: nat, to: nat, g: Form, c: S.Expr, f: StmtForm, s: S.Stmt)
    requires pos + 1 <= at <= to && at < |ts| && ts[pos].KwIf? && ts[pos + 1..at] == Written(g) && Proper(g)
    requires Meant(g) == c && ShowsStmt(ts, at, to, f, s) && f.BlockForm?
    ensures ShowsStmt(ts, pos, to, IfForm(g, f, None), S.If(c, s, None))
  {
    hide Written, Proper, Meant;
    One(ts, pos);
    Span(ts, pos, pos + 1, to);
    Span(ts, pos + 1, at, to);
    assert WrittenStmt(f) + [] == WrittenStmt(f);
  }

  lemma ShowsIfElse(ts: seq<Token>, pos: nat, at: nat, mid: nat, to: nat, g: Form, c: S.Expr, f: StmtForm, s: S.Stmt,
      h: StmtForm, e: S.Stmt)
    requires pos + 1 <= at <= mid < to && mid < |ts| && ts[pos].KwIf? && ts[mid].KwElse?
    requires ts[pos + 1..at] == Written(g) && Proper(g) && Meant(g) == c
    requires ShowsStmt(ts, at, mid, f, s) && f.BlockForm? && ShowsStmt(ts, mid + 1, to, h, e)
    requires h.BlockForm? || h.IfForm?
    ensures ShowsStmt(ts, pos, to, IfForm(g, f, Some(h)), S.If(c, s, Some(e)))
  {
    hide Written, Proper, Meant;
    One(ts, pos);
    One(ts, mid);
    Span(ts, pos, pos + 1, to);
    Span(ts, pos + 1, at, to);
    Span(ts, at, mid, to);
    Span(ts, mid, mid + 1, to);
  }

  lemma ShowsWhile(ts: seq<Token>, pos: nat, at: nat, to: nat, g: Form, c: S.Expr, f: StmtForm, s: S.Stmt)
    requires pos + 1 <= at <= to && at < |ts| && ts[pos].KwWhile? && ts[pos + 1..at] == Written(g) && Proper(g)
    requires Meant(g) == c && ShowsStmt(ts, at, to, f, s) && f.BlockForm?
    ensures ShowsStmt(ts, pos, to, WhileForm(g, f), S.While(c, s))
  {
    hide Written, Proper, Meant;
    One(ts, pos);
    Span(ts, pos, pos + 1, to);
    Span(ts, pos + 1, at, to);
  }

  lemma {:induction false} ReadStatements(ts: seq<Token>, pos: nat) returns (fs: seq<StmtForm>)
    requires EndsInEof(ts) && NoStray(ts) && pos < |ts|
    ensures var r := BlockLoop(ts, pos); r.clean ==> ShowsStmts(ts, pos, r.pos, fs, r.node.value)
    decreases |ts| - pos, 13
  {
    hide NoStray, ShowsStmt, ShowsStmts, ParseStatement;
    fs := [];
    if ts[pos].RBrace? || ts[pos].Eof? {
      ShowsNone(ts, pos);
    } else {
      var f := ReadStatement(ts, pos);
      var first := ParseStatement(ts, pos);
      if first.clean {
        var more := ReadStatements(ts, first.pos);
        var rest := BlockLoop(ts, first.pos);
        if rest.clean {
          ShowsMore(ts, pos, first.pos, rest.pos, f, first.node.value, more, rest.node.value);
          fs := [f] + more;
        }
      }
    }
  }

  lemma {:induction false} ReadBlock(ts: seq<Token>, pos: nat) returns (f: StmtForm)
    requires EndsInEof(ts) && NoStray(ts) && pos < |ts|
    ensures ReadsStmt(ts, pos, ParseBlock(ts, pos), f) && f.BlockForm?
    decreases |ts| - pos, 8
  {
    hide NoStray, ShowsStmt, ShowsStmts, BlockLoop, RecoverStatement;
    f := NOTHING;
    NotStray(ts, pos);
    if ts[pos].LBrace? {
      var fs := ReadStatements(ts, pos + 1);
      var body := BlockLoop(ts, pos + 1);
      if ts[body.pos].RBrace? && body.clean {
        ShowsBlock(ts, pos, body.pos, fs, body.node.value);
        f := BlockForm(fs);
      }
    }
  }

  lemma {:induction false} ReadIf(ts: seq<Token>, pos: nat) returns (f: StmtForm)
    requires EndsInEof(ts) && NoStray(ts) && pos < |ts| && ts[pos].KwIf?
    ensures ReadsStmt(ts, pos, ParseIf(ts, pos), f) && (ParseIf(ts, pos).clean ==> f.IfForm?)
    decreases |ts| - pos, 9
  {
    hide NoStray, ShowsStmt, ParseBinary, ParseBlock, RecoverStatement, Written, Proper, Meant, Reads;
    f := NOTHING;
    var g := ReadBinary(ts, 0, pos + 1);
    var c := ParseExpression(ts, pos + 1);
    ShownExpression(ts, pos + 1, c, g, 0);
    if c.node.Some? {
      var b := ReadBlock(ts, c.pos);
      var thn := ParseBlock(ts, c.pos);
      if thn.clean {
        if !ts[thn.pos].KwElse? {
          ShowsIf(ts, pos, c.pos, thn.pos, g, c.node.value, b, thn.node.value);
          f := IfForm(g, b, None);
        } else {
          f := ReadElse(ts, pos, g, c, b, thn);
        }
      } else if thn.node.Some? {
        UncleanIf(ts, pos, c, thn);
      }
    }
  }

  lemma UncleanIf(ts: seq<Token>, pos: nat, c: Out<S.Expr>, thn: Out<S.Stmt>)
    requires EndsInEof(ts) && pos < |ts| && ts[pos].KwIf? && c == ParseExpression(ts, pos + 1) && c.node.Some?
    requires thn == ParseBlock(ts, c.pos) && thn.node.Some? && !thn.clean
    ensures !ParseIf(ts, pos).clean
  {
    hide ParseExpression, ParseBlock, RecoverStatement;
  }

  lemma {:induction false} ReadElse(ts: seq<Token>, pos: nat, g: Form, c: Out<S.Expr>, b: StmtForm, thn: Out<S.Stmt>)
    returns (f: StmtForm)
    requires EndsInEof(ts) && NoStray(ts) && pos < |ts| && ts[pos].KwIf? && c == ParseExpression(ts, pos + 1)
    requires c.node.Some? && thn == ParseBlock(ts, c.pos) && thn.clean && thn.node.Some? && ts[thn.pos].KwElse?
    requires pos + 1 <= c.pos && ts[pos + 1..c.pos] == Written(g) && Proper(g) && Meant(g) == c.node.value
    requires ShowsStmt(ts, c.pos, thn.pos, b, thn.node.value) && b.BlockForm?
    ensures ReadsStmt(ts, pos, ParseIf(ts, pos), f) && (ParseIf(ts, pos).clean ==> f.IfForm?)
    decreases |ts| - pos, 8
  {
    hide NoStray, ShowsStmt, ParseBinary, ParseBlock, RecoverStatement, Written, Proper, Meant;
    var h: StmtForm;
    if ts[thn.pos + 1].KwIf? {
      h := ReadIf(ts, thn.pos + 1);
    } else {
      h := ReadBlock(ts, thn.pos + 1);
    }
    var els := if ts[thn.pos + 1].KwIf? then ParseIf(ts, thn.pos + 1) else ParseBlock(ts, thn.pos + 1);
    f := IfForm(g, b, Some(h));
    if els.clean {
      ShowsIfElse(ts, pos, c.pos, thn.pos, els.pos, g, c.node.value, b, thn.node.value, h, els.node.value);
    }
  }

  lemma {:induction false} ReadWhile(ts: seq<Token>, pos: nat) returns (f: StmtForm)
    requires EndsInEof(ts) && NoStray(ts) && pos < |ts| && ts[pos].KwWhile?
    ensures ReadsStmt(ts, pos, ParseWhile(ts, pos), f)
    decreases |ts| - pos, 9
  {
    hide NoStray, ShowsStmt, ParseBinary, ParseBlock, RecoverStatement, Written, Proper, Meant, Reads;
    f := NOTHING;
    var g := ReadBinary(ts, 0, pos + 1);
    var c := ParseExpression(ts, pos + 1);
    ShownExpression(ts, pos + 1, c, g, 0);
    if c.node.Some? {
      var b := ReadBlock(ts, c.pos);
      var body := ParseBlock(ts, c.pos);
      f := WhileForm(g, b);
      if body.clean {
        ShowsWhile(ts, pos, c.pos, body.pos, g, c.node.value, b, body.node.value);
      }
    }
  }

  // ---------------------------------------------------------------- functions

  /** The header of a function up to its closing parenthesis. */
  lemma ShowsHeader(ts: seq<Token>, from: nat, at: nat, to: nat, fs: seq<ParamForm>, ps: seq<S.Param>)
    requires from <= at && at + 3 < to <= |ts| && ts[at].KwFn? && ts[at + 1].Ident? && ts[at + 2].LParen? &&
             ts[to - 1].RParen? && ShowsParams(ts, at + 3, to - 1, fs, ps)
    ensures ts[from..to] ==
            ts[from..at] + ([KwFn, Ident(ts[at + 1].name), LParen] + (WrittenParams(fs) + [RParen]))
  {
    hide WrittenParams, ProperParams, MeantParams;
    Span(ts, from, at, to);
    assert ts[at..at + 3] == [KwFn, Ident(ts[at + 1].name), LParen];
    Span(ts, at, at + 3, to);
    Span(ts, at + 3, to - 1, to);
    One(ts, to - 1);
  }

  /** The whole function, behind the header: a return type or none, and a body or a semicolon. */
  lemma ShowsFunction(ts: seq<Token>, from: nat, at: nat, mid: nat, to: nat, q: S.Qualifiers, fs: seq<ParamForm>,
      ps: seq<S.Param>, ret: Option<ValueType>, body: Option<StmtForm>, definition: Option<S.Stmt>)
    requires from <= at && at + 3 < mid <= to <= |ts| && ts[at].KwFn? && ts[at + 1].Ident? && ts[at + 2].LParen? &&
             ts[mid - 1].RParen? && ShowsParams(ts, at + 3, mid - 1, fs, ps)
    requires AreQualifiers(ts[from..at]) && q == QualifiersOf(ts[from..at]) && ret != Some(Unresolved)
    requires ts[mid..to] == (if ret.Some? then [KwType(ret.value)] else []) +
                            (if body.Some? then WrittenStmt(body.value) else [Semicolon])
    requires body.Some? <==> definition.Some?
    requires body.Some? ==> body.value.BlockForm? && ProperStmt(body.value) && MeantStmt(body.value) == definition.value
    ensures ShowsStmt(ts, from, to, FuncForm(ts[from..at], ts[at + 1].name, fs, ret, body),
                      S.FuncDecl(q, ts[at + 1].name, ps, if ret.Some? then ret.value else Void, definition))
  {
    hide WrittenParams, ProperParams, MeantParams, AreQualifiers, QualifiersOf;
    ShowsHeader(ts, from, at, mid, fs, ps);
    Span(ts, from, mid, to);
    var quals, head := ts[from..at], [KwFn, Ident(ts[at + 1].name), LParen];
    var tail := ts[mid..to];
    Chained(quals, head, WrittenParams(fs), [RParen], tail);
    FuncWritten(ts[from..at], ts[at + 1].name, fs, ret, body);
  }

  lemma Chained(a: seq<Token>, b: seq<Token>, c: seq<Token>, d: seq<Token>, e: seq<Token>)
    ensures a + (b + (c + d)) + e == a + (b + (c + (d + e)))
  {}

  lemma FuncWritten(quals: seq<Token>, name: string, fs: seq<ParamForm>, ret: Option<ValueType>, body: Option<StmtForm>)
    ensures WrittenStmt(FuncForm(quals, name, fs, ret, body)) ==
            quals + ([KwFn, Ident(name), LParen] + (WrittenParams(fs) + ([RParen] +
              ((if ret.Some? then [KwType(ret.value)] else []) +
               (if body.Some? then WrittenStmt(body.value) else [Semicolon])))))
  {
    hide WrittenParams;
  }

  lemma {:induction false} ReadFunc(ts: seq<Token>, from: nat, at: nat, q: S.Qualifiers) returns (f: StmtForm)
    requires EndsInEof(ts) && NoStray(ts) && from <= at < |ts| && ts[at].KwFn?
    requires AreQualifiers(ts[from..at]) && q == QualifiersOf(ts[from..at])
    ensures ReadsStmt(ts, from, ParseFuncDecl(ts, at, q), f)
    decreases |ts| - at, 9
  {
    hide NoStray, ShowsStmt, ShowsParams, ParseParamList, ParseBlock, RecoverStatement, AreQualifiers, QualifiersOf,
         WrittenStmt, ProperStmt, MeantStmt, IsType;
    f := NOTHING;
    NotStray(ts, at + 1);
    if ts[at + 1].Ident? {
      var fs := ReadParamList(ts, at + 2);
      var params := ParseParamList(ts, at + 2);
      if params.clean {
        var mid := params.pos;
        NotStray(ts, mid);
        f := ReadRest(ts, from, at, q, fs, mid);
      }
    }
  }

  /** Behind the parameters. */
  lemma {:induction false} ReadRest(ts: seq<Token>, from: nat, at: nat, q: S.Qualifiers, fs: seq<ParamForm>, mid: nat)
    returns (f: StmtForm)
    requires EndsInEof(ts) && NoStray(ts) && from <= at && at + 3 < mid < |ts| && ts[at].KwFn? && ts[at + 1].Ident?
    requires AreQualifiers(ts[from..at]) && q == QualifiersOf(ts[from..at])
    requires var params := ParseParamList(ts, at + 2);
             params.node.Some? && params.pos == mid && ts[at + 2].LParen? && ts[mid - 1].RParen? &&
             ShowsParams(ts, at + 3, mid - 1, fs, params.node.value)
    ensures ReadsStmt(ts, from, ParseFuncDecl(ts, at, q), f)
    decreases |ts| - at, 8
  {
    hide NoStray, ShowsStmt, ShowsParams, ParseParamList, ParseBlock, RecoverStatement, AreQualifiers, QualifiersOf,
         WrittenStmt, ProperStmt, MeantStmt;
    f := NOTHING;
    var ps := ParseParamList(ts, at + 2).node.value;
    NotStray(ts, mid);
    if IsType(ts[mid]) || ts[mid].LBrace? || ts[mid].Semicolon? {
      var ret := if IsType(ts[mid]) then Some(ts[mid].t) else None;
      var next := if IsType(ts[mid]) then mid + 1 else mid;
      NotStray(ts, next);
      var head := if ret.Some? then [KwType(ret.value)] else [];
      assert ts[mid..next] == head;
      if ts[next].Semicolon? {
        f := FuncForm(ts[from..at], ts[at + 1].name, fs, ret, None);
        One(ts, next);
        Span(ts, mid, next, next + 1);
        ShowsFunction(ts, from, at, mid, next + 1, q, fs, ps, ret, None, None);
      } else if ts[next].LBrace? {
        var h := ReadBlock(ts, next);
        var b := ParseBlock(ts, next);
        f := FuncForm(ts[from..at], ts[at + 1].name, fs, ret, Some(h));
        if b.clean {
          ShownStmt(ts, next, b.pos, h, b.node.value);
          Span(ts, mid, next, b.pos);
          ShowsFunction(ts, from, at, mid, b.pos, q, fs, ps, ret, Some(h), b.node);
        }
      }
    }
  }

  lemma ShownStmt(ts: seq<Token>, from: nat, to: nat, f: StmtForm, s: S.Stmt)
    requires ShowsStmt(ts, from, to, f, s)
    ensures from <= to <= |ts| && ts[from..to] == WrittenStmt(f) && ProperStmt(f) && MeantStmt(f) == s
  {
    hide WrittenStmt, ProperStmt, MeantStmt;
  }

  lemma {:induction false} ReadDecl(ts: seq<Token>, pos: nat) returns (f: StmtForm)
    requires EndsInEof(ts) && NoStray(ts) && pos < |ts|
    ensures ReadsStmt(ts, pos, ParseDecl(ts, pos), f)
    decreases |ts| - pos, 10
  {
    hide NoStray, ShowsStmt, ParseQualifiers, ParseFuncDecl, ParseVarDecl, RecoverStatement, AreQualifiers,
         QualifiersOf,
         IsType;
    f := NOTHING;
    PlainQualifiers(ts, pos);
    var q := ParseQualifiers(ts, pos, NO_QUALIFIERS);
    NotStray(ts, q.1);
    if ts[q.1].KwFn? {
      f := ReadFunc(ts, pos, q.1, q.0);
    } else if IsType(ts[q.1]) {
      f := ReadVarDecl(ts, pos, q.1, q.0);
    }
  }

  /** A statement read without a report: its tokens are those of a proper statement that stands for it. */
  lemma {:induction false} ReadStatement(ts: seq<Token>, pos: nat) returns (f: StmtForm)
    requires EndsInEof(ts) && NoStray(ts) && pos < |ts|
    ensures ReadsStmt(ts, pos, ParseStatement(ts, pos), f)
    decreases |ts| - pos, 12
  {
    hide NoStray, ShowsStmt, ParseDecl, ParseVarAssign, ParseBlock, ParseIf, ParseWhile, ParseReturn, ParseExprStmt,
         IsType, IsQualifier, IsAssign;
    if IsType(ts[pos]) || ts[pos].KwFn? || IsQualifier(ts[pos]) {
      f := ReadDecl(ts, pos);
    } else if ts[pos].Ident? && IsAssign(Peek(ts, pos + 1)) {
      NameIsNotLast(ts, pos);
      f := ReadAssign(ts, pos);
    } else if ts[pos].LBrace? {
      f := ReadBlock(ts, pos);
    } else if ts[pos].KwIf? {
      f := ReadIf(ts, pos);
    } else if ts[pos].KwWhile? {
      f := ReadWhile(ts, pos);
    } else if ts[pos].KwReturn? {
      f := ReadReturn(ts, pos);
    } else {
      f := ReadExprStmt(ts, pos);
    }
  }

  lemma NameIsNotLast(ts: seq<Token>, pos: nat)
    requires EndsInEof(ts) && pos < |ts| && ts[pos].Ident?
    ensures pos + 1 < |ts| && Peek(ts, pos + 1) == ts[pos + 1]
  {}

  // ---------------------------------------------------------------- files

  /** `import` and the names of a path, or a declaration. */
  datatype ItemForm = ImportForm(names: seq<string>) | DeclarationForm(f: StmtForm)

  function WrittenPath(names: seq<string>): seq<Token> {
    if |names| == 0 then [] else if |names| == 1 then [Ident(names[0])]
      else [Ident(names[0]), Dot] + WrittenPath(names[1..])
  }

  function WrittenItem(item: ItemForm): seq<Token> {
    match item
    case ImportForm(names) => [KwImport] + (WrittenPath(names) + [Semicolon])
    case DeclarationForm(f) => WrittenStmt(f)
  }

  function MeantItem(item: ItemForm): Item {
    match item
    case ImportForm(names) => Import(Mangling.Join(names) + EXTENSION)
    case DeclarationForm(f) => Declaration(MeantStmt(f))
  }

  /** At the top of a file there are no statements: a declaration begins with `fn` or a qualifier. */
  predicate ProperItem(item: ItemForm) {
    match item
    case ImportForm(names) => |names| > 0
    case DeclarationForm(f) => (f.FuncForm? || (f.DeclForm? && |f.quals| > 0)) && ProperStmt(f)
  }

  function WrittenItems(items: seq<ItemForm>): seq<Token> {
    if |items| == 0 then [] else WrittenItem(items[0]) + WrittenItems(items[1..])
  }

  function MeantItems(items: seq<ItemForm>): seq<Item> {
    if |items| == 0 then [] else [MeantItem(items[0])] + MeantItems(items[1..])
  }

  lemma {:induction false} ReadPath(ts: seq<Token>, pos: nat, path: string) returns (names: seq<string>)
    requires EndsInEof(ts) && NoStray(ts) && pos < |ts|
    ensures var r := ImportPath(ts, pos, path, true);
            r.clean && r.node.Some? ==>
              |names| > 0 && pos < r.pos - 1 && ts[pos..r.pos - 1] == WrittenPath(names) && ts[r.pos - 1].Semicolon? &&
              r.node.value == path + Mangling.Join(names) + EXTENSION
    decreases |ts| - pos
  {
    hide NoStray, Mangling.Join, WrittenPath;
    names := [];
    var r := ImportPath(ts, pos, path, true);
    if r.clean && r.node.Some? {
      NotStray(ts, pos);
      var name := ts[pos].name;
      NotStray(ts, pos + 1);
      if ts[pos + 1].Semicolon? {
        names := [name];
        One(ts, pos);
        OneName(name);
      } else {
        var rest := ReadPath(ts, pos + 2, path + name + "/");
        names := [name] + rest;
        Two(ts, pos);
        Span(ts, pos, pos + 2, r.pos - 1);
        MoreNames(name, rest);
        assert path + name + "/" + Mangling.Join(rest) + EXTENSION ==
          path + (name + "/" + Mangling.Join(rest)) + EXTENSION;
      }
    }
  }

  lemma OneName(name: string)
    ensures WrittenPath([name]) == [Ident(name)] && Mangling.Join([name]) == name
  {}

  lemma MoreNames(name: string, rest: seq<string>)
    requires |rest| > 0
    ensures WrittenPath([name] + rest) == [Ident(name), Dot] + WrittenPath(rest)
    ensures Mangling.Join([name] + rest) == name + "/" + Mangling.Join(rest)
  {
    assert ([name] + rest)[1..] == rest;
  }

  /** No import is dropped for its length. */
  predicate ImportsKept(ts: seq<Token>)
    requires EndsInEof(ts)
  {
    forall p :: 0 <= p < |ts| - 1 && ts[p].KwImport? && ImportPath(ts, p + 1, "", true).clean ==>
      ImportPath(ts, p + 1, "", true).node.Some?
  }

  ghost predicate ShowsItem(ts: seq<Token>, from: nat, to: nat, f: ItemForm, item: Item) {
    from <= to <= |ts| && ts[from..to] == WrittenItem(f) && ProperItem(f) && MeantItem(f) == item
  }

  lemma ShowsImport(ts: seq<Token>, pos: nat, to: nat, names: seq<string>)
    requires pos + 1 < to <= |ts| && ts[pos].KwImport? && ts[to - 1].Semicolon? && |names| > 0
    requires ts[pos + 1..to - 1] == WrittenPath(names)
    ensures ShowsItem(ts, pos, to, ImportForm(names), Import(Mangling.Join(names) + EXTENSION))
  {
    hide Mangling.Join, WrittenPath;
    PathEnded(ts, pos + 1, to, WrittenPath(names));
    One(ts, pos);
    Span(ts, pos, pos + 1, to);
  }

  lemma PathEnded(ts: seq<Token>, from: nat, to: nat, path: seq<Token>)
    requires from < to <= |ts| && ts[to - 1].Semicolon? && ts[from..to - 1] == path
    ensures ts[from..to] == path + [Semicolon]
  {
    One(ts, to - 1);
    Span(ts, from, to - 1, to);
  }

  /** What begins with `fn` or a qualifier is a function, or a variable with a qualifier. */
  lemma DeclarationShape(ts: seq<Token>, pos: nat, to: nat, f: StmtForm, s: S.Stmt)
    requires ShowsStmt(ts, pos, to, f, s) && pos < |ts| && (ts[pos].KwFn? || IsQualifier(ts[pos]))
    requires s.Decl? || s.FuncDecl?
    ensures ShowsItem(ts, pos, to, DeclarationForm(f), Declaration(s))
  {
    FirstOfDecl(f);
    if to > pos {
      assert ts[pos..to][0] == ts[pos];
    }
  }

  lemma FirstOfDecl(f: StmtForm)
    ensures f.DeclForm? && |f.quals| == 0 ==> |WrittenStmt(f)| > 0 && WrittenStmt(f)[0] == KwType(f.t)
  {}

  lemma DeclIsDeclaration(ts: seq<Token>, pos: nat)
    requires EndsInEof(ts) && pos < |ts| && ParseDecl(ts, pos).node.Some?
    ensures ParseDecl(ts, pos).node.value.Decl? || ParseDecl(ts, pos).node.value.FuncDecl?
  {
    hide ParseExpression, ParseBlock, ParseParamList, ParseQualifiers, RecoverStatement;
  }

  lemma {:induction false} ReadItem(ts: seq<Token>, pos: nat) returns (f: ItemForm)
    requires EndsInEof(ts) && NoStray(ts) && ImportsKept(ts) && pos < |ts| && !ts[pos].Eof?
    ensures var r := ParseTopLevel(ts, pos);
            r.clean ==> r.node.Some? && ShowsItem(ts, pos, r.pos, f, r.node.value)
  {
    hide NoStray, ShowsStmt, ShowsItem, ParseDecl, ImportPath, RecoverTopLevel, Mangling.Join, WrittenPath;
    f := ImportForm([]);
    if ts[pos].KwFn? || IsQualifier(ts[pos]) {
      var g := ReadDecl(ts, pos);
      var d := ParseDecl(ts, pos);
      if d.clean {
        DeclIsDeclaration(ts, pos);
        DeclarationShape(ts, pos, d.pos, g, d.node.value);
        f := DeclarationForm(g);
      }
    } else if ts[pos].KwImport? {
      var names := ReadPath(ts, pos + 1, "");
      var i := ImportPath(ts, pos + 1, "", true);
      if i.clean {
        ShowsImport(ts, pos, i.pos, names);
        f := ImportForm(names);
        assert "" + Mangling.Join(names) + EXTENSION == Mangling.Join(names) + EXTENSION;
      }
    }
  }

  lemma ItemsCons(ts: seq<Token>, from: nat, at: nat, to: nat, f: ItemForm, item: Item, fs: seq<ItemForm>)
    requires ShowsItem(ts, from, at, f, item) && at <= to <= |ts| && ts[at..to] == WrittenItems(fs)
    requires forall i :: 0 <= i < |fs| ==> ProperItem(fs[i])
    ensures ts[from..to] == WrittenItems([f] + fs) && MeantItems([f] + fs) == [item] + MeantItems(fs)
    ensures forall i :: 0 <= i < |fs| + 1 ==> ProperItem(([f] + fs)[i])
  {
    hide WrittenItem, MeantItem, ProperItem;
    Span(ts, from, at, to);
    assert ([f] + fs)[1..] == fs;
  }

  /** A file with no stray text and no import that is too long, parsed without a report: its tokens, up to the end,
    * are those of proper items, and these stand for what the parser delivers. */
  lemma {:induction false} CleanFileIsWritten(ts: seq<Token>, pos: nat) returns (fs: seq<ItemForm>)
    requires EndsInEof(ts) && NoStray(ts) && ImportsKept(ts) && pos < |ts| && ParseItems(ts, pos).clean
    ensures var r := ParseItems(ts, pos);
            ts[r.pos].Eof? && ts[pos..r.pos] == WrittenItems(fs) && MeantItems(fs) == r.node.value &&
            forall i :: 0 <= i < |fs| ==> ProperItem(fs[i])
    decreases |ts| - pos
  {
    hide NoStray, ShowsItem, ParseTopLevel, ImportsKept, ProperItem;
    if ts[pos].Eof? {
      fs := [];
    } else {
      var f := ReadItem(ts, pos);
      var first := ParseTopLevel(ts, pos);
      var more := CleanFileIsWritten(ts, first.pos);
      fs := [f] + more;
      ItemsCons(ts, pos, first.pos, ParseItems(ts, first.pos).pos, f, first.node.value, more);
    }
  }
}
