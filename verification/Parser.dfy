/** The parser as it runs: one cursor moved forward in place, operators, arguments, statements and
  * recovery in loops. Every method moves the cursor and builds the tree as the functions of Parsing
  * say; that the methods verify without a bound is their termination on every token list. */
module Parser {
  import opened Values
  import opened Arith
  import opened Tokens
  import opened Parsing
  import S = Syntax

  lemma BinaryUnfolds(ts: seq<Token>, level: nat, pos: nat)
    requires EndsInEof(ts) && pos < |ts| && level <= LEVELS
    ensures level == LEVELS ==> ParseBinary(ts, level, pos) == ParseCast(ts, pos)
    ensures level < LEVELS ==>
              var first := ParseBinary(ts, level + 1, pos);
              ParseBinary(ts, level, pos) == if first.node.None? then first
                else BinaryLoop(ts, level, first.node.value, first.pos)
  {
    hide ParseCast, BinaryLoop;
  }

  lemma LoopUnfolds(ts: seq<Token>, level: nat, left: S.Expr, pos: nat)
    requires EndsInEof(ts) && pos < |ts| && level < LEVELS
    ensures LevelOf(ts[pos]) != Some(level) ==> BinaryLoop(ts, level, left, pos) == Out(Some(left), pos, true)
    ensures LevelOf(ts[pos]) == Some(level) ==>
              var right := ParseBinary(ts, level + 1, pos + 1);
              right.node.Some? ==>
                var e := S.Binary(BinaryOpOf(ts[pos]).value, left, right.node.value);
                BinaryLoop(ts, level, left, pos) ==
                if Chainable(level) then BinaryLoop(ts, level, e, right.pos) else Out(Some(e), right.pos, true)
    ensures LevelOf(ts[pos]) == Some(level) && ParseBinary(ts, level + 1, pos + 1).node.None? ==>
              BinaryLoop(ts, level, left, pos) == ParseBinary(ts, level + 1, pos + 1)
  {
    hide ParseBinary;
  }

  class TokenParser {
    const tokens: seq<Token>
    var current: nat
    /** Nothing has been reported so far. */
    var clean: bool

    ghost predicate Valid()
      reads this
    {
      EndsInEof(tokens) && current < |tokens|
    }

    constructor (tokens: seq<Token>)
      requires EndsInEof(tokens)
      ensures Valid() && this.tokens == tokens && current == 0 && clean
    {
      this.tokens := tokens;
      current, clean := 0, true;
    }

    /** The cursor and the report after a step that the functions describe by `r`. */
    ghost predicate After<T>(r: Out<T>, node: Option<T>, before: bool)
      reads this
    {
      Valid() && node == r.node && current == r.pos && clean == (before && r.clean)
    }

    function PeekToken(): Token
      requires Valid()
      reads this
    {
      tokens[current]
    }

    method Advance() returns (k: Token)
      requires Valid()
      modifies this`current
      ensures Valid() && k == tokens[old(current)] && current == if k.Eof? then old(current) else old(current) + 1
    {
      k := tokens[current];
      if !k.Eof? {
        current := current + 1;
      }
    }

    method Report()
      requires Valid()
      modifies this`clean
      ensures clean == (old(clean) && PeekToken().Undefined?)
    {
      if !tokens[current].Undefined? {
        clean := false;
      }
    }

    // -------------------------------------------------------------- recovery

    method RecoverFromExpression()
      requires Valid()
      modifies this`current
      ensures Valid() && current == RecoverExpression(tokens, old(current))
    {
      while !PeekToken().Eof? && !StopsExpression(PeekToken())
        invariant Valid() && old(current) <= current
        invariant RecoverExpression(tokens, old(current)) == RecoverExpression(tokens, current)
        decreases |tokens| - current
      {
        current := current + 1;
      }
    }

    method RecoverFromStatement()
      requires Valid()
      modifies this`current
      ensures Valid() && current == RecoverStatement(tokens, old(current))
    {
      while !PeekToken().Eof?
        invariant Valid() && old(current) <= current
        invariant RecoverStatement(tokens, old(current)) == RecoverStatement(tokens, current)
        decreases |tokens| - current
      {
        if PeekToken().Semicolon? {
          current := current + 1;
          return;
        }
        if StopsStatement(PeekToken()) {
          return;
        }
        current := current + 1;
      }
    }

    method RecoverFromTopLevel()
      requires Valid()
      modifies this`current
      ensures Valid() && current == RecoverTopLevel(tokens, old(current))
    {
      if !PeekToken().Eof? {
        current := current + 1;
      }
      ghost var start := current;
      var depth: nat := 0;
      while !PeekToken().Eof?
        invariant Valid() && start <= current
        invariant SkipTopLevel(tokens, start, 0) == SkipTopLevel(tokens, current, depth)
        decreases |tokens| - current
      {
        var k := PeekToken();
        if k.LBrace? {
          depth := depth + 1;
        } else if k.RBrace? {
          if depth > 0 {
            depth := depth - 1;
          }
        } else if k.Semicolon? {
          if depth == 0 {
            current := current + 1;
            return;
          }
        } else if StopsTopLevel(k) && depth == 0 {
          return;
        }
        current := current + 1;
      }
    }

    /** Report what is at the cursor, recover inside an expression, and give no tree. */
    method FailExpression<T>() returns (node: Option<T>)
      requires Valid()
      modifies this
      ensures After(Fail<T>(tokens, old(current), RecoverExpression(tokens, old(current))), node, old(clean))
    {
      Report();
      RecoverFromExpression();
      node := None;
    }

    method FailStatement<T>() returns (node: Option<T>)
      requires Valid()
      modifies this
      ensures After(Abandon<T>(tokens, old(current), tokens[old(current)].Undefined?), node, old(clean))
    {
      Report();
      RecoverFromStatement();
      node := None;
    }

    // -------------------------------------------------------------- expressions

    method Primary() returns (node: Option<S.Expr>)
      requires Valid()
      modifies this
      ensures After(ParsePrimary(tokens, old(current)), node, old(clean))
      decreases |tokens| - current, 0
    {
      var k := PeekToken();
      if k.LParen? {
        var _ := Advance();
        node := Binary(0);
        if node.None? {
          return;
        }
        if !PeekToken().RParen? {
          node := FailExpression();
          return;
        }
        var _ := Advance();
        return;
      }
      if k.Integer? || k.KwTrue? || k.KwFalse? {
        var _ := Advance();
        return Some(if k.Integer? then S.Number(k.value) else S.Boolean(k.KwTrue?));
      }
      if k.Ident? {
        var _ := Advance();
        if PeekToken().LParen? {
          node := Call(k.name);
        } else {
          node := Some(S.Identifier(k.name));
        }
        return;
      }
      node := FailExpression();
    }

    method Call(name: string) returns (node: Option<S.Expr>)
      requires Valid() && PeekToken().LParen?
      modifies this
      ensures After(ParseCall(tokens, name, old(current)), node, old(clean))
      decreases |tokens| - current, 26
    {
      hide ParseBinary;
      var _ := Advance();
      ghost var start := current;
      var args: seq<S.Expr> := [];
      if !PeekToken().RParen? {
        ghost var was := clean;
        PrependNothing(ParseArgs(tokens, current));
        var more := true;
        while more
          invariant Valid() && start <= current && clean == was
          invariant more ==> Prepended(args, ParseArgs(tokens, current)) == ParseArgs(tokens, start)
          invariant !more ==> ParseArgs(tokens, start) == Out(Some(args), current, true)
          decreases more, |tokens| - current
        {
          var arg := Binary(0);
          if arg.None? {
            return None;
          }
          args := args + [arg.value];
          more := PeekToken().Comma?;
          if more {
            var _ := Advance();
            PrependMore(args[..|args| - 1], arg.value, ParseArgs(tokens, current));
            assert args[..|args| - 1] + [arg.value] == args;
          }
        }
      }
      if !PeekToken().RParen? {
        node := FailExpression();
        return;
      }
      var _ := Advance();
      node := Some(S.Call(name, args));
    }

    method Postfix() returns (node: Option<S.Expr>)
      requires Valid()
      modifies this
      ensures After(ParsePostfix(tokens, old(current)), node, old(clean))
      decreases |tokens| - current, 1
    {
      hide ParsePrimary;
      node := Primary();
      if node.None? {
        return;
      }
      ghost var first, start := node.value, current;
      while PostfixOf(PeekToken()).Some?
        invariant Valid() && start <= current && node.Some? && clean == old(clean)
        invariant PostfixLoop(tokens, first, start) == PostfixLoop(tokens, node.value, current)
        decreases |tokens| - current
      {
        var k := Advance();
        node := Some(S.Unary(PostfixOf(k).value, node.value));
      }
    }

    method Unary() returns (node: Option<S.Expr>)
      requires Valid()
      modifies this
      ensures After(ParseUnary(tokens, old(current)), node, old(clean))
      decreases |tokens| - current, 2
    {
      hide ParsePostfix;
      var kind := PrefixOf(PeekToken());
      if kind.None? {
        node := Postfix();
        return;
      }
      var _ := Advance();
      node := Unary();
      if node.Some? {
        node := Some(S.Unary(kind.value, node.value));
      }
    }

    method Cast() returns (node: Option<S.Expr>)
      requires Valid()
      modifies this
      ensures After(ParseCast(tokens, old(current)), node, old(clean))
      decreases |tokens| - current, 3
    {
      hide ParseUnary;
      node := Unary();
      if node.None? {
        return;
      }
      ghost var first, start := node.value, current;
      while PeekToken().KwAs?
        invariant Valid() && start <= current && node.Some? && clean == old(clean)
        invariant CastLoop(tokens, first, start) == CastLoop(tokens, node.value, current)
        decreases |tokens| - current
      {
        var _ := Advance();
        if !IsType(PeekToken()) {
          node := FailExpression();
          return;
        }
        var k := Advance();
        node := Some(S.Cast(node.value, k.t));
      }
    }

    method Binary(level: nat) returns (node: Option<S.Expr>)
      requires Valid() && level <= LEVELS
      modifies this
      ensures After(ParseBinary(tokens, level, old(current)), node, old(clean))
      decreases |tokens| - current, 4 + 2 * (LEVELS - level)
    {
      hide ParseCast, ParseBinary, BinaryLoop;
      BinaryUnfolds(tokens, level, current);
      if level == LEVELS {
        node := Cast();
        return;
      }
      node := Binary(level + 1);
      if node.None? {
        return;
      }
      ghost var first, start := node.value, current;
      while LevelOf(PeekToken()) == Some(level)
        invariant Valid() && start <= current && node.Some? && clean == old(clean)
        invariant BinaryLoop(tokens, level, first, start) == BinaryLoop(tokens, level, node.value, current)
        decreases |tokens| - current
      {
        LoopUnfolds(tokens, level, node.value, current);
        var k := Advance();
        var right := Binary(level + 1);
        if right.None? {
          return None;
        }
        node := Some(S.Binary(BinaryOpOf(k).value, node.value, right.value));
        if !Chainable(level) {
          return;
        }
      }
      LoopUnfolds(tokens, level, node.value, current);
    }
  
    // -------------------------------------------------------------- statements

    method Qualifiers() returns (quals: S.Qualifiers)
      requires Valid()
      modifies this`current
      ensures Valid() && (quals, current) == ParseQualifiers(tokens, old(current), NO_QUALIFIERS)
    {
      quals := NO_QUALIFIERS;
      while IsQualifier(PeekToken())
        invariant Valid() && old(current) <= current
        invariant ParseQualifiers(tokens, old(current), NO_QUALIFIERS) == ParseQualifiers(tokens, current, quals)
        decreases |tokens| - current
      {
        var k := Advance();
        quals := AddQualifier(quals, k);
      }
    }

    method Finish(s: S.Stmt) returns (node: Option<S.Stmt>)
      requires Valid()
      modifies this
      ensures After(EndStatement(tokens, old(current), s), node, old(clean))
    {
      if PeekToken().Semicolon? {
        var _ := Advance();
        return Some(s);
      }
      node := FailStatement();
    }

    /** No tree, and recovery, after an error that has been reported already. */
    method GiveUp<T>() returns (node: Option<T>)
      requires Valid()
      modifies this`current
      ensures Valid() && node.None? && current == RecoverStatement(tokens, old(current))
    {
      RecoverFromStatement();
      node := None;
    }

    method VarDecl(quals: S.Qualifiers) returns (node: Option<S.Stmt>)
      requires Valid()
      modifies this
      ensures After(ParseVarDecl(tokens, old(current), quals), node, old(clean))
    {
      hide ParseBinary, RecoverStatement;
      if !IsType(PeekToken()) {
        node := FailStatement();
        return;
      }
      var t := Advance();
      if !PeekToken().Ident? {
        node := FailStatement();
        return;
      }
      var name := Advance();
      var value: Option<S.Expr> := None;
      if PeekToken().Equal? {
        var _ := Advance();
        value := Binary(0);
        if value.None? {
          node := GiveUp();
          return;
        }
      }
      node := Finish(S.Decl(quals, t.t, name.name, value));
    }

    method VarAssign() returns (node: Option<S.Stmt>)
      requires Valid() && PeekToken().Ident? && IsAssign(tokens[current + 1])
      modifies this
      ensures After(ParseVarAssign(tokens, old(current)), node, old(clean))
    {
      hide ParseBinary, RecoverStatement;
      var name := Advance();
      var op := Advance();
      var value := Binary(0);
      if value.None? {
        node := GiveUp();
        return;
      }
      var e := if op.Equal? then value.value else S.Binary(BinaryOpOf(op).value, S.Identifier(name.name), value.value);
      node := Finish(S.Assign(name.name, e));
    }

    method ReturnStmt() returns (node: Option<S.Stmt>)
      requires Valid() && PeekToken().KwReturn?
      modifies this
      ensures After(ParseReturn(tokens, old(current)), node, old(clean))
    {
      hide ParseBinary, RecoverStatement;
      var _ := Advance();
      var value: Option<S.Expr> := None;
      if !PeekToken().Semicolon? {
        value := Binary(0);
        if value.None? {
          node := GiveUp();
          return;
        }
      }
      node := Finish(S.Return(value));
    }

    method ExprStmt() returns (node: Option<S.Stmt>)
      requires Valid()
      modifies this
      ensures After(ParseExprStmt(tokens, old(current)), node, old(clean))
    {
      hide ParseBinary, RecoverStatement;
      var e := Binary(0);
      if e.None? {
        node := GiveUp();
        return;
      }
      node := Finish(S.ExprStmt(e.value));
    }

    method Block() returns (node: Option<S.Stmt>)
      requires Valid()
      modifies this
      ensures After(ParseBlock(tokens, old(current)), node, old(clean))
      decreases |tokens| - current, 8
    {
      hide ParseStatement, RecoverStatement;
      if !PeekToken().LBrace? {
        node := FailStatement();
        return;
      }
      var _ := Advance();
      ghost var begin, was := current, clean;
      var stmts: seq<S.Stmt> := [];
      LoopNothing(BlockLoop(tokens, current), was);
      while !PeekToken().RBrace? && !PeekToken().Eof?
        invariant Valid() && begin <= current
        invariant Looped(stmts, clean, BlockLoop(tokens, current)) == Looped([], was, BlockLoop(tokens, begin))
        decreases |tokens| - current
      {
        ghost var before, clean0, at := stmts, clean, current;
        var start := current;
        var s := Statement();
        ghost var first := ParseStatement(tokens, at);
        if s.Some? {
          stmts := stmts + [s.value];
        } else if current == start {
          var _ := Advance();
        }
        LoopMore(before, clean0, first, BlockLoop(tokens, current));
      }
      assert stmts + [] == stmts;
      if !PeekToken().RBrace? {
        node := FailStatement();
        return;
      }
      var _ := Advance();
      node := Some(S.Block(stmts));
    }

    method If() returns (node: Option<S.Stmt>)
      requires Valid() && PeekToken().KwIf?
      modifies this
      ensures After(ParseIf(tokens, old(current)), node, old(clean))
      decreases |tokens| - current, 9
    {
      hide ParseBinary, RecoverStatement, ParseBlock;
      var _ := Advance();
      var cond := Binary(0);
      if cond.None? {
        node := GiveUp();
        return;
      }
      var thn := Block();
      if thn.None? {
        node := GiveUp();
        return;
      }
      var els: Option<S.Stmt> := None;
      if PeekToken().KwElse? {
        var _ := Advance();
        if PeekToken().KwIf? {
          els := If();
        } else {
          els := Block();
        }
        if els.None? {
          node := GiveUp();
          return;
        }
      }
      node := Some(S.If(cond.value, thn.value, els));
    }

    method While() returns (node: Option<S.Stmt>)
      requires Valid() && PeekToken().KwWhile?
      modifies this
      ensures After(ParseWhile(tokens, old(current)), node, old(clean))
      decreases |tokens| - current, 9
    {
      hide ParseBinary, RecoverStatement, ParseBlock;
      var _ := Advance();
      var cond := Binary(0);
      if cond.None? {
        node := GiveUp();
        return;
      }
      var body := Block();
      if body.None? {
        node := GiveUp();
        return;
      }
      node := Some(S.While(cond.value, body.value));
    }

    method ParamList() returns (node: Option<seq<S.Param>>)
      requires Valid()
      modifies this
      ensures After(ParseParamList(tokens, old(current)), node, old(clean))
    {
      hide ParseQualifiers, RecoverStatement;
      if !PeekToken().LParen? {
        node := FailStatement();
        return;
      }
      var _ := Advance();
      ghost var start, was := current, clean;
      var params: seq<S.Param> := [];
      if !PeekToken().RParen? {
        PrependNothing(ParseParams(tokens, current));
        var more := true;
        while more
          invariant Valid() && start <= current && clean == was
          invariant more ==> Prepended(params, ParseParams(tokens, current)) == ParseParams(tokens, start)
          invariant !more ==> ParseParams(tokens, start) == Out(Some(params), current, true)
          decreases more, |tokens| - current
        {
          var quals := Qualifiers();
          if !IsType(PeekToken()) {
            node := FailStatement();
            return;
          }
          var t := Advance();
          if !PeekToken().Ident? {
            node := FailStatement();
            return;
          }
          var name := Advance();
          ghost var before := params;
          var p := S.Param(quals, t.t, name.name);
          params := params + [p];
          more := PeekToken().Comma?;
          if more {
            var _ := Advance();
            PrependMore(before, p, ParseParams(tokens, current));
          }
        }
      }
      if !PeekToken().RParen? {
        node := FailStatement();
        return;
      }
      var _ := Advance();
      node := Some(params);
    }

    method FuncDecl(quals: S.Qualifiers) returns (node: Option<S.Stmt>)
      requires Valid() && PeekToken().KwFn?
      modifies this
      ensures After(ParseFuncDecl(tokens, old(current), quals), node, old(clean))
      decreases |tokens| - current, 9
    {
      hide ParseParamList, RecoverStatement, ParseBlock;
      var _ := Advance();
      if !PeekToken().Ident? {
        node := FailStatement();
        return;
      }
      var name := Advance();
      var params := ParamList();
      if params.None? {
        return None;
      }
      var k := PeekToken();
      var ret := Void;
      if IsType(k) {
        ret := k.t;
        var _ := Advance();
      } else if !k.LBrace? && !k.Semicolon? {
        node := FailStatement();
        return;
      }
      if PeekToken().LBrace? {
        var body := Block();
        if body.None? {
          node := GiveUp();
          return;
        }
        node := Some(S.FuncDecl(quals, name.name, params.value, ret, body));
      } else if PeekToken().Semicolon? {
        var _ := Advance();
        node := Some(S.FuncDecl(quals, name.name, params.value, ret, None));
      } else {
        node := FailStatement();
      }
    }

    method Decl() returns (node: Option<S.Stmt>)
      requires Valid()
      modifies this
      ensures After(ParseDecl(tokens, old(current)), node, old(clean))
      decreases |tokens| - current, 10
    {
      hide ParseQualifiers, RecoverStatement, ParseFuncDecl, ParseVarDecl;
      var quals := Qualifiers();
      if PeekToken().KwFn? {
        node := FuncDecl(quals);
      } else if IsType(PeekToken()) {
        node := VarDecl(quals);
      } else {
        node := FailStatement();
      }
    }

    method Statement() returns (node: Option<S.Stmt>)
      requires Valid()
      modifies this
      ensures After(ParseStatement(tokens, old(current)), node, old(clean))
      decreases |tokens| - current, 12
    {
      hide ParseDecl, ParseVarAssign, ParseBlock, ParseIf, ParseWhile, ParseReturn, ParseExprStmt;
      var k := PeekToken();
      if IsType(k) || k.KwFn? || IsQualifier(k) {
        node := Decl();
      } else if k.Ident? && IsAssign(Peek(tokens, current + 1)) {
        node := VarAssign();
      } else if k.LBrace? {
        node := Block();
      } else if k.KwIf? {
        node := If();
      } else if k.KwWhile? {
        node := While();
      } else if k.KwReturn? {
        node := ReturnStmt();
      } else {
        node := ExprStmt();
      }
    }

    // -------------------------------------------------------------- files

    method ImportItem() returns (node: Option<string>)
      requires Valid() && PeekToken().KwImport?
      modifies this
      ensures After(ImportPath(tokens, old(current) + 1, "", true), node, old(clean))
    {
      var _ := Advance();
      ghost var start := current;
      var path := "";
      var expectName := true;
      while true
        invariant Valid() && start <= current && clean == old(clean)
        invariant ImportPath(tokens, start, "", true) == ImportPath(tokens, current, path, expectName)
        decreases |tokens| - current
      {
        var k := PeekToken();
        if k.Semicolon? {
          if expectName {
            Report();
            return None;
          }
          var _ := Advance();
          break;
        }
        if expectName {
          if !k.Ident? {
            Report();
            return None;
          }
          var _ := Advance();
          if |path| + |k.name| >= IMPORT_PATH_SIZE {
            return None;
          }
          path, expectName := path + k.name, false;
        } else {
          if !k.Dot? {
            Report();
            return None;
          }
          var _ := Advance();
          if |path| + 1 >= IMPORT_PATH_SIZE {
            return None;
          }
          path, expectName := path + "/", true;
        }
      }
      if |path| + |EXTENSION| >= IMPORT_PATH_SIZE {
        return None;
      }
      node := Some(path + EXTENSION);
    }

    method TopLevel() returns (node: Option<Item>)
      requires Valid()
      modifies this
      ensures After(ParseTopLevel(tokens, old(current)), node, old(clean))
    {
      hide ParseDecl, ImportPath, RecoverTopLevel;
      var k := PeekToken();
      if k.KwFn? || IsQualifier(k) {
        var d := Decl();
        if d.None? {
          RecoverFromTopLevel();
          return None;
        }
        return Some(Declaration(d.value));
      }
      if k.KwImport? {
        var i := ImportItem();
        if i.None? {
          RecoverFromTopLevel();
          return None;
        }
        return Some(Import(i.value));
      }
      clean := false;
      RecoverFromTopLevel();
      node := None;
    }

    /** A whole file. The loop makes progress on every token list. */
    method ParseFile() returns (items: seq<Item>)
      requires Valid() && current == 0 && clean
      modifies this
      ensures Valid() && Out(Some(items), current, clean) == ParseItems(tokens, 0)
    {
      hide ParseTopLevel;
      items := [];
      LoopNothing(ParseItems(tokens, 0), true);
      while !PeekToken().Eof?
        invariant Valid()
        invariant Looped(items, clean, ParseItems(tokens, current)) == Looped([], true, ParseItems(tokens, 0))
        decreases |tokens| - current
      {
        ghost var before, clean0, at := items, clean, current;
        var start := current;
        var item := TopLevel();
        ghost var first := ParseTopLevel(tokens, at);
        if item.Some? {
          items := items + [item.value];
        } else if current == start {
          var _ := Advance();
        }
        LoopMore(before, clean0, first, ParseItems(tokens, current));
      }
      assert items + [] == items;
    }
  }

  /** The result of a loop that has collected `found` so far. */
  function Looped<T>(found: seq<T>, clean: bool, rest: Out<seq<T>>): Out<seq<T>> {
    if rest.node.None? then rest else Out(Some(found + rest.node.value), rest.pos, clean && rest.clean)
  }

  lemma LoopNothing<T>(r: Out<seq<T>>, clean: bool)
    ensures r.node.Some? ==> Looped([], clean, r) == Out(r.node, r.pos, clean && r.clean)
  {
    if r.node.Some? {
      assert [] + r.node.value == r.node.value;
    }
  }

  lemma LoopMore<T>(found: seq<T>, clean: bool, first: Out<T>, rest: Out<seq<T>>)
    requires rest.node.Some?
    ensures var one := if first.node.Some? then [first.node.value] else [];
            Looped(found, clean, Out(Some(one + rest.node.value), rest.pos, first.clean && rest.clean)) ==
            Looped(found + one, clean && first.clean, rest)
    ensures found + [] == found
  {
    var one := if first.node.Some? then [first.node.value] else [];
    assert found + (one + rest.node.value) == found + one + rest.node.value;
  }

  /** A list parsed after one that was there already. */
  function Prepended<T>(args: seq<T>, r: Out<seq<T>>): Out<seq<T>> {
    if r.node.None? then r else r.(node := Some(args + r.node.value))
  }

  lemma PrependNothing<T>(r: Out<seq<T>>)
    ensures Prepended([], r) == r
  {
    if r.node.Some? {
      assert [] + r.node.value == r.node.value;
    }
  }

  lemma PrependMore<T>(args: seq<T>, e: T, r: Out<seq<T>>)
    ensures Prepended(args, Prepended([e], r)) == Prepended(args + [e], r)
  {
    if r.node.Some? {
      assert args + ([e] + r.node.value) == args + [e] + r.node.value;
    }
  }
}
