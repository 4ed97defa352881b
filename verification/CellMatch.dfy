/** The cells of a run on the source tree against the analyser's symbols and the frames of a run on the checked
  * tree: the same names in the same scopes, with the types and qualifiers declared, and the same values. */
module CellMatch {
  import opened Values
  import opened Arith
  import opened Scopes
  import opened Analysis
  import opened Resolution
  import C = Checked
  import M = Meaning
  import N = Nested
  import S = Syntax

  // ---------------------------------------------------------------- forgetting types

  function EraseScope(scope: M.Scope): (f: N.Frame)
    ensures forall x :: x in f <==> x in scope
    ensures forall x :: x in scope ==> f[x] == scope[x].value
  {
    map x | x in scope :: scope[x].value
  }

  /** The frames of the checked tree: the cells without their types. */
  function Erase(scopes: M.Scopes): (fs: N.Frames)
    ensures |fs| == |scopes| && forall i :: 0 <= i < |fs| ==> fs[i] == EraseScope(scopes[i])
  {
    seq(|scopes|, i requires 0 <= i < |scopes| => EraseScope(scopes[i]))
  }

  lemma ErasedScope(scopes: M.Scopes, name: string)
    ensures N.FrameOf(Erase(scopes), name) == M.ScopeOf(scopes, name)
  {}

  lemma ErasedRead(scopes: M.Scopes, name: string)
    ensures N.Read(Erase(scopes), name) ==
            if M.CellOf(scopes, name).Some? then M.CellOf(scopes, name).value.value else None
  {
    ErasedScope(scopes, name);
  }

  lemma ErasedStore(scopes: M.Scopes, name: string, v: int)
    ensures Erase(M.Store(scopes, name, v)) == N.Update(Erase(scopes), name, v)
  {
    ErasedScope(scopes, name);
    var a, b := Erase(M.Store(scopes, name, v)), N.Update(Erase(scopes), name, v);
    forall i | 0 <= i < |scopes| ensures a[i] == b[i] {
      assert a[i] == b[i];
    }
    assert a == b;
  }

  lemma ErasedDeclare(scopes: M.Scopes, name: string, cell: M.Cell)
    ensures Erase(M.Declare(scopes, name, cell)) == N.Declare(Erase(scopes), name, cell.value)
  {
    var a, b := Erase(M.Declare(scopes, name, cell)), N.Declare(Erase(scopes), name, cell.value);
    forall i | 0 <= i < |scopes| ensures a[i] == b[i] {
      assert a[i] == b[i];
    }
    assert a == b;
  }

  lemma ErasedOpen(scopes: M.Scopes)
    ensures Erase(scopes + [map[]]) == Erase(scopes) + [map[]]
    ensures Erase(M.Close(scopes)) == N.Pop(Erase(scopes))
  {
    assert EraseScope(map[]) == map[];
    assert Erase(M.Close(scopes)) == N.Pop(Erase(scopes));
  }

  // ---------------------------------------------------------------- cells and symbols

  ghost predicate ScopeTyped(table: Table, scope: M.Scope) {
    (forall x :: x in scope <==> FindIn(table, x).Some?) &&
    forall x :: x in scope ==> CellTyped(table, x, scope[x])
  }

  ghost predicate CellTyped(table: Table, x: string, cell: M.Cell)
  {
    FindIn(table, x).Some? &&
    table[FindIn(table, x).value].t == cell.t && table[FindIn(table, x).value].isMutable == cell.isMutable
  }

  /** The open scopes of the run declare what the analyser's tables do. */
  ghost predicate Typed(stack: Stack, scopes: M.Scopes) {
    |scopes| == |stack| && forall i :: 0 <= i < |stack| ==> ScopeTyped(stack[i], scopes[i])
  }

  lemma CellFound(stack: Stack, scopes: M.Scopes, name: string)
    requires Typed(stack, scopes)
    ensures M.ScopeOf(scopes, name) == FindScope(stack, name)
    ensures M.CellOf(scopes, name).Some? <==> Lookup(stack, name).Some?
    ensures Lookup(stack, name).Some? ==>
              M.CellOf(scopes, name).value.t == Lookup(stack, name).value.t &&
              M.CellOf(scopes, name).value.isMutable == Lookup(stack, name).value.isMutable
  {
    hide CellTyped;
    forall i | 0 <= i < |stack| ensures name in scopes[i] <==> FindIn(stack[i], name).Some? {
      assert ScopeTyped(stack[i], scopes[i]);
    }
    if Lookup(stack, name).Some? {
      var i := FindScope(stack, name).value;
      assert ScopeTyped(stack[i], scopes[i]);
      TypedCell(stack[i], name, scopes[i][name]);
    }
  }

  lemma TypedCell(table: Table, name: string, cell: M.Cell)
    requires CellTyped(table, name, cell)
    ensures FindIn(table, name).Some? && table[FindIn(table, name).value].t == cell.t &&
            table[FindIn(table, name).value].isMutable == cell.isMutable
  {}

  lemma TypedStore(stack: Stack, scopes: M.Scopes, name: string, v: int)
    requires Typed(stack, scopes)
    ensures Typed(stack, M.Store(scopes, name, v))
  {
    forall i | 0 <= i < |stack| ensures ScopeTyped(stack[i], M.Store(scopes, name, v)[i]) {
      assert ScopeTyped(stack[i], scopes[i]);
    }
  }

  lemma {:induction false} FoundSame(a: Table, b: Table, name: string)
    requires SameTable(a, b)
    ensures FindIn(a, name) == FindIn(b, name)
    decreases |a|
  {
    if |a| > 0 {
      assert a[0].name == b[0].name;
      TableTail(a, b);
      FoundSame(a[1..], b[1..], name);
    }
  }

  lemma TableTail(a: Table, b: Table)
    requires SameTable(a, b) && |a| > 0
    ensures SameTable(a[1..], b[1..])
  {
    forall j | 0 <= j < |a[1..]| ensures a[1..][j] == b[1..][j].(initialized := a[1..][j].initialized) {
      assert a[1..][j] == a[j + 1] && b[1..][j] == b[j + 1];
    }
  }

  /** What is initialized does not matter. */
  lemma TypedShape(a: Stack, b: Stack, scopes: M.Scopes)
    requires SameShape(a, b) && Typed(a, scopes)
    ensures Typed(b, scopes)
  {
    forall i | 0 <= i < |b| ensures ScopeTyped(b[i], scopes[i]) {
      assert SameTable(a[i], b[i]) && ScopeTyped(a[i], scopes[i]);
      ScopeShape(a[i], b[i], scopes[i]);
    }
  }

  lemma ScopeShape(a: Table, b: Table, scope: M.Scope)
    requires SameTable(a, b) && ScopeTyped(a, scope)
    ensures ScopeTyped(b, scope)
  {
    forall x ensures FindIn(a, x) == FindIn(b, x) {
      FoundSame(a, b, x);
    }
    forall x | x in scope ensures CellTyped(b, x, scope[x]) {
      assert CellTyped(a, x, scope[x]);
    }
  }

  lemma TypedOpen(stack: Stack, scopes: M.Scopes)
    requires Typed(stack, scopes)
    ensures Typed(stack + [[]], scopes + [map[]])
    ensures Typed(PopStack(stack), M.Close(scopes))
  {
    hide CellTyped;
  }

  /** A declaration, in a scope that has no such name yet. */
  lemma TypedDeclare(stack: Stack, scopes: M.Scopes, symbol: Symbol, id: nat, value: Option<int>)
    requires Typed(stack, scopes) && |stack| > 0 && Insert(stack, symbol, id).Some?
    ensures symbol.name !in scopes[|scopes| - 1]
    ensures Typed(Insert(stack, symbol, id).value,
                  M.Declare(scopes, symbol.name, M.Cell(symbol.t, symbol.isMutable, value)))
  {
    hide ScopeTyped;
    var n := |stack| - 1;
    var cell := M.Cell(symbol.t, symbol.isMutable, value);
    var stack', scopes' := Insert(stack, symbol, id).value, M.Declare(scopes, symbol.name, cell);
    ScopeNew(stack[n], scopes[n], symbol.(id := id, depth := n), cell);
    forall i | 0 <= i < |stack'| ensures ScopeTyped(stack'[i], scopes'[i]) {
      assert ScopeTyped(stack[i], scopes[i]);
    }
  }

  lemma ScopeNew(table: Table, scope: M.Scope, s: Symbol, cell: M.Cell)
    requires ScopeTyped(table, scope) && FindIn(table, s.name).None? && cell.t == s.t && cell.isMutable == s.isMutable
    ensures s.name !in scope && ScopeTyped(table + [s], scope[s.name := cell])
  {
    forall x ensures FindIn(table + [s], x) ==
        if FindIn(table, x).Some? then FindIn(table, x) else if s.name == x then Some(|table|) else None
    {
      FoundAppended(table, s, x);
    }
    var scope' := scope[s.name := cell];
    forall x | x in scope' ensures CellTyped(table + [s], x, scope'[x]) {
      if x in scope {
        assert CellTyped(table, x, scope[x]);
      }
    }
  }

  lemma {:induction false} FoundAppended(table: Table, s: Symbol, x: string)
    ensures FindIn(table + [s], x) ==
            if FindIn(table, x).Some? then FindIn(table, x) else if s.name == x then Some(|table|) else None
    decreases |table|
  {
    if |table| > 0 {
      assert (table + [s])[1..] == table[1..] + [s];
      FoundAppended(table[1..], s, x);
    }
  }

  // ---------------------------------------------------------------- parameters

  /** The parameters of a function, declared in an empty scope, and the scope a call opens for them. */
  lemma {:induction false} ParamsTyped(st: State, params: seq<S.Param>, vs: seq<int>, scope: M.Scope)
    requires |st.stack| == 2 && st.stack[0] == [] && DeclareParams(st, params).Some? && |vs| == |params|
    requires Typed(st.stack, [map[], scope])
    ensures Typed(DeclareParams(st, params).value.st.stack, [map[], scope + M.Bind(params, vs)])
    decreases |params|
  {
    hide Typed, Insert, M.Bind;
    if |params| == 0 {
      NothingBound();
      assert scope + map[] == scope;
    } else {
      var q := params[0];
      var symbol := Symbol(q.name, q.t, q.quals.isMutable, 0, 0, true);
      TypedDeclare(st.stack, [map[], scope], symbol, st.nextId, Some(vs[0]));
      var cell := M.Cell(q.t, q.quals.isMutable, Some(vs[0]));
      InnerDeclared(st.stack, symbol, st.nextId, scope, cell);
      ParamsTyped(State(Insert(st.stack, symbol, st.nextId).value, st.nextId + 1), params[1..], vs[1..],
        scope[q.name := cell]);
      BoundFirst(params, vs);
      assert scope[q.name := cell] + M.Bind(params[1..], vs[1..]) ==
             scope + (map[q.name := cell] + M.Bind(params[1..], vs[1..]));
    }
  }

  lemma NothingBound()
    ensures M.Bind([], []) == map[]
  {}

  lemma InnerDeclared(stack: Stack, symbol: Symbol, id: nat, scope: M.Scope, cell: M.Cell)
    requires |stack| == 2 && stack[0] == [] && Insert(stack, symbol, id).Some?
    ensures var r := Insert(stack, symbol, id).value; |r| == 2 && r[0] == []
    ensures M.Declare([map[], scope], symbol.name, cell) == [map[], scope[symbol.name := cell]]
  {}

  lemma Unrolled(params: seq<S.Param>, vs: seq<int>, n: nat)
    requires |params| == |vs| == n + 1
    ensures var q := params[n];
            M.Bind(params, vs) == M.Bind(params[..n], vs[..n])[q.name := M.Cell(q.t, q.quals.isMutable, Some(vs[n]))]
  {}

  /** Binding the first parameter before the others or after is the same. */
  lemma {:induction false} BoundFirst(params: seq<S.Param>, vs: seq<int>)
    requires |vs| == |params| && |params| > 0
    ensures var q := params[0];
            M.Bind(params, vs) ==
            map[q.name := M.Cell(q.t, q.quals.isMutable, Some(vs[0]))] + M.Bind(params[1..], vs[1..])
    decreases |params|
  {
    hide M.Bind;
    NothingBound();
    var n := |params| - 1;
    Unrolled(params, vs, n);
    if n == 0 {
      assert params[..0] == [] && vs[..0] == [] && params[1..] == [] && vs[1..] == [];
    } else {
      assert params[..n][1..] == params[1..][..n - 1] && vs[..n][1..] == vs[1..][..n - 1];
      Unrolled(params[1..], vs[1..], n - 1);
      BoundFirst(params[..n], vs[..n]);
    }
  }

  /** The same names are bound to the same values in the checked tree. */
  lemma {:induction false} ErasedBind(params: seq<S.Param>, checked: seq<C.Param>, vs: seq<int>)
    requires |params| == |checked| == |vs|
    requires forall i :: 0 <= i < |params| ==> checked[i].name == params[i].name
    ensures EraseScope(M.Bind(params, vs)) == N.Bind(checked, vs)
    decreases |params|
  {
    if |params| > 0 {
      var n := |params| - 1;
      ErasedBind(params[..n], checked[..n], vs[..n]);
      assert EraseScope(M.Bind(params, vs)) == N.Bind(checked, vs);
    }
  }

  lemma {:induction false} DeclaredParams(st: State, params: seq<S.Param>)
    requires DeclareParams(st, params).Some?
    ensures var node := DeclareParams(st, params).value.node;
            |node| == |params| &&
            forall i :: 0 <= i < |params| ==> node[i].name == params[i].name && node[i].t == params[i].t
    decreases |params|
  {
    hide Insert;
    if |params| > 0 {
      var symbol := Symbol(params[0].name, params[0].t, params[0].quals.isMutable, 0, 0, true);
      DeclaredParams(State(Insert(st.stack, symbol, st.nextId).value, st.nextId + 1), params[1..]);
      var rest := DeclareParams(State(Insert(st.stack, symbol, st.nextId).value, st.nextId + 1),
                                params[1..]).value.node;
      assert forall i :: 1 <= i < |params| ==> params[i] == params[1..][i - 1];
    }
  }
}
