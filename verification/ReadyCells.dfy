/** The analyser's flags against the scopes of the rules: a symbol is held for initialized exactly where the cell of
  * its name has a value. */
module ReadyCells {
  import opened Values
  import opened Arith
  import opened Scopes
  import opened Analysis
  import opened Resolution
  import opened Assignment
  import opened CellMatch
  import opened Paths
  import M = Meaning
  import R = Rules
  import S = Syntax

  ghost predicate CellReady(table: Table, x: string, cell: M.Cell) {
    FindIn(table, x).Some? && (table[FindIn(table, x).value].initialized <==> cell.value.Some?)
  }

  ghost predicate ScopeReady(table: Table, scope: M.Scope) {
    forall x :: x in scope ==> CellReady(table, x, scope[x])
  }

  /** The same names with the same types and qualifiers, and a value where the flag says so. */
  ghost predicate Ready(stack: Stack, scopes: M.Scopes) {
    Typed(stack, scopes) && forall i :: 0 <= i < |stack| ==> ScopeReady(stack[i], scopes[i])
  }

  lemma ReadyTyped(stack: Stack, scopes: M.Scopes)
    requires Ready(stack, scopes)
    ensures Typed(stack, scopes) && |stack| == |scopes|
  {
    hide ScopeTyped, ScopeReady;
  }

  lemma ReadyAt(stack: Stack, scopes: M.Scopes, i: nat)
    requires Ready(stack, scopes) && i < |stack|
    ensures |stack| == |scopes| && ScopeTyped(stack[i], scopes[i]) && ScopeReady(stack[i], scopes[i])
  {
    hide ScopeTyped, ScopeReady;
  }

  lemma CellAt(table: Table, scope: M.Scope, x: string)
    requires ScopeReady(table, scope) && x in scope
    ensures FindIn(table, x).Some? && (table[FindIn(table, x).value].initialized <==> scope[x].value.Some?)
  {
    assert CellReady(table, x, scope[x]);
  }

  /** A name may be read in the one exactly if it may be in the other. */
  lemma ReadyFound(stack: Stack, scopes: M.Scopes, name: string)
    requires Ready(stack, scopes)
    ensures Lookup(stack, name).Some? <==> M.CellOf(scopes, name).Some?
    ensures Lookup(stack, name).Some? ==>
              var s, c := Lookup(stack, name).value, M.CellOf(scopes, name).value;
              s.t == c.t && s.isMutable == c.isMutable && (s.initialized <==> c.value.Some?)
  {
    hide Ready, ScopeTyped, ScopeReady;
    ReadyTyped(stack, scopes);
    CellFound(stack, scopes, name);
    if Lookup(stack, name).Some? {
      var i := FindScope(stack, name).value;
      ReadyAt(stack, scopes, i);
      CellAt(stack[i], scopes[i], name);
    }
  }

  lemma ReadyStore(stack: Stack, scopes: M.Scopes, name: string)
    requires Ready(stack, scopes) && Lookup(stack, name).Some?
    ensures Ready(Replace(stack, name, true), M.Store(scopes, name, 0))
  {
    hide Ready, ScopeTyped, ScopeReady, Typed, SameShape;
    ReadyTyped(stack, scopes);
    CellFound(stack, scopes, name);
    TypedStore(stack, scopes, name, 0);
    ReplaceShape(stack, name);
    ShapeTurned(Replace(stack, name, true), stack);
    TypedShape(stack, Replace(stack, name, true), M.Store(scopes, name, 0));
    var stack', scopes' := Replace(stack, name, true), M.Store(scopes, name, 0);
    var k := FindScope(stack, name).value;
    forall i | 0 <= i < |stack'| ensures ScopeReady(stack'[i], scopes'[i]) {
      ReadyAt(stack, scopes, i);
      if i == k {
        ScopeStored(stack[i], scopes[i], name);
      }
    }
    ReadyFrom(stack', scopes');
  }

  lemma ReadyFrom(stack: Stack, scopes: M.Scopes)
    requires Typed(stack, scopes) && |scopes| == |stack|
    requires forall i :: 0 <= i < |stack| ==> ScopeReady(stack[i], scopes[i])
    ensures Ready(stack, scopes)
  {
    hide Typed, ScopeReady;
  }

  lemma ScopeStored(table: Table, scope: M.Scope, name: string)
    requires ScopeReady(table, scope) && ScopeTyped(table, scope) && FindIn(table, name).Some?
    ensures var j := FindIn(table, name).value;
            name in scope &&
            ScopeReady(table[j := table[j].(initialized := true)], scope[name := scope[name].(value := Some(0))])
  {
    var j := FindIn(table, name).value;
    var table' := table[j := table[j].(initialized := true)];
    var scope' := scope[name := scope[name].(value := Some(0))];
    forall x | x in scope' ensures CellReady(table', x, scope'[x]) {
      FoundSame(table', table, x);
      assert CellReady(table, x, scope[x]);
    }
  }

  /** A declaration fails exactly for a name the innermost scope has. */
  lemma ReadyDeclare(stack: Stack, scopes: M.Scopes, symbol: Symbol, id: nat, value: Option<int>)
    requires Ready(stack, scopes) && |stack| > 0 && (symbol.initialized <==> value.Some?)
    ensures |scopes| == |stack|
    ensures Insert(stack, symbol, id).Some? <==> symbol.name !in scopes[|scopes| - 1]
    ensures Insert(stack, symbol, id).Some? ==>
              Ready(Insert(stack, symbol, id).value,
                    M.Declare(scopes, symbol.name, M.Cell(symbol.t, symbol.isMutable, value)))
  {
    hide Ready, ScopeReady, Typed;
    ReadyTyped(stack, scopes);
    var n := |stack| - 1;
    ReadyAt(stack, scopes, n);
    if Insert(stack, symbol, id).Some? {
      TypedDeclare(stack, scopes, symbol, id, value);
      var cell := M.Cell(symbol.t, symbol.isMutable, value);
      var stack', scopes' := Insert(stack, symbol, id).value, M.Declare(scopes, symbol.name, cell);
      forall i | 0 <= i < |stack'| ensures ScopeReady(stack'[i], scopes'[i]) {
        ReadyAt(stack, scopes, i);
        if i == n {
          ScopeDeclared(stack[n], scopes[n], symbol.(id := id, depth := n), cell);
        }
      }
      ReadyFrom(stack', scopes');
    }
  }

  lemma ScopeDeclared(table: Table, scope: M.Scope, s: Symbol, cell: M.Cell)
    requires ScopeReady(table, scope) && FindIn(table, s.name).None? && (s.initialized <==> cell.value.Some?)
    ensures ScopeReady(table + [s], scope[s.name := cell])
  {
    var scope' := scope[s.name := cell];
    forall x | x in scope' ensures CellReady(table + [s], x, scope'[x]) {
      FoundAppended(table, s, x);
      if x != s.name {
        assert CellReady(table, x, scope[x]);
      }
    }
  }

  lemma ReadyOpen(stack: Stack, scopes: M.Scopes)
    requires Ready(stack, scopes)
    ensures Ready(stack + [[]], scopes + [map[]]) && Ready(PopStack(stack), M.Close(scopes))
  {
    hide ScopeTyped, CellReady;
    TypedOpen(stack, scopes);
  }

  // ---------------------------------------------------------------- after two branches

  /** The flags the analyser leaves after an `if` are those of the joined scopes. */
  lemma ReadyJoined(before: Stack, t: Stack, e: Stack, a: M.Scopes, b: M.Scopes, skipA: bool, skipB: bool)
    requires Below(before, t) && Below(before, e) && Ready(t, a) && Ready(e, b)
    ensures Ready(WithFlags(e, Intersect(AfterBranch(t, skipA), AfterBranch(e, skipB))), R.Joined(a, b, skipA, skipB))
  {
    hide Below, SameShape, Ready, Flags, WithFlags, Intersect, AfterBranch, ScopeTyped, ScopeReady, Typed,
         R.JoinedScope,
         SameTable, Marked;
    var r, j := WithFlags(e, Intersect(AfterBranch(t, skipA), AfterBranch(e, skipB))), R.Joined(a, b, skipA, skipB);
    IntersectBelow(before, t, e, skipA, skipB);
    BelowShape(before, t);
    BelowShape(before, e);
    ShapeTurned(before, t);
    ShapesChain2(r, e, before, t);
    BelowShape(before, r);
    ShapeLengths(r, t);
    ShapeLengths(r, e);
    ShapeLengths(before, r);
    ReadyTyped(t, a);
    ReadyTyped(e, b);
    forall i | 0 <= i < |r| ensures ScopeTyped(r[i], j[i]) && ScopeReady(r[i], j[i]) {
      ReadyAt(t, a, i);
      ReadyAt(e, b, i);
      TablesAt(r, t, i);
      TablesAt(r, e, i);
      TablesAt(before, r, i);
      forall k | 0 <= k < |r[i]|
        ensures r[i][k].initialized <==> (skipA || t[i][k].initialized) && (skipB || e[i][k].initialized)
      {
        JoinedFlag(before, t, e, skipA, skipB, i, k);
      }
      ScopesJoined(r[i], t[i], e[i], a[i], b[i], skipA, skipB);
    }
    TypedFrom(r, j);
    ReadyFrom(r, j);
  }

  lemma JoinedFlag(before: Stack, t: Stack, e: Stack, skipA: bool, skipB: bool, i: nat, k: nat)
    requires Below(before, t) && Below(before, e)
    requires var r := WithFlags(e, Intersect(AfterBranch(t, skipA), AfterBranch(e, skipB)));
             i < |before| && |r| == |t| == |e| == |before| && |r[i]| == |t[i]| == |e[i]| == |before[i]| &&
               k < |before[i]|
    ensures WithFlags(e, Intersect(AfterBranch(t, skipA), AfterBranch(e, skipB)))[i][k].initialized <==>
            (skipA || t[i][k].initialized) && (skipB || e[i][k].initialized)
  {
    hide Below, Flags, WithFlags, Intersect, AfterBranch;
    IntersectMarks(before, t, e, skipA, skipB, i, k);
  }

  lemma ShapeLengths(a: Stack, b: Stack)
    requires SameShape(a, b)
    ensures |a| == |b|
  {
    hide SameTable;
  }

  lemma TablesAt(a: Stack, b: Stack, i: nat)
    requires SameShape(a, b) && i < |a|
    ensures i < |b| && SameTable(a[i], b[i]) && |a[i]| == |b[i]|
  {}

  lemma TypedFrom(stack: Stack, scopes: M.Scopes)
    requires |scopes| == |stack| && forall i :: 0 <= i < |stack| ==> ScopeTyped(stack[i], scopes[i])
    ensures Typed(stack, scopes)
  {
    hide ScopeTyped;
  }

  lemma ScopesJoined(r: Table, t: Table, e: Table, a: M.Scope, b: M.Scope, skipA: bool, skipB: bool)
    requires SameTable(r, t) && SameTable(r, e)
    requires ScopeTyped(t, a) && ScopeReady(t, a) && ScopeTyped(e, b) && ScopeReady(e, b)
    requires forall k :: 0 <= k < |r| ==>
               (r[k].initialized <==> (skipA || t[k].initialized) && (skipB || e[k].initialized))
    ensures ScopeTyped(r, R.JoinedScope(a, b, skipA, skipB)) && ScopeReady(r, R.JoinedScope(a, b, skipA, skipB))
  {
    var j := R.JoinedScope(a, b, skipA, skipB);
    forall x ensures FindIn(r, x) == FindIn(t, x) == FindIn(e, x) {
      FoundSame(r, t, x);
      FoundSame(r, e, x);
    }
    forall x | x in j ensures CellTyped(r, x, j[x]) && CellReady(r, x, j[x]) {
      assert CellTyped(t, x, a[x]) && CellReady(t, x, a[x]);
      assert x in b && CellReady(e, x, b[x]);
    }
  }

  // ---------------------------------------------------------------- parameters

  lemma {:induction false} ReadyParams(st: State, params: seq<S.Param>, vs: seq<int>, scope: M.Scope)
    requires |st.stack| == 2 && st.stack[0] == [] && DeclareParams(st, params).Some? && |vs| == |params|
    requires Ready(st.stack, [map[], scope])
    ensures Ready(DeclareParams(st, params).value.st.stack, [map[], scope + M.Bind(params, vs)])
    decreases |params|
  {
    hide Ready, Insert, M.Bind;
    if |params| == 0 {
      NothingBound();
      assert scope + map[] == scope;
    } else {
      var q := params[0];
      var symbol := Symbol(q.name, q.t, q.quals.isMutable, 0, 0, true);
      ReadyDeclare(st.stack, [map[], scope], symbol, st.nextId, Some(vs[0]));
      var cell := M.Cell(q.t, q.quals.isMutable, Some(vs[0]));
      InnerDeclared(st.stack, symbol, st.nextId, scope, cell);
      ReadyParams(State(Insert(st.stack, symbol, st.nextId).value, st.nextId + 1), params[1..], vs[1..],
        scope[q.name := cell]);
      BoundFirst(params, vs);
      assert scope[q.name := cell] + M.Bind(params[1..], vs[1..]) ==
             scope + (map[q.name := cell] + M.Bind(params[1..], vs[1..]));
    }
  }

  /** Parameters can be declared exactly if their names differ, and are new in the scope. */
  lemma {:induction false} ParamsDeclared(st: State, params: seq<S.Param>)
    requires |st.stack| == 2 && DistinctNames(params)
    requires forall i :: 0 <= i < |params| ==> FindIn(st.stack[1], params[i].name).None?
    ensures DeclareParams(st, params).Some?
    decreases |params|
  {
    hide FindIn;
    if |params| > 0 {
      var symbol := Symbol(params[0].name, params[0].t, params[0].quals.isMutable, 0, 0, true);
      var stack := Insert(st.stack, symbol, st.nextId).value;
      forall i | 0 <= i < |params[1..]| ensures FindIn(stack[1], params[1..][i].name).None? {
        FoundAppended(st.stack[1], symbol.(id := st.nextId, depth := 1), params[i + 1].name);
        assert params[i + 1].name != params[0].name;
      }
      forall i, j | 0 <= j < i < |params[1..]| ensures params[1..][i].name != params[1..][j].name {
        assert params[i + 1].name != params[j + 1].name;
      }
      ParamsDeclared(State(stack, st.nextId + 1), params[1..]);
    }
  }
}
