/** The scope stack of the analyser against the frames and the flat environment of a run: ids are
  * never used twice, and a symbol marked initialized has a value. */
module Resolution {
  import opened Values
  import opened Arith
  import opened Names
  import opened Scopes
  import opened Analysis
  import C = Checked
  import S = Syntax
  import N = Nested

  // ---------------------------------------------------------------- well-formed stacks

  ghost predicate NamesOnce(table: Table) {
    forall j, k :: 0 <= j < k < |table| ==> table[j].name != table[k].name
  }

  ghost predicate IdsBelow(stack: Stack, n: nat) {
    forall i, j :: 0 <= i < |stack| && 0 <= j < |stack[i]| ==> stack[i][j].id < n
  }

  ghost predicate IdsOnce(stack: Stack) {
    forall i, j, i', j' :: 0 <= i < |stack| && 0 <= j < |stack[i]| && 0 <= i' < |stack| && 0 <= j' < |stack[i']| ==>
      stack[i][j].id == stack[i'][j'].id ==> i == i' && j == j'
  }

  /** Every id was given out once, and none from `nextId` on. */
  ghost predicate Good(st: State) {
    |st.stack| > 0 && IdsBelow(st.stack, st.nextId) && IdsOnce(st.stack) &&
    forall i :: 0 <= i < |st.stack| ==> NamesOnce(st.stack[i])
  }

  lemma {:induction false} FindOnly(table: Table, j: nat)
    requires NamesOnce(table) && j < |table|
    ensures FindIn(table, table[j].name) == Some(j)
  {
    if j > 0 {
      assert table[1..][j - 1] == table[j];
      FindOnly(table[1..], j - 1);
    }
  }

  lemma GoodPush(st: State)
    requires Good(st)
    ensures Good(st.(stack := st.stack + [[]]))
  {}

  lemma GoodPop(st: State)
    requires Good(st) && |st.stack| > 1
    ensures Good(st.(stack := PopStack(st.stack)))
  {}

  /** A new symbol takes an id nothing else has. */
  lemma GoodInsert(st: State, symbol: Symbol)
    requires Good(st) && Insert(st.stack, symbol, st.nextId).Some?
    ensures Good(State(Insert(st.stack, symbol, st.nextId).value, st.nextId + 1))
  {
    var n := |st.stack| - 1;
    var table := st.stack[n];
    var stack := Insert(st.stack, symbol, st.nextId).value;
    assert stack[n] == table + [symbol.(id := st.nextId, depth := n)];
    assert NamesOnce(stack[n]);
    assert forall i :: 0 <= i < n ==> stack[i] == st.stack[i];
  }

  lemma GoodShape(st: State, st': State)
    requires Good(st) && SameShape(st'.stack, st.stack) && st'.nextId >= st.nextId
    ensures Good(st')
  {
    forall i, j | 0 <= i < |st'.stack| && 0 <= j < |st'.stack[i]|
      ensures j < |st.stack[i]| && st'.stack[i][j].id == st.stack[i][j].id &&
              st'.stack[i][j].name == st.stack[i][j].name
    {
      assert SameTable(st'.stack[i], st.stack[i]);
    }
    forall i | 0 <= i < |st'.stack| ensures NamesOnce(st'.stack[i]) {
      assert SameTable(st'.stack[i], st.stack[i]) && NamesOnce(st.stack[i]);
    }
  }

  lemma ReplaceShape(stack: Stack, name: string)
    ensures SameShape(Replace(stack, name, true), stack) && Below(stack, Replace(stack, name, true))
  {}

  // ---------------------------------------------------------------- what stands for what

  ghost predicate SymbolMatch(s: Symbol, frame: N.Frame, env: C.Env) {
    s.name in frame && (s.initialized ==> frame[s.name].Some?) &&
    (frame[s.name].Some? ==> C.Key(s.name, s.id) in env && env[C.Key(s.name, s.id)] == frame[s.name].value)
  }

  ghost predicate TableMatch(table: Table, frame: N.Frame, env: C.Env) {
    (forall j :: 0 <= j < |table| ==> SymbolMatch(table[j], frame, env)) &&
    (forall x :: x in frame ==> FindIn(table, x).Some?)
  }

  /** Frames hold the names the tables declare; a variable marked initialized has a value, and the
    * flat environment has the same under `name@id`. */
  ghost predicate Match(stack: Stack, fs: N.Frames, env: C.Env) {
    |fs| == |stack| && forall i :: 0 <= i < |stack| ==> TableMatch(stack[i], fs[i], env)
  }

  lemma FrameFound(stack: Stack, fs: N.Frames, env: C.Env, name: string)
    requires Match(stack, fs, env)
    ensures N.FrameOf(fs, name) == FindScope(stack, name)
  {
    hide SymbolMatch;
    forall i | 0 <= i < |stack| ensures name in fs[i] <==> FindIn(stack[i], name).Some? {
      assert TableMatch(stack[i], fs[i], env);
      if FindIn(stack[i], name).Some? {
        var j := FindIn(stack[i], name).value;
        NameInFrame(stack[i], fs[i], env, j);
      }
    }
  }

  lemma NameInFrame(table: Table, frame: N.Frame, env: C.Env, j: nat)
    requires TableMatch(table, frame, env) && j < |table|
    ensures table[j].name in frame
  {
    assert SymbolMatch(table[j], frame, env);
  }

  /** A resolved name: declared, with this id, and surely initialized. */
  predicate Known(stack: Stack, name: string, id: nat) {
    Lookup(stack, name).Some? && Lookup(stack, name).value.id == id && Lookup(stack, name).value.initialized
  }

  lemma ReadKnown(stack: Stack, fs: N.Frames, env: C.Env, name: string, id: nat)
    requires Match(stack, fs, env) && Known(stack, name, id)
    ensures N.Read(fs, name).Some? && C.Key(name, id) in env && env[C.Key(name, id)] == N.Read(fs, name).value
  {
    hide C.Key;
    FrameFound(stack, fs, env, name);
    var i := FindScope(stack, name).value;
    var j := FindIn(stack[i], name).value;
    assert TableMatch(stack[i], fs[i], env);
    assert SymbolMatch(stack[i][j], fs[i], env);
  }

  /** A write to another variable does not show. */
  lemma OtherSymbol(s: Symbol, frame: N.Frame, env: C.Env, name: string, id: nat, v: int)
    requires SymbolMatch(s, frame, env) && s.id != id
    ensures SymbolMatch(s, frame, env[C.Key(name, id) := v])
  {
    if C.Key(s.name, s.id) == C.Key(name, id) {
      MangleInjective(s.name, s.id, name, id);
    }
  }

  lemma OtherTable(table: Table, frame: N.Frame, env: C.Env, name: string, id: nat, v: int)
    requires TableMatch(table, frame, env) && forall j :: 0 <= j < |table| ==> table[j].id != id
    ensures TableMatch(table, frame, env[C.Key(name, id) := v])
  {
    hide SymbolMatch, C.Key;
    forall j | 0 <= j < |table| ensures SymbolMatch(table[j], frame, env[C.Key(name, id) := v]) {
      OtherSymbol(table[j], frame, env, name, id, v);
    }
  }

  lemma OwnTable(table: Table, frame: N.Frame, env: C.Env, j: nat, v: int, initialized: bool)
    requires TableMatch(table, frame, env) && j < |table| && NamesOnce(table)
    requires forall k :: 0 <= k < |table| && k != j ==> table[k].id != table[j].id
    ensures var s := table[j];
            TableMatch(table[j := s.(initialized := initialized)], frame[s.name := Some(v)],
                       env[C.Key(s.name, s.id) := v])
  {
    hide C.Key;
    var s := table[j];
    var table', frame', env' := table[j := s.(initialized := initialized)], frame[s.name := Some(v)],
      env[C.Key(s.name, s.id) := v];
    forall k | 0 <= k < |table'| ensures SymbolMatch(table'[k], frame', env') {
      if k != j {
        assert SymbolMatch(table[k], frame, env);
        OtherSymbol(table[k], frame, env, s.name, s.id, v);
        assert table[k].name != s.name;
      }
    }
    NameInFrame(table, frame, env, j);
    forall x | x in frame' ensures FindIn(table', x).Some? {
      var k := FindIn(table, x).value;
      assert table'[k].name == x;
    }
  }

  /** A write to a resolved variable, in both kinds of environment. */
  lemma WriteMatch(st: State, fs: N.Frames, env: C.Env, name: string, v: int, initialized: bool)
    requires Good(st) && Match(st.stack, fs, env) && Lookup(st.stack, name).Some?
    ensures Match(Replace(st.stack, name, initialized), N.Update(fs, name, v),
                  env[C.Key(name, Lookup(st.stack, name).value.id) := v])
  {
    hide C.Key, TableMatch, NamesOnce;
    FrameFound(st.stack, fs, env, name);
    var i := FindScope(st.stack, name).value;
    var j := FindIn(st.stack[i], name).value;
    var id := st.stack[i][j].id;
    var stack', env' := Replace(st.stack, name, initialized), env[C.Key(name, id) := v];
    forall k | 0 <= k < |stack'| ensures TableMatch(stack'[k], N.Update(fs, name, v)[k], env') {
      if k == i {
        OwnTable(st.stack[i], fs[i], env, j, v, initialized);
      } else {
        OtherTable(st.stack[k], fs[k], env, name, id, v);
      }
    }
  }

  /** Marking what is marked already changes nothing. */
  lemma ReplaceKnown(stack: Stack, name: string, id: nat)
    requires Known(stack, name, id)
    ensures Replace(stack, name, true) == stack
  {
    var i := FindScope(stack, name).value;
    var j := FindIn(stack[i], name).value;
    assert stack[i][j := stack[i][j].(initialized := true)] == stack[i];
    assert stack[i := stack[i]] == stack;
  }

  lemma MatchPush(stack: Stack, fs: N.Frames, env: C.Env)
    requires Match(stack, fs, env)
    ensures Match(stack + [[]], fs + [map[]], env)
  {}

  lemma MatchPop(stack: Stack, fs: N.Frames, env: C.Env)
    requires Match(stack, fs, env)
    ensures Match(PopStack(stack), N.Pop(fs), env)
  {
    hide TableMatch;
  }

  /** Knowing less is safe. */
  lemma MatchBelow(a: Stack, b: Stack, fs: N.Frames, env: C.Env)
    requires Below(a, b) && Match(b, fs, env)
    ensures Match(a, fs, env)
  {
    forall i | 0 <= i < |a| ensures TableMatch(a[i], fs[i], env) {
      TableMatchBelow(a[i], b[i], fs[i], env);
    }
  }

  lemma TableMatchBelow(a: Table, b: Table, frame: N.Frame, env: C.Env)
    requires TableBelow(a, b) && TableMatch(b, frame, env)
    ensures TableMatch(a, frame, env)
  {
    hide C.Key;
    forall j | 0 <= j < |a| ensures SymbolMatch(a[j], frame, env) {
      assert SymbolMatch(b[j], frame, env);
    }
    forall x | x in frame ensures FindIn(a, x).Some? {
      var j := FindIn(b, x).value;
      assert a[j].name == x;
    }
  }

  /** A declaration: a new symbol, a new cell, and a key of the flat environment nothing else uses. */
  lemma DeclareMatch(st: State, fs: N.Frames, env: C.Env, symbol: Symbol, cell: Option<int>)
    requires Good(st) && Match(st.stack, fs, env) && Insert(st.stack, symbol, st.nextId).Some?
    requires symbol.initialized ==> cell.Some?
    ensures Match(Insert(st.stack, symbol, st.nextId).value, N.Declare(fs, symbol.name, cell),
                  if cell.Some? then env[C.Key(symbol.name, st.nextId) := cell.value] else env)
  {
    hide C.Key, TableMatch, NamesOnce;
    var n := |st.stack| - 1;
    var stack' := Insert(st.stack, symbol, st.nextId).value;
    var env' := if cell.Some? then env[C.Key(symbol.name, st.nextId) := cell.value] else env;
    forall k | 0 <= k < |stack'| ensures TableMatch(stack'[k], N.Declare(fs, symbol.name, cell)[k], env') {
      if cell.Some? {
        OtherTable(st.stack[k], fs[k], env, symbol.name, st.nextId, cell.value);
      }
      if k == n {
        NewSymbol(st.stack[n], fs[n], env', symbol.(id := st.nextId, depth := n), cell);
      }
    }
  }

  lemma NewSymbol(table: Table, frame: N.Frame, env: C.Env, s: Symbol, cell: Option<int>)
    requires TableMatch(table, frame, env) && FindIn(table, s.name).None? && (s.initialized ==> cell.Some?)
    requires cell.Some? ==> C.Key(s.name, s.id) in env && env[C.Key(s.name, s.id)] == cell.value
    ensures TableMatch(table + [s], frame[s.name := cell], env)
  {
    hide C.Key;
    forall j | 0 <= j < |table + [s]| ensures SymbolMatch((table + [s])[j], frame[s.name := cell], env) {
      if j < |table| {
        assert SymbolMatch(table[j], frame, env);
      }
    }
    forall x | x in frame[s.name := cell] ensures FindIn(table + [s], x).Some? {
      if x == s.name {
        assert (table + [s])[|table|].name == x;
      } else {
        var j := FindIn(table, x).value;
        assert (table + [s])[j].name == x;
      }
    }
  }
}
