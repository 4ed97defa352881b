/** The stack of symbol tables and the flow states of definite assignment: one flag per visible
  * symbol, saved before a branch and put back, filled or intersected after it. */
module Scopes {
  import opened Values
  import opened Arith

  datatype Symbol = Symbol(name: string, t: ValueType, isMutable: bool, id: nat, depth: nat, initialized: bool)

  type Table = seq<Symbol>

  /** Tables of the open scopes, the innermost last. */
  type Stack = seq<Table>

  function FindIn(table: Table, name: string): (r: Option<nat>)
    ensures r.Some? ==> r.value < |table| && table[r.value].name == name
    ensures r.None? ==> forall j :: 0 <= j < |table| ==> table[j].name != name
  {
    if |table| == 0 then None
    else if table[0].name == name then Some(0)
    else match FindIn(table[1..], name)
         case Some(j) => Some(j + 1)
         case None => None
  }

  /** The innermost scope that declares the name. */
  function FindScope(stack: Stack, name: string): (r: Option<nat>)
    ensures r.Some? ==> r.value < |stack| && FindIn(stack[r.value], name).Some? &&
                        forall i :: r.value < i < |stack| ==> FindIn(stack[i], name).None?
    ensures r.None? ==> forall i :: 0 <= i < |stack| ==> FindIn(stack[i], name).None?
  {
    if |stack| == 0 then None
    else
      var n := |stack| - 1;
      if FindIn(stack[n], name).Some? then Some(n) else FindScope(stack[..n], name)
  }

  function Lookup(stack: Stack, name: string): (r: Option<Symbol>)
    ensures r.Some? ==> r.value.name == name
  {
    match FindScope(stack, name)
    case Some(i) => Some(stack[i][FindIn(stack[i], name).value])
    case None => None
  }

  /** A symbol added to the innermost scope, which must not declare the name yet. */
  function Insert(stack: Stack, symbol: Symbol, nextId: nat): Option<Stack> {
    if |stack| == 0 then Some(stack)
    else
      var n := |stack| - 1;
      if FindIn(stack[n], symbol.name).Some? then None
      else Some(stack[n := stack[n] + [symbol.(id := nextId, depth := n)]])
  }

  function Replace(stack: Stack, name: string, initialized: bool): Stack {
    match FindScope(stack, name)
    case Some(i) =>
      var j := FindIn(stack[i], name).value;
      stack[i := stack[i][j := stack[i][j].(initialized := initialized)]]
    case None => stack
  }

  // ---------------------------------------------------------------- flow states

  function TableFlags(table: Table): (f: seq<bool>)
    ensures |f| == |table| && forall j :: 0 <= j < |f| ==> f[j] == table[j].initialized
  {
    seq(|table|, j requires 0 <= j < |table| => table[j].initialized)
  }

  function Flags(stack: Stack): seq<bool> {
    if |stack| == 0 then [] else TableFlags(stack[0]) + Flags(stack[1..])
  }

  /** Flags put back in order; what the state has no flag for keeps its own. */
  function TableWith(table: Table, flags: seq<bool>): (r: Table)
    ensures |r| == |table|
    ensures forall j :: 0 <= j < |r| ==> r[j] == if j < |flags| then table[j].(initialized := flags[j]) else table[j]
  {
    seq(|table|, j requires 0 <= j < |table| => if j < |flags| then table[j].(initialized := flags[j]) else table[j])
  }

  function Rest(flags: seq<bool>, n: nat): seq<bool> {
    if n <= |flags| then flags[n..] else []
  }

  function WithFlags(stack: Stack, flags: seq<bool>): Stack {
    if |stack| == 0 then [] else [TableWith(stack[0], flags)] + WithFlags(stack[1..], Rest(flags, |stack[0]|))
  }

  function Filled(flags: seq<bool>, value: bool): (r: seq<bool>)
    ensures |r| == |flags| && forall k :: 0 <= k < |r| ==> r[k] == value
  {
    seq(|flags|, _ => value)
  }

  function Intersect(a: seq<bool>, b: seq<bool>): (r: seq<bool>)
    ensures |r| == |a|
    ensures forall k :: 0 <= k < |a| ==> r[k] == (a[k] && (k < |b| ==> b[k]))
  {
    seq(|a|, k requires 0 <= k < |a| => a[k] && (k < |b| ==> b[k]))
  }

  // ---------------------------------------------------------------- shapes

  /** The same symbols, up to what is initialized. */
  ghost predicate SameTable(a: Table, b: Table) {
    |a| == |b| && forall j :: 0 <= j < |a| ==> a[j] == b[j].(initialized := a[j].initialized)
  }

  ghost predicate SameShape(a: Stack, b: Stack) {
    |a| == |b| && forall i :: 0 <= i < |a| ==> SameTable(a[i], b[i])
  }

  /** Everything initialized in `a` is initialized in `b`. */
  ghost predicate TableBelow(a: Table, b: Table) {
    SameTable(a, b) && forall j :: 0 <= j < |a| ==> a[j].initialized ==> b[j].initialized
  }

  ghost predicate Below(a: Stack, b: Stack) {
    |a| == |b| && forall i :: 0 <= i < |a| ==> TableBelow(a[i], b[i])
  }

  lemma {:induction false} FlagsLength(a: Stack, b: Stack)
    requires SameShape(a, b)
    ensures |Flags(a)| == |Flags(b)|
    decreases |a|
  {
    if |a| > 0 {
      assert SameTable(a[0], b[0]);
      ShapeTail(a, b);
      FlagsLength(a[1..], b[1..]);
    }
  }

  lemma ShapeTail(a: Stack, b: Stack)
    requires SameShape(a, b) && |a| > 0
    ensures SameShape(a[1..], b[1..])
  {
    hide SameTable;
    forall i | 0 <= i < |a[1..]| ensures SameTable(a[1..][i], b[1..][i]) {
      assert SameTable(a[i + 1], b[i + 1]);
    }
  }

  /** A saved state put back undoes whatever happened to the flags since. */
  lemma {:induction false} RestoreSaved(a: Stack, b: Stack)
    requires SameShape(a, b)
    ensures WithFlags(a, Flags(b)) == b
    decreases |a|
  {
    if |a| > 0 {
      assert SameTable(a[0], b[0]);
      ShapeTail(a, b);
      RestoreSaved(a[1..], b[1..]);
      var f := Flags(b);
      assert f[|a[0]|..] == Flags(b[1..]);
      assert TableWith(a[0], f) == b[0];
      assert WithFlags(a, f) == [b[0]] + b[1..];
    }
  }

  lemma ShapeCons(t: Table, u: Table, a: Stack, b: Stack)
    requires SameTable(t, u) && SameShape(a, b)
    ensures SameShape([t] + a, [u] + b)
  {
    hide SameTable;
  }

  lemma TableWithShape(table: Table, flags: seq<bool>)
    ensures SameTable(TableWith(table, flags), table)
    ensures |flags| >= |table| ==> TableFlags(TableWith(table, flags)) == flags[..|table|]
  {}

  lemma FlagsCons(t: Table, a: Stack)
    ensures Flags([t] + a) == TableFlags(t) + Flags(a)
  {
    assert ([t] + a)[1..] == a;
  }

  lemma WithFlagsCons(t: Table, a: Stack, f: seq<bool>)
    requires |t| <= |f|
    ensures WithFlags([t] + a, f) == [TableWith(t, f)] + WithFlags(a, f[|t|..])
  {
    assert ([t] + a)[1..] == a;
  }

  /** Setting flags keeps the shape, and the flags are then exactly those. */
  lemma {:induction false} WithFlagsShape(a: Stack, f: seq<bool>)
    requires |f| == |Flags(a)|
    ensures SameShape(WithFlags(a, f), a) && Flags(WithFlags(a, f)) == f
    decreases |a|
  {
    if |a| == 0 {
      EmptyShape();
    } else {
      assert [a[0]] + a[1..] == a;
      FlagsCons(a[0], a[1..]);
      WithFlagsShape(a[1..], f[|a[0]|..]);
      ShapeStep(a[0], a[1..], f);
    }
  }

  lemma ShapeStep(t: Table, a: Stack, f: seq<bool>)
    requires |t| <= |f| && SameShape(WithFlags(a, f[|t|..]), a) && Flags(WithFlags(a, f[|t|..])) == f[|t|..]
    ensures SameShape(WithFlags([t] + a, f), [t] + a) && Flags(WithFlags([t] + a, f)) == f
  {
    hide SameTable, SameShape, TableWith, TableFlags, Flags, WithFlags;
    WithFlagsCons(t, a, f);
    TableWithShape(t, f);
    ShapeCons(TableWith(t, f), t, WithFlags(a, f[|t|..]), a);
    FlagsCons(TableWith(t, f), WithFlags(a, f[|t|..]));
    assert f[..|t|] + f[|t|..] == f;
  }

  lemma EmptyShape()
    ensures SameShape([], [])
  {}

  /** Flag vectors compare as the stacks do. */
  lemma {:induction false} BelowByFlags(a: Stack, b: Stack)
    requires SameShape(a, b)
    requires |Flags(a)| == |Flags(b)| && forall k :: 0 <= k < |Flags(a)| ==> Flags(a)[k] ==> Flags(b)[k]
    ensures Below(a, b)
    decreases |a|
  {
    if |a| > 0 {
      assert SameTable(a[0], b[0]);
      ShapeTail(a, b);
      FlagsLength(a[1..], b[1..]);
      var n := |a[0]|;
      forall k | 0 <= k < |Flags(a[1..])| ensures Flags(a[1..])[k] ==> Flags(b[1..])[k] {
        assert Flags(a)[n + k] == Flags(a[1..])[k] && Flags(b)[n + k] == Flags(b[1..])[k];
      }
      BelowByFlags(a[1..], b[1..]);
      forall i | 0 <= i < |a| ensures TableBelow(a[i], b[i]) {
        if i == 0 {
          forall j | 0 <= j < n && a[0][j].initialized ensures b[0][j].initialized {
            assert Flags(a)[j] == a[0][j].initialized && Flags(b)[j] == b[0][j].initialized;
          }
        } else {
          assert TableBelow(a[1..][i - 1], b[1..][i - 1]);
        }
      }
    }
  }

  lemma {:induction false} FlagsBelow(a: Stack, b: Stack)
    requires Below(a, b)
    ensures |Flags(a)| == |Flags(b)| && forall k :: 0 <= k < |Flags(a)| ==> Flags(a)[k] ==> Flags(b)[k]
    decreases |a|
  {
    if |a| > 0 {
      assert TableBelow(a[0], b[0]);
      forall i | 0 <= i < |a[1..]| ensures TableBelow(a[1..][i], b[1..][i]) {
        assert TableBelow(a[i + 1], b[i + 1]);
      }
      FlagsBelow(a[1..], b[1..]);
    }
  }

  lemma BelowShape(a: Stack, b: Stack)
    requires Below(a, b)
    ensures SameShape(a, b)
  {
    forall i | 0 <= i < |a| ensures SameTable(a[i], b[i]) {
      assert TableBelow(a[i], b[i]);
    }
  }

  // ---------------------------------------------------------------- the scope object

  class FlowState {
    var flags: seq<bool>

    constructor ()
      ensures flags == []
    {
      flags := [];
    }

    method Fill(value: bool)
      modifies this
      ensures flags == Filled(old(flags), value)
    {
      var i := 0;
      while i < |flags|
        invariant 0 <= i <= |flags| == |old(flags)|
        invariant forall k :: 0 <= k < i ==> flags[k] == value
      {
        flags := flags[i := value];
        i := i + 1;
      }
    }

    method Append(table: Table)
      modifies this
      ensures flags == old(flags) + TableFlags(table)
    {
      var j := 0;
      while j < |table|
        invariant 0 <= j <= |table|
        invariant flags == old(flags) + TableFlags(table)[..j]
      {
        flags := flags + [table[j].initialized];
        j := j + 1;
      }
    }

    method And(other: FlowState)
      requires other != this
      modifies this
      ensures flags == Intersect(old(flags), other.flags)
    {
      var n := if |flags| < |other.flags| then |flags| else |other.flags|;
      var i := 0;
      while i < n
        invariant 0 <= i <= n && |flags| == |old(flags)|
        invariant forall k :: 0 <= k < |flags| ==> flags[k] == (old(flags)[k] && (k < i ==> other.flags[k]))
      {
        flags := flags[i := flags[i] && other.flags[i]];
        i := i + 1;
      }
    }
  }

  class Scope {
    var stack: Stack
    var nextId: nat

    constructor ()
      ensures stack == [] && nextId == 0
    {
      stack, nextId := [], 0;
    }

    method Push()
      modifies this`stack
      ensures stack == old(stack) + [[]]
    {
      stack := stack + [[]];
    }

    method Pop()
      modifies this`stack
      ensures stack == if |old(stack)| == 0 then [] else old(stack)[..|old(stack)| - 1]
    {
      if |stack| > 0 {
        stack := stack[..|stack| - 1];
      }
    }

    method LookupSymbol(name: string) returns (r: Option<Symbol>)
      ensures r == Lookup(stack, name)
    {
      hide FindScope, FindIn;
      var i := |stack|;
      assert stack[..i] == stack;
      while i > 0
        invariant 0 <= i <= |stack|
        invariant FindScope(stack, name) == FindScope(stack[..i], name)
      {
        FindScopeLast(stack, i, name);
        var j := FindIn(stack[i - 1], name);
        if j.Some? {
          return Some(stack[i - 1][j.value]);
        }
        i := i - 1;
      }
      NothingFound(name);
      r := None;
    }

    /** A declaration; it fails if the innermost scope has the name, and takes the next id if not. */
    method InsertSymbol(symbol: Symbol) returns (ok: bool)
      modifies this
      ensures ok == Insert(old(stack), symbol, old(nextId)).Some?
      ensures ok ==> stack == Insert(old(stack), symbol, old(nextId)).value
      ensures !ok ==> stack == old(stack)
      ensures nextId == if ok && |old(stack)| > 0 then old(nextId) + 1 else old(nextId)
    {
      ok := true;
      if |stack| == 0 {
        return;
      }
      var n := |stack| - 1;
      if FindIn(stack[n], symbol.name).Some? {
        ok := false;
        return;
      }
      stack := stack[n := stack[n] + [symbol.(id := nextId, depth := n)]];
      nextId := nextId + 1;
    }

    method MarkInitialized(name: string)
      modifies this`stack
      ensures stack == Replace(old(stack), name, true)
    {
      var i := FindScope(stack, name);
      if i.Some? {
        var j := FindIn(stack[i.value], name).value;
        stack := stack[i.value := stack[i.value][j := stack[i.value][j].(initialized := true)]];
      }
    }

    method FlowSave() returns (state: FlowState)
      ensures fresh(state) && state.flags == Flags(stack)
    {
      hide TableFlags;
      state := new FlowState();
      var i := 0;
      while i < |stack|
        invariant 0 <= i <= |stack|
        invariant state.flags + Flags(stack[i..]) == Flags(stack)
      {
        assert stack[i..][0] == stack[i] && stack[i..][1..] == stack[i + 1..];
        ghost var before := state.flags;
        state.Append(stack[i]);
        assert before + (TableFlags(stack[i]) + Flags(stack[i + 1..])) == state.flags + Flags(stack[i + 1..]);
        i := i + 1;
      }
    }

    static method RestoredTable(table: Table, flags: seq<bool>, k: nat) returns (r: Table)
      ensures r == TableWith(table, Rest(flags, k))
    {
      r := [];
      var j := 0;
      while j < |table|
        invariant 0 <= j <= |table|
        invariant r == TableWith(table, Rest(flags, k))[..j]
      {
        r := r + [if k + j < |flags| then table[j].(initialized := flags[k + j]) else table[j]];
        j := j + 1;
      }
    }

    method FlowRestore(state: FlowState)
      modifies this`stack
      ensures stack == WithFlags(old(stack), state.flags)
    {
      hide TableWith, Rest;
      ghost var start := stack;
      var done: Stack := [];
      var k: nat := 0;
      assert Rest(state.flags, 0) == state.flags by {
        RestNone(state.flags);
      }
      while |done| < |stack|
        invariant |done| <= |stack| && stack == start
        invariant done + WithFlags(stack[|done|..], Rest(state.flags, k)) == WithFlags(stack, state.flags)
        decreases |stack| - |done|
      {
        var i := |done|;
        assert stack[i..][0] == stack[i] && stack[i..][1..] == stack[i + 1..];
        var table := RestoredTable(stack[i], state.flags, k);
        RestRest(state.flags, k, |stack[i]|);
        ghost var tail := WithFlags(stack[i + 1..], Rest(state.flags, k + |stack[i]|));
        assert done + ([table] + tail) == (done + [table]) + tail;
        k, done := k + |stack[i]|, done + [table];
      }
      assert WithFlags(stack[|done|..], Rest(state.flags, k)) == [] && done + [] == done;
      stack := done;
    }
  }

  lemma FindScopeLast(stack: Stack, i: nat, name: string)
    requires 0 < i <= |stack|
    ensures FindScope(stack[..i], name) == if FindIn(stack[i - 1], name).Some? then Some(i - 1)
            else FindScope(stack[..i - 1], name)
  {
    hide FindIn;
    assert stack[..i][..i - 1] == stack[..i - 1];
  }

  lemma NothingFound(name: string)
    ensures FindScope([], name) == None
  {}

  lemma RestNone(f: seq<bool>)
    ensures Rest(f, 0) == f
  {}

  lemma RestRest(f: seq<bool>, k: nat, n: nat)
    ensures Rest(Rest(f, k), n) == Rest(f, k + n)
  {}
}
