/** Analysing the loaded modules: each after everything it imports, with a mark against cycles. */
module ImportOrder {
  import opened Arith
  import opened Modules

  datatype Mark = Pending | InProgress | Done | Failed

  /** The marks of the modules, the modules whose analysis is over in the order it ended, and whether a
    * cyclic import has been reported. */
  datatype Progress = Progress(marks: seq<Mark>, finished: seq<nat>, cyclic: bool)

  /** Links go to modules of the list, and only a loaded module has any. */
  predicate WellLinked(g: seq<Module>) {
    forall i :: 0 <= i < |g| ==> InRange(g, g[i].links) && (g[i].stage.Loaded? || g[i].links == [])
  }

  predicate InRange(g: seq<Module>, links: seq<Option<nat>>) {
    forall k :: 0 <= k < |links| && links[k].Some? ==> links[k].value < |g|
  }

  function Waiting(m: Progress): set<nat> {
    set i | 0 <= i < |m.marks| && m.marks[i].Pending?
  }

  predicate KeepsMarks(a: Progress, b: Progress) {
    |a.marks| == |b.marks| && forall i :: 0 <= i < |a.marks| && !a.marks[i].Pending? ==> b.marks[i] == a.marks[i]
  }

  lemma KeepsWaiting(a: Progress, b: Progress)
    requires KeepsMarks(a, b)
    ensures Waiting(b) <= Waiting(a)
  {}

  lemma StartedOne(m: Progress, i: nat)
    requires i < |m.marks| && m.marks[i].Pending?
    ensures Waiting(m.(marks := m.marks[i := InProgress])) < Waiting(m)
  {
    var n := m.(marks := m.marks[i := InProgress]);
    assert i in Waiting(m) && i !in Waiting(n);
    forall k | k in Waiting(n) ensures k in Waiting(m) {}
  }

  /** One module: whether its imports are all in order. */
  function AnalyzeModule(g: seq<Module>, m: Progress, i: nat): (r: (Progress, bool))
    requires WellLinked(g) && |m.marks| == |g| && i < |g|
    ensures KeepsMarks(m, r.0)
    decreases Waiting(m), 0
  {
    match m.marks[i]
    case Done => (m, true)
    case Failed => (m, false)
    case InProgress => (m.(cyclic := true), false)
    case Pending =>
      if !g[i].stage.Loaded? then (Progress(m.marks[i := Mark.Failed], m.finished + [i], m.cyclic), false)
      else
        StartedOne(m, i);
        var all := AnalyzeImports(g, m.(marks := m.marks[i := InProgress]), g[i].links);
        (Progress(all.0.marks[i := if all.1 then Done else Mark.Failed], all.0.finished + [i], all.0.cyclic), all.1)
  }

  /** All the imports of a program, going on after one that is not in order. */
  function AnalyzeImports(g: seq<Module>, m: Progress, links: seq<Option<nat>>): (r: (Progress, bool))
    requires WellLinked(g) && |m.marks| == |g| && InRange(g, links)
    ensures KeepsMarks(m, r.0)
    decreases Waiting(m), |links| + 1
  {
    if |links| == 0 then (m, true)
    else
      var first := if links[0].None? then (m, false) else AnalyzeModule(g, m, links[0].value);
      KeepsWaiting(m, first.0);
      var rest := AnalyzeImports(g, first.0, links[1..]);
      (rest.0, first.1 && rest.1)
  }

  // ---------------------------------------------------------------- paths

  predicate IsPath(g: seq<Module>, p: seq<nat>) {
    |p| > 0 && (forall k :: 0 <= k < |p| ==> p[k] < |g|) &&
    forall k :: 0 <= k < |p| - 1 ==> Imports(g, p[k], p[k + 1])
  }

  predicate Imports(g: seq<Module>, i: nat, j: nat) {
    i < |g| && Some(j) in g[i].links
  }

  function Last(p: seq<nat>): nat {
    if |p| > 0 then p[|p| - 1] else 0
  }

  /** The path comes back to a module it has passed. */
  predicate ComesBack(p: seq<nat>) {
    |p| > 0 && Last(p) in p[..|p| - 1]
  }

  /** A module that was not loaded, or with an import that was not found. */
  predicate Broken(g: seq<Module>, i: nat) {
    i < |g| && (!g[i].stage.Loaded? || None in g[i].links)
  }

  ghost predicate PathFrom(g: seq<Module>, links: seq<Option<nat>>, p: seq<nat>) {
    IsPath(g, p) && Some(p[0]) in links
  }

  ghost predicate Reached(g: seq<Module>, links: seq<Option<nat>>, i: nat) {
    exists p :: PathFrom(g, links, p) && Last(p) == i
  }

  ghost predicate Cyclic(g: seq<Module>, links: seq<Option<nat>>) {
    exists p :: PathFrom(g, links, p) && ComesBack(p)
  }

  ghost predicate Doomed(g: seq<Module>, links: seq<Option<nat>>) {
    None in links || exists p :: PathFrom(g, links, p) && (ComesBack(p) || Broken(g, Last(p)))
  }

  lemma PathStep(g: seq<Module>, i: nat, p: seq<nat>)
    requires IsPath(g, p) && Imports(g, i, p[0])
    ensures IsPath(g, [i] + p) && Last([i] + p) == Last(p) && (ComesBack(p) ==> ComesBack([i] + p))
  {
    var q := [i] + p;
    forall k | 0 <= k < |q| - 1 ensures Imports(g, q[k], q[k + 1]) {
      if k > 0 {
        assert q[k] == p[k - 1] && q[k + 1] == p[k];
      }
    }
    assert q[..|q| - 1] == [i] + p[..|p| - 1];
  }

  /** What the imports of a module lead to, the module leads to. */
  lemma Through(g: seq<Module>, i: nat)
    requires i < |g|
    ensures forall k :: Reached(g, g[i].links, k) ==> Reached(g, [Some(i)], k)
    ensures Cyclic(g, g[i].links) ==> Cyclic(g, [Some(i)])
    ensures Doomed(g, g[i].links) ==> Doomed(g, [Some(i)])
    ensures Reached(g, [Some(i)], i)
  {
    hide IsPath, ComesBack, Broken, Last, Imports;
    Alone(g, i);
    forall p | PathFrom(g, g[i].links, p)
      ensures PathFrom(g, [Some(i)], [i] + p) && Last([i] + p) == Last(p) && (ComesBack(p) ==> ComesBack([i] + p))
    {
      FirstImport(g, i, p);
      PathStep(g, i, p);
    }
    if None in g[i].links {
      assert PathFrom(g, [Some(i)], [i]) && Broken(g, Last([i]));
    }
  }

  lemma Alone(g: seq<Module>, i: nat)
    requires i < |g|
    ensures PathFrom(g, [Some(i)], [i]) && Last([i]) == i && (None in g[i].links ==> Broken(g, i))
  {}

  lemma FirstImport(g: seq<Module>, i: nat, p: seq<nat>)
    requires i < |g| && PathFrom(g, g[i].links, p)
    ensures IsPath(g, p) && Imports(g, i, p[0])
  {}

  lemma MoreLinks(g: seq<Module>, few: seq<Option<nat>>, many: seq<Option<nat>>)
    requires forall l :: l in few ==> l in many
    ensures forall k :: Reached(g, few, k) ==> Reached(g, many, k)
    ensures Cyclic(g, few) ==> Cyclic(g, many)
    ensures Doomed(g, few) ==> Doomed(g, many)
  {
    hide IsPath, ComesBack, Broken, Last;
    forall p | PathFrom(g, few, p) ensures PathFrom(g, many, p) {}
  }

  /** The path of modules in progress closes where it meets one of them. */
  lemma Closes(g: seq<Module>, stack: seq<nat>, i: nat)
    requires IsPath(g, stack) && Imports(g, Last(stack), i) && i in stack
    ensures Cyclic(g, [Some(i)])
  {
    var a :| 0 <= a < |stack| && stack[a] == i;
    var p := stack[a..] + [i];
    forall k | 0 <= k < |p| - 1 ensures Imports(g, p[k], p[k + 1]) {
      if k < |p| - 2 {
        assert p[k] == stack[a + k] && p[k + 1] == stack[a + k + 1];
      }
    }
    assert p[..|p| - 1] == stack[a..] && stack[a..][0] == i;
    assert PathFrom(g, [Some(i)], p);
  }

  // ---------------------------------------------------------------- what every step keeps

  predicate IsOver(mark: Mark) {
    mark.Done? || mark.Failed?
  }

  /** Everything module `b` of the finished list imports finished before it. */
  ghost predicate AfterImports(g: seq<Module>, finished: seq<nat>, b: nat)
    requires b < |finished|
  {
    forall j: nat :: Imports(g, finished[b], j) ==> j in finished[..b]
  }

  predicate NoRepeats(s: seq<nat>) {
    forall a, b :: 0 <= a < b < |s| ==> s[a] != s[b]
  }

  /** How the marks and the finished list stand to each other and to the graph. */
  ghost predicate Sound(g: seq<Module>, m: Progress) {
    |m.marks| == |g| && NoRepeats(m.finished) &&
    (forall i :: 0 <= i < |g| ==> (i in m.finished <==> IsOver(m.marks[i]))) &&
    (forall b :: 0 <= b < |m.finished| ==> SoundAt(g, m, b))
  }

  ghost predicate SoundAt(g: seq<Module>, m: Progress, b: nat)
    requires |m.marks| == |g| && b < |m.finished|
  {
    var i := m.finished[b];
    i < |g| &&
    (m.marks[i].Failed? ==> Doomed(g, [Some(i)])) &&
    (m.marks[i].Done? ==>
     !Broken(g, i) && AfterImports(g, m.finished, b) &&
     forall j: nat :: Imports(g, i, j) ==> j < |g| && m.marks[j].Done?) &&
    (!m.cyclic ==> AfterImports(g, m.finished, b)) &&
    (forall j: nat :: Imports(g, i, j) ==> j < |g| && !m.marks[j].Pending?)
  }

  /** The modules in progress are a path, the innermost last. */
  ghost predicate OnStack(g: seq<Module>, m: Progress, stack: seq<nat>) {
    (|stack| > 0 ==> IsPath(g, stack)) &&
    forall i :: 0 <= i < |m.marks| ==> (m.marks[i].InProgress? <==> i in stack)
  }

  ghost predicate Under(g: seq<Module>, stack: seq<nat>, links: seq<Option<nat>>) {
    |stack| > 0 ==> forall l :: l in links ==> Last(stack) < |g| && l in g[Last(stack)].links
  }

  /** What analysing `links` does. */
  ghost predicate Step(g: seq<Module>, links: seq<Option<nat>>, a: Progress, b: Progress, ok: bool) {
    KeepsMarks(a, b) && |a.finished| <= |b.finished| && b.finished[..|a.finished|] == a.finished &&
    (forall k :: |a.finished| <= k < |b.finished| ==> Reached(g, links, b.finished[k])) &&
    (a.cyclic ==> b.cyclic) && (b.cyclic && !a.cyclic ==> Cyclic(g, links)) &&
    (ok ==> None !in links) && (!ok ==> Doomed(g, links)) &&
    (forall i :: Some(i) in links ==> i < |b.marks| && AfterVisit(b, i, ok))
  }

  predicate AfterVisit(m: Progress, i: nat, ok: bool)
    requires i < |m.marks|
  {
    !m.marks[i].Pending? && (ok ==> m.marks[i].Done?) && (!m.cyclic ==> IsOver(m.marks[i]))
  }

  lemma StepTwice(g: seq<Module>, links: seq<Option<nat>>, a: Progress, b: Progress, c: Progress, ok: bool, ok': bool)
    requires |links| > 0 && Step(g, [links[0]], a, b, ok) && Step(g, links[1..], b, c, ok')
    ensures Step(g, links, a, c, ok && ok')
  {
    hide Reached, Cyclic, Doomed;
    MoreLinks(g, [links[0]], links);
    MoreLinks(g, links[1..], links);
    assert links == [links[0]] + links[1..];
    assert c.finished[..|a.finished|] == b.finished[..|a.finished|];
    forall k | |a.finished| <= k < |c.finished| ensures Reached(g, links, c.finished[k]) {
      if k < |b.finished| {
        assert c.finished[k] == c.finished[..|b.finished|][k];
      }
    }
    forall i | Some(i) in links ensures i < |c.marks| && AfterVisit(c, i, ok && ok') {
      if Some(i) in [links[0]] {
        assert AfterVisit(b, i, ok);
      } else {
        assert AfterVisit(c, i, ok');
      }
    }
  }

  /** A module that was met before. */
  lemma Met(g: seq<Module>, m: Progress, i: nat, stack: seq<nat>)
    requires WellLinked(g) && Sound(g, m) && OnStack(g, m, stack) && i < |g| && Under(g, stack, [Some(i)]) &&
             !m.marks[i].Pending?
    ensures var r := AnalyzeModule(g, m, i); Step(g, [Some(i)], m, r.0, r.1) && Sound(g, r.0)
  {
    hide Cyclic, Doomed, Reached, Broken, AfterImports;
    if m.marks[i].InProgress? {
      assert Some(i) in [Some(i)];
      Closes(g, stack, i);
      CyclicIsDoomed(g, [Some(i)]);
      forall b | 0 <= b < |m.finished| ensures SoundAt(g, m.(cyclic := true), b) {
        assert SoundAt(g, m, b);
      }
    } else {
      var b :| 0 <= b < |m.finished| && m.finished[b] == i;
      assert SoundAt(g, m, b);
    }
  }

  lemma CyclicIsDoomed(g: seq<Module>, links: seq<Option<nat>>)
    requires Cyclic(g, links)
    ensures Doomed(g, links)
  {}

  /** The end of a module: its mark, and its place in the finished list. */
  function Finish(m: Progress, i: nat, ok: bool): Progress
    requires i < |m.marks|
  {
    Progress(m.marks[i := if ok then Done else Mark.Failed], m.finished + [i], m.cyclic)
  }

  /** Finished modules stay as they are when one more finishes. */
  lemma FinishKeeps(g: seq<Module>, m: Progress, i: nat, ok: bool, b: nat)
    requires Sound(g, m) && i < |g| && !IsOver(m.marks[i]) && b < |m.finished|
    ensures SoundAt(g, Finish(m, i, ok), b)
  {
    hide Doomed, Broken, Imports;
    var n := Finish(m, i, ok);
    assert SoundAt(g, m, b);
    assert n.finished[b] == m.finished[b] && n.finished[..b] == m.finished[..b];
    assert m.finished[b] in m.finished;
  }

  lemma FinishSound(g: seq<Module>, m: Progress, i: nat, ok: bool)
    requires Sound(g, m) && i < |g| && !IsOver(m.marks[i])
    requires SoundAt(g, Finish(m, i, ok), |m.finished|)
    ensures Sound(g, Finish(m, i, ok))
  {
    hide SoundAt;
    var n := Finish(m, i, ok);
    forall b | 0 <= b < |n.finished| ensures SoundAt(g, n, b) {
      if b < |m.finished| {
        FinishKeeps(g, m, i, ok, b);
      }
    }
    assert i !in m.finished;
    assert forall k :: 0 <= k < |m.finished| ==> n.finished[k] == m.finished[k];
    assert n.finished[|m.finished|] == i;
  }

  lemma FinishLast(g: seq<Module>, before: Progress, m: Progress, i: nat, ok: bool)
    requires Sound(g, m) && i < |g| && m.marks[i].InProgress? && g[i].stage.Loaded? && InRange(g, g[i].links)
    requires Step(g, g[i].links, before, m, ok)
    ensures SoundAt(g, Finish(m, i, ok), |m.finished|)
  {
    hide Doomed, Cyclic, Reached;
    var n := Finish(m, i, ok);
    Through(g, i);
    assert n.finished[..|m.finished|] == m.finished;
    forall j: nat | Imports(g, i, j) ensures j < |g| && AfterVisit(m, j, ok) {
      assert AfterVisit(m, j, ok);
    }
  }

  lemma FinishStep(g: seq<Module>, m: Progress, all: Progress, i: nat, ok: bool)
    requires i < |g| == |m.marks| && m.marks[i].Pending? && all.marks != [] && |all.marks| == |g| &&
             all.marks[i].InProgress?
    requires Step(g, g[i].links, m.(marks := m.marks[i := InProgress]), all, ok)
    ensures Step(g, [Some(i)], m, Finish(all, i, ok), ok)
  {
    hide Doomed, Cyclic, Reached;
    var n := Finish(all, i, ok);
    Through(g, i);
    forall k | |m.finished| <= k < |n.finished| ensures Reached(g, [Some(i)], n.finished[k]) {
      if k < |all.finished| {
        assert n.finished[k] == all.finished[k];
      }
    }
    assert n.finished[..|m.finished|] == all.finished[..|m.finished|];
    assert AfterVisit(n, i, ok);
  }

  lemma Unloaded(g: seq<Module>, m: Progress, i: nat)
    requires WellLinked(g) && Sound(g, m) && i < |g| && m.marks[i].Pending? && !g[i].stage.Loaded?
    ensures var r := AnalyzeModule(g, m, i); Step(g, [Some(i)], m, r.0, r.1) && Sound(g, r.0)
  {
    hide Cyclic, Reached;
    var n := Finish(m, i, false);
    Alone(g, i);
    assert PathFrom(g, [Some(i)], [i]) && Broken(g, Last([i]));
    Through(g, i);
    assert n.finished[..|m.finished|] == m.finished;
    FinishSound(g, m, i, false);
  }

  lemma {:induction false} ModuleStep(g: seq<Module>, m: Progress, i: nat, stack: seq<nat>)
    requires WellLinked(g) && |m.marks| == |g| && Sound(g, m) && OnStack(g, m, stack) && i < |g| &&
             Under(g, stack, [Some(i)])
    ensures var r := AnalyzeModule(g, m, i); Step(g, [Some(i)], m, r.0, r.1) && Sound(g, r.0) && OnStack(g, r.0, stack)
    decreases Waiting(m), 0
  {
    hide Cyclic, Doomed, Reached, Sound, OnStack, Under, Step, Broken;
    var r := AnalyzeModule(g, m, i);
    if !m.marks[i].Pending? {
      Met(g, m, i, stack);
      SameStack(g, m, r.0, stack);
    } else if !g[i].stage.Loaded? {
      Unloaded(g, m, i);
      SameStack(g, m, r.0, stack);
    } else {
      var started := m.(marks := m.marks[i := InProgress]);
      StartedOne(m, i);
      Started(g, m, i, stack);
      ImportsStep(g, started, g[i].links, stack + [i]);
      var all := AnalyzeImports(g, started, g[i].links);
      KeptInProgress(g, m, all.0, i, stack);
      FinishLast(g, started, all.0, i, all.1);
      FinishSound(g, all.0, i, all.1);
      FinishStep(g, m, all.0, i, all.1);
      Popped(g, m, all.0, i, all.1, stack);
    }
  }

  lemma SameStack(g: seq<Module>, a: Progress, b: Progress, stack: seq<nat>)
    requires OnStack(g, a, stack) && |a.marks| == |b.marks|
    requires forall i :: 0 <= i < |a.marks| ==> (a.marks[i].InProgress? <==> b.marks[i].InProgress?)
    ensures OnStack(g, b, stack)
  {}

  lemma Started(g: seq<Module>, m: Progress, i: nat, stack: seq<nat>)
    requires Sound(g, m) && OnStack(g, m, stack) && i < |g| && Under(g, stack, [Some(i)]) && m.marks[i].Pending?
    ensures var n := m.(marks := m.marks[i := InProgress]);
            Sound(g, n) && OnStack(g, n, stack + [i]) && Under(g, stack + [i], g[i].links)
  {
    hide Cyclic, Doomed, Reached, Broken, AfterImports;
    var n, t := m.(marks := m.marks[i := InProgress]), stack + [i];
    forall b | 0 <= b < |m.finished| ensures SoundAt(g, n, b) {
      assert SoundAt(g, m, b);
      assert m.finished[b] in m.finished;
    }
    if |stack| > 0 {
      assert Some(i) in [Some(i)];
      forall k | 0 <= k < |t| - 1 ensures Imports(g, t[k], t[k + 1]) {
        if k < |stack| - 1 {
          assert t[k] == stack[k] && t[k + 1] == stack[k + 1];
        }
      }
    }
  }

  lemma KeptInProgress(g: seq<Module>, m: Progress, all: Progress, i: nat, stack: seq<nat>)
    requires OnStack(g, all, stack + [i]) && i < |all.marks|
    ensures all.marks[i].InProgress?
  {}

  lemma Popped(g: seq<Module>, m: Progress, all: Progress, i: nat, ok: bool, stack: seq<nat>)
    requires OnStack(g, m, stack) && OnStack(g, all, stack + [i]) && i < |m.marks| == |all.marks| && m.marks[i].Pending?
    ensures OnStack(g, Finish(all, i, ok), stack)
  {
    assert i !in stack;
  }

  lemma {:induction false} ImportsStep(g: seq<Module>, m: Progress, links: seq<Option<nat>>, stack: seq<nat>)
    requires WellLinked(g) && |m.marks| == |g| && Sound(g, m) && OnStack(g, m, stack) && InRange(g, links) &&
             Under(g, stack, links)
    ensures var r := AnalyzeImports(g, m, links); Step(g, links, m, r.0, r.1) && Sound(g, r.0) && OnStack(g, r.0, stack)
    decreases Waiting(m), |links| + 1
  {
    hide Cyclic, Doomed, Reached, Sound, OnStack, Step, AnalyzeModule, Under;
    UnderParts(g, stack, links);
    if |links| == 0 {
      NoStep(g, m);
    } else {
      var first := if links[0].None? then (m, false) else AnalyzeModule(g, m, links[0].value);
      if links[0].None? {
        MissingStep(g, m);
      } else {
        ModuleStep(g, m, links[0].value, stack);
      }
      KeepsWaiting(m, first.0);
      ImportsStep(g, first.0, links[1..], stack);
      var rest := AnalyzeImports(g, first.0, links[1..]);
      assert [links[0]] == if links[0].None? then [None] else [Some(links[0].value)];
      StepTwice(g, links, m, first.0, rest.0, first.1, rest.1);
    }
  }

  lemma UnderParts(g: seq<Module>, stack: seq<nat>, links: seq<Option<nat>>)
    requires Under(g, stack, links)
    ensures |links| > 0 ==> Under(g, stack, links[1..])
    ensures |links| > 0 && links[0].Some? ==> Under(g, stack, [Some(links[0].value)])
  {
    if |links| > 0 {
      assert links[0] in links;
      assert forall l :: l in links[1..] ==> l in links;
    }
  }

  lemma NoStep(g: seq<Module>, m: Progress)
    ensures Step(g, [], m, m, true)
  {}

  lemma MissingStep(g: seq<Module>, m: Progress)
    ensures Step(g, [None], m, m, false)
  {}

  // ---------------------------------------------------------------- the whole analysis

  /** Downwards in the finished list along a path. */
  lemma {:induction false} Descends(g: seq<Module>, m: Progress, p: seq<nat>, b: nat, strict: bool)
    requires Sound(g, m) && IsPath(g, p) && b < |m.finished| && m.finished[b] == p[0]
    requires if strict then m.marks[p[0]].Done? else !m.cyclic
    ensures forall k :: 0 < k < |p| ==> p[k] in m.finished[..b]
    ensures strict ==> m.marks[Last(p)].Done? && !Broken(g, Last(p))
    decreases |p|
  {
    hide Doomed, Broken;
    assert SoundAt(g, m, b);
    if |p| > 1 {
      assert Imports(g, p[0], p[0 + 1]);
      var c :| 0 <= c < b && m.finished[c] == p[1];
      Suffix(g, p);
      Descends(g, m, p[1..], c, strict);
      forall k | 0 < k < |p| ensures p[k] in m.finished[..b] {
        if k > 1 {
          assert p[k] == p[1..][k - 1];
          assert p[k] in m.finished[..c];
        }
      }
    }
  }

  lemma Suffix(g: seq<Module>, p: seq<nat>)
    requires IsPath(g, p) && |p| > 1
    ensures IsPath(g, p[1..]) && Last(p[1..]) == Last(p)
  {
    var t := p[1..];
    forall k | 0 <= k < |t| - 1 ensures Imports(g, t[k], t[k + 1]) {
      assert t[k] == p[k + 1] && t[k + 1] == p[k + 1 + 1];
    }
  }

  /** A path that starts in order does not come back. */
  lemma NeverBack(g: seq<Module>, m: Progress, p: seq<nat>, strict: bool)
    requires Sound(g, m) && IsPath(g, p) && p[0] in m.finished
    requires if strict then m.marks[p[0]].Done? else !m.cyclic
    ensures !ComesBack(p)
    decreases |p|
  {
    hide Doomed, Broken, SoundAt;
    if ComesBack(p) {
      var a :| 0 <= a < |p| - 1 && p[..|p| - 1][a] == Last(p);
      var b :| 0 <= b < |m.finished| && m.finished[b] == p[0];
      if a == 0 {
        Descends(g, m, p, b, strict);
      } else {
        StartsInOrder(g, m, p, b, strict);
        Suffix(g, p);
        assert p[1..][..|p| - 2][a - 1] == Last(p);
        NeverBack(g, m, p[1..], strict);
      }
    }
  }

  lemma StartsInOrder(g: seq<Module>, m: Progress, p: seq<nat>, b: nat, strict: bool)
    requires Sound(g, m) && IsPath(g, p) && |p| > 1 && b < |m.finished| && m.finished[b] == p[0]
    requires if strict then m.marks[p[0]].Done? else !m.cyclic
    ensures p[1] in m.finished && (strict ==> m.marks[p[1]].Done?)
  {
    hide Doomed, Broken;
    assert SoundAt(g, m, b);
    assert Imports(g, p[0], p[0 + 1]);
  }

  function Fresh(g: seq<Module>): Progress {
    Progress(seq(|g|, _ => Pending), [], false)
  }

  function Analyze(g: seq<Module>, links: seq<Option<nat>>): (Progress, bool)
    requires WellLinked(g) && InRange(g, links)
  {
    AnalyzeImports(g, Fresh(g), links)
  }

  lemma AnalyzeSound(g: seq<Module>, links: seq<Option<nat>>)
    requires WellLinked(g) && InRange(g, links)
    ensures var r := Analyze(g, links); Step(g, links, Fresh(g), r.0, r.1) && Sound(g, r.0) && OnStack(g, r.0, [])
  {
    ImportsStep(g, Fresh(g), links, []);
  }

  /** Everything a path visits has been analysed to the end. */
  lemma {:induction false} PathFinished(g: seq<Module>, links: seq<Option<nat>>, p: seq<nat>)
    requires WellLinked(g) && InRange(g, links) && PathFrom(g, links, p)
    ensures Last(p) in Analyze(g, links).0.finished
    decreases |p|
  {
    hide Doomed, Broken, Cyclic, Reached, AnalyzeImports;
    AnalyzeSound(g, links);
    var m := Analyze(g, links).0;
    var i := Last(p);
    if |p| > 1 {
      var q := p[..|p| - 1];
      assert forall k :: 0 <= k < |q| ==> q[k] == p[k];
      PathFinished(g, links, q);
      var b :| 0 <= b < |m.finished| && m.finished[b] == Last(q);
      assert SoundAt(g, m, b);
      assert Imports(g, p[|p| - 2], p[|p| - 2 + 1]);
    } else {
      assert AfterVisit(m, i, Analyze(g, links).1);
    }
    assert !m.marks[i].Pending? && !m.marks[i].InProgress?;
  }

  /** A module is done exactly if nothing it leads to is broken or comes back. */
  lemma DoneExactly(g: seq<Module>, links: seq<Option<nat>>, i: nat)
    requires WellLinked(g) && InRange(g, links) && i in Analyze(g, links).0.finished
    ensures i < |g| && (Analyze(g, links).0.marks[i].Done? <==> !Doomed(g, [Some(i)]))
  {
    hide Broken, Cyclic, Reached, AnalyzeImports, IsPath, ComesBack;
    AnalyzeSound(g, links);
    var m := Analyze(g, links).0;
    var b :| 0 <= b < |m.finished| && m.finished[b] == i;
    assert SoundAt(g, m, b);
    if m.marks[i].Done? {
      forall p | PathFrom(g, [Some(i)], p) ensures !ComesBack(p) && !Broken(g, Last(p)) {
        StartsAt(g, i, p);
        NeverBack(g, m, p, true);
        Descends(g, m, p, b, true);
      }
    }
  }

  lemma StartsAt(g: seq<Module>, i: nat, p: seq<nat>)
    requires PathFrom(g, [Some(i)], p)
    ensures IsPath(g, p) && p[0] == i
  {}

  /** The analysis visits exactly the modules the program reaches, each once, and a module only after
    * everything it imports unless a cycle is reported; it ends a module as done exactly if the module
    * leads to no cycle, no module that failed to load and no import that was not found; it accepts the
    * program under the same condition; and it reports a cyclic import exactly if there is one. */
  lemma AnalyzesExactly(g: seq<Module>, links: seq<Option<nat>>)
    requires WellLinked(g) && InRange(g, links)
    ensures var r := Analyze(g, links); var m := r.0;
            (forall i :: i in m.finished <==> Reached(g, links, i)) && NoRepeats(m.finished) &&
            (forall i :: i in m.finished ==>
               i < |g| && (m.marks[i].Done? <==> !Doomed(g, [Some(i)])) &&
               (m.marks[i].Failed? <==> Doomed(g, [Some(i)]))) &&
            (forall b :: 0 <= b < |m.finished| ==>
              m.finished[b] < |m.marks| && (m.marks[m.finished[b]].Done? || !m.cyclic ==>
                                            AfterImports(g, m.finished, b))) &&
            (r.1 <==> !Doomed(g, links)) && (m.cyclic <==> Cyclic(g, links))
  {
    hide Broken, AnalyzeImports, IsPath, ComesBack, AfterImports, Doomed, Cyclic;
    AnalyzeSound(g, links);
    var r := Analyze(g, links);
    var m := r.0;
    forall i | Reached(g, links, i) ensures i in m.finished {
      var p :| PathFrom(g, links, p) && Last(p) == i;
      PathFinished(g, links, p);
    }
    forall i | i in m.finished ensures Reached(g, links, i) {
      var b :| 0 <= b < |m.finished| && m.finished[b] == i;
    }
    forall i | i in m.finished
      ensures i < |g| && IsOver(m.marks[i]) && (m.marks[i].Done? <==> !Doomed(g, [Some(i)]))
    {
      DoneExactly(g, links, i);
    }
    forall b | 0 <= b < |m.finished|
      ensures m.finished[b] < |m.marks| && (m.marks[m.finished[b]].Done? || !m.cyclic ==>
                                            AfterImports(g, m.finished, b))
    {
      assert SoundAt(g, m, b);
    }
    if r.1 {
      Accepted(g, links);
    }
    if !m.cyclic {
      Reported(g, links);
    }
  }

  lemma Accepted(g: seq<Module>, links: seq<Option<nat>>)
    requires WellLinked(g) && InRange(g, links) && Analyze(g, links).1
    ensures !Doomed(g, links)
  {
    hide Broken, AnalyzeImports, IsPath, ComesBack;
    AnalyzeSound(g, links);
    var m := Analyze(g, links).0;
    forall p | PathFrom(g, links, p) ensures !ComesBack(p) && !Broken(g, Last(p)) {
      StartsIn(g, links, p);
      assert AfterVisit(m, p[0], true);
      var b :| 0 <= b < |m.finished| && m.finished[b] == p[0];
      NeverBack(g, m, p, true);
      Descends(g, m, p, b, true);
    }
  }

  lemma StartsIn(g: seq<Module>, links: seq<Option<nat>>, p: seq<nat>)
    requires PathFrom(g, links, p)
    ensures IsPath(g, p) && |p| > 0 && Some(p[0]) in links && PathFrom(g, links, [p[0]])
  {}

  lemma Reported(g: seq<Module>, links: seq<Option<nat>>)
    requires WellLinked(g) && InRange(g, links) && !Analyze(g, links).0.cyclic
    ensures !Cyclic(g, links)
  {
    hide Broken, AnalyzeImports, IsPath, ComesBack, Doomed;
    AnalyzeSound(g, links);
    var m := Analyze(g, links).0;
    forall p | PathFrom(g, links, p) ensures !ComesBack(p) {
      StartsIn(g, links, p);
      PathFinished(g, links, [p[0]]);
      NeverBack(g, m, p, false);
    }
  }
}
