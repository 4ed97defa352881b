/** The module list as it runs: entries added and marked in place while the imports are walked; and
  * what a program's imports must be for it to be accepted. */
module ImportCheck {
  import opened Arith
  import opened Modules
  import opened ImportOrder

  class ModuleList {
    const files: Files
    const dirs: seq<string>
    var modules: seq<Module>
    var errors: bool
    var marks: seq<Mark>
    /** The modules whose analysis has ended, in order. */
    var finished: seq<nat>
    var cyclic: bool

    constructor (files: Files, dirs: seq<string>)
      ensures this.files == files && this.dirs == dirs && Now() == NOTHING
    {
      this.files, this.dirs, modules, errors := files, dirs, [], false;
      marks, finished, cyclic := [], [], false;
    }

    function Now(): Library
      reads this
    {
      Library(modules, errors)
    }

    function Marked(): Progress
      reads this
    {
      Progress(marks, finished, cyclic)
    }

    method FindPath(name: string) returns (r: Option<string>)
      ensures r == Find(files, dirs, name)
    {
      if name in files {
        return Some(name);
      }
      var i := 0;
      while i < |dirs|
        invariant 0 <= i <= |dirs|
        invariant FindIn(files, dirs, name) == FindIn(files, dirs[i..], name)
      {
        var candidate := JoinPath(dirs[i], name);
        if candidate in files {
          return Some(candidate);
        }
        assert dirs[i..][1..] == dirs[i + 1..];
        i := i + 1;
      }
      return None;
    }

    method FindIndex(filename: string) returns (r: Option<nat>)
      ensures r == IndexOf(modules, filename)
    {
      var i: nat := 0;
      while i < |modules|
        invariant i <= |modules|
        invariant forall k :: 0 <= k < i ==> modules[k].filename != filename
      {
        if modules[i].filename == filename {
          FirstIndex(modules, filename, i);
          return Some(i);
        }
        i := i + 1;
      }
      return None;
    }

    method ResolveImport(path: string) returns (link: Option<nat>)
      modifies this
      ensures (Now(), link) == Resolve(files, dirs, old(Now()), path) && Marked() == old(Marked())
      decreases Unlisted(files, modules), 0
    {
      hide Find, IndexOf, ResolveAll;
      var found := FindPath(path);
      if found.None? {
        errors := true;
        return None;
      }
      var f := found.value;
      link := FindIndex(f);
      if link.Some? {
        return;
      }
      var k := |modules|;
      ListedOne(files, modules, Module(f, path, Loading, []));
      modules := modules + [Module(f, path, Loading, [])];
      if errors || !files[f].clean {
        errors := true;
        modules := modules[k := Module(f, path, Stage.Failed, [])];
        assert modules == old(modules) + [Module(f, path, Stage.Failed, [])];
        return Some(k);
      }
      var links := ResolveImports(files[f].imports);
      modules := modules[k := Module(f, path, Loaded, links)];
      return Some(k);
    }

    method ResolveImports(paths: seq<string>) returns (links: seq<Option<nat>>)
      modifies this
      ensures (Now(), links) == ResolveAll(files, dirs, old(Now()), paths) && Marked() == old(Marked())
      decreases Unlisted(files, modules), |paths| + 1
    {
      hide Resolve;
      links := [];
      var i := 0;
      assert paths[0..] == paths && forall s: seq<Option<nat>> :: [] + s == s;
      while i < |paths|
        invariant 0 <= i <= |paths| && Extends(old(modules), modules) && Marked() == old(Marked())
        invariant var rest := ResolveAll(files, dirs, Now(), paths[i..]);
                  ResolveAll(files, dirs, old(Now()), paths) == (rest.0, links + rest.1)
      {
        ExtendsUnlisted(files, old(modules), modules);
        assert paths[i..][0] == paths[i] && paths[i..][1..] == paths[i + 1..];
        ghost var was, before := Now(), links;
        var link := ResolveImport(paths[i]);
        links := links + [link];
        ResolveAllShape(files, dirs, was, paths[i..]);
        Appended(before, link, ResolveAll(files, dirs, Now(), paths[i + 1..]).1);
        Extended(old(modules), was.list, modules);
        i := i + 1;
      }
      assert paths[i..] == [];
      assert links + [] == links;
    }

    method AnalyzeOne(i: nat) returns (ok: bool)
      requires WellLinked(modules) && |marks| == |modules| && i < |modules|
      modifies this`marks, this`finished, this`cyclic
      ensures (Marked(), ok) == AnalyzeModule(modules, old(Marked()), i)
      decreases Waiting(Marked()), 0
    {
      hide AnalyzeImports;
      match marks[i]
      case Done => ok := true;
      case Failed => ok := false;
      case InProgress =>
        cyclic, ok := true, false;
      case Pending =>
        if !modules[i].stage.Loaded? {
          marks, finished, ok := marks[i := Mark.Failed], finished + [i], false;
        } else {
          StartedOne(Marked(), i);
          marks := marks[i := InProgress];
          ok := AnalyzeLinks(modules[i].links);
          marks := marks[i := if ok then Done else Mark.Failed];
          finished := finished + [i];
        }
    }

    method AnalyzeLinks(links: seq<Option<nat>>) returns (ok: bool)
      requires WellLinked(modules) && |marks| == |modules| && InRange(modules, links)
      modifies this`marks, this`finished, this`cyclic
      ensures (Marked(), ok) == AnalyzeImports(modules, old(Marked()), links)
      decreases Waiting(Marked()), |links| + 1
    {
      hide AnalyzeModule;
      ok := true;
      var i := 0;
      while i < |links|
        invariant 0 <= i <= |links| && KeepsMarks(old(Marked()), Marked())
        invariant var rest := AnalyzeImports(modules, Marked(), links[i..]);
                  AnalyzeImports(modules, old(Marked()), links) == (rest.0, ok && rest.1)
      {
        KeepsWaiting(old(Marked()), Marked());
        assert links[i..][0] == links[i] && links[i..][1..] == links[i + 1..];
        if links[i].None? {
          ok := false;
        } else {
          var done := AnalyzeOne(links[i].value);
          ok := ok && done;
        }
        i := i + 1;
      }
      assert links[i..] == [];
    }

    /** Loading and then, unless an error was reported, analysing what the program imports. */
    method Run(paths: seq<string>) returns (accepted: bool)
      requires Now() == NOTHING
      modifies this
      ensures accepted <==> Accepts(files, dirs, paths)
      ensures modules == Load(files, dirs, paths).0.list
    {
      hide ResolveAll, AnalyzeImports, Linked;
      var links := ResolveImports(paths);
      if errors {
        return false;
      }
      LoadedWell(files, dirs, paths);
      marks, finished, cyclic := seq(|modules|, _ => Pending), [], false;
      accepted := AnalyzeLinks(links);
    }
  }

  lemma FirstIndex(list: seq<Module>, filename: string, i: nat)
    requires i < |list| && list[i].filename == filename && forall k :: 0 <= k < i ==> list[k].filename != filename
    ensures IndexOf(list, filename) == Some(i)
  {
    if i > 0 {
      assert forall k :: 0 <= k < i - 1 ==> list[1..][k] == list[k + 1];
      FirstIndex(list[1..], filename, i - 1);
    }
  }

  lemma ResolveAllShape(files: Files, dirs: seq<string>, lib: Library, paths: seq<string>)
    requires |paths| > 0
    ensures var first := Resolve(files, dirs, lib, paths[0]); var rest := ResolveAll(files, dirs, first.0, paths[1..]);
            ResolveAll(files, dirs, lib, paths) == (rest.0, [first.1] + rest.1)
  {
    hide Resolve;
  }

  lemma Appended(a: seq<Option<nat>>, x: Option<nat>, b: seq<Option<nat>>)
    ensures a + ([x] + b) == (a + [x]) + b
  {}

  lemma Extended(a: seq<Module>, b: seq<Module>, c: seq<Module>)
    requires Extends(a, b) && Extends(b, c)
    ensures Extends(a, c)
  {
    assert c[..|a|] == c[..|b|][..|a|];
  }

  // ---------------------------------------------------------------- what is accepted

  predicate Accepts(files: Files, dirs: seq<string>, paths: seq<string>) {
    var r := Load(files, dirs, paths);
    !r.0.errors && WellLinked(r.0.list) && InRange(r.0.list, r.1) && Analyze(r.0.list, r.1).1
  }

  /** After a load without errors the graph of the modules is complete. */
  lemma LoadedWell(files: Files, dirs: seq<string>, paths: seq<string>)
    requires !Load(files, dirs, paths).0.errors
    ensures var r := Load(files, dirs, paths);
            WellLinked(r.0.list) && InRange(r.0.list, r.1) && None !in r.1 && forall i: nat :: !Broken(r.0.list, i)
  {
    hide Find, ResolveAll, Reaches, Trouble;
    LoadsExactly(files, dirs, paths);
    var r := Load(files, dirs, paths);
    var g := r.0.list;
    InRangeOf(files, dirs, g, r.1, paths);
    forall i: nat | i < |g| ensures InRange(g, g[i].links) && !Broken(g, i) {
      InRangeOf(files, dirs, g, g[i].links, files[g[i].filename].imports);
    }
  }

  lemma InRangeOf(files: Files, dirs: seq<string>, g: seq<Module>, links: seq<Option<nat>>, paths: seq<string>)
    requires Linked(files, dirs, g, links, paths)
    ensures InRange(g, links)
  {
    hide Find;
    forall k | 0 <= k < |links| && links[k].Some? ensures links[k].value < |g| {
      assert LinkOf(files, dirs, g, links[k], paths[k]);
    }
  }

  /** The chain ends at a file it has passed. */
  ghost predicate Returns(files: Files, dirs: seq<string>, q: seq<string>) {
    exists k :: 0 <= k < |q| - 1 && Find(files, dirs, q[k]) == EndOf(files, dirs, q)
  }

  /** The files of a chain, as modules of the list. */
  ghost predicate Same(files: Files, dirs: seq<string>, g: seq<Module>, q: seq<string>, p: seq<nat>) {
    |p| == |q| && forall k :: 0 <= k < |q| ==> p[k] < |g| && Find(files, dirs, q[k]) == Some(g[p[k]].filename)
  }

  /** Where import `k` of a linked list of paths leads. */
  lemma LinkHere(files: Files, dirs: seq<string>, g: seq<Module>, links: seq<Option<nat>>, paths: seq<string>, k: nat)
    requires Linked(files, dirs, g, links, paths) && AllFound(links) && k < |paths|
    ensures k < |links| && links[k].Some? && links[k].value < |g| &&
            Find(files, dirs, paths[k]) == Some(g[links[k].value].filename)
  {
    hide Find;
    assert LinkOf(files, dirs, g, links[k], paths[k]);
  }

  lemma SameMore(files: Files, dirs: seq<string>, g: seq<Module>, q: seq<string>, p: seq<nat>, b: string, j: nat)
    requires Same(files, dirs, g, q, p) && j < |g| && Find(files, dirs, b) == Some(g[j].filename)
    ensures Same(files, dirs, g, q + [b], p + [j])
  {
    hide Find;
  }

  lemma PathMore(g: seq<Module>, links: seq<Option<nat>>, p: seq<nat>, j: nat)
    requires PathFrom(g, links, p) && Imports(g, Last(p), j) && j < |g|
    ensures PathFrom(g, links, p + [j])
  {
    var q := p + [j];
    forall k | 0 <= k < |q| - 1 ensures Imports(g, q[k], q[k + 1]) {
      if k < |p| - 1 {
        assert q[k] == p[k] && q[k + 1] == p[k + 1];
      }
    }
  }

  lemma PathLess(g: seq<Module>, links: seq<Option<nat>>, p: seq<nat>)
    requires PathFrom(g, links, p) && |p| > 1
    ensures var b := p[..|p| - 1];
            PathFrom(g, links, b) && Imports(g, Last(b), Last(p)) && Last(b) < |g| && Last(p) < |g| &&
            p == b + [Last(p)]
  {
    var b := p[..|p| - 1];
    assert forall k :: 0 <= k < |b| ==> b[k] == p[k];
    forall k | 0 <= k < |b| - 1 ensures Imports(g, b[k], b[k + 1]) {
      assert Imports(g, p[k], p[k + 1]);
    }
    assert Imports(g, p[|p| - 2], p[|p| - 2 + 1]);
  }

  lemma ChainMore(files: Files, dirs: seq<string>, q: seq<string>, b: string)
    requires Chain(files, dirs, q) && Follows(files, dirs, q[|q| - 1], b)
    ensures Chain(files, dirs, q + [b])
  {
    hide Find;
    var r := q + [b];
    forall k | 0 <= k < |r| - 1 ensures Follows(files, dirs, r[k], r[k + 1]) {
      if k < |q| - 1 {
        assert r[k] == q[k] && r[k + 1] == q[k + 1];
      }
    }
  }

  /** Every chain of imports is a path through the modules. */
  lemma {:induction false} PathOfChain(files: Files, dirs: seq<string>, paths: seq<string>, q: seq<string>)
    returns (p: seq<nat>)
    requires !Load(files, dirs, paths).0.errors && Chain(files, dirs, q) && q[0] in paths
    ensures var r := Load(files, dirs, paths); PathFrom(r.0.list, r.1, p) && Same(files, dirs, r.0.list, q, p)
    decreases |q|
  {
    hide Find, ResolveAll, Reaches, Trouble, Linked;
    LoadsExactly(files, dirs, paths);
    var r := Load(files, dirs, paths);
    var g := r.0.list;
    if |q| == 1 {
      var k :| 0 <= k < |paths| && paths[k] == q[0];
      LinkHere(files, dirs, g, r.1, paths, k);
      p := [r.1[k].value];
    } else {
      var b, last := q[..|q| - 1], q[|q| - 1];
      ChainInit(files, dirs, q);
      var before := PathOfChain(files, dirs, paths, b);
      var m := g[Last(before)];
      assert Find(files, dirs, b[|b| - 1]) == Some(m.filename);
      var k :| 0 <= k < |files[m.filename].imports| && files[m.filename].imports[k] == last;
      LinkHere(files, dirs, g, m.links, files[m.filename].imports, k);
      p := before + [m.links[k].value];
      PathMore(g, r.1, before, m.links[k].value);
      SameMore(files, dirs, g, b, before, last, m.links[k].value);
      assert q == b + [last];
    }
  }

  /** And every path through the modules is a chain of imports. */
  lemma {:induction false} ChainOfPath(files: Files, dirs: seq<string>, paths: seq<string>, p: seq<nat>)
    returns (q: seq<string>)
    requires var r := Load(files, dirs, paths); !r.0.errors && PathFrom(r.0.list, r.1, p)
    ensures Chain(files, dirs, q) && q[0] in paths && Same(files, dirs, Load(files, dirs, paths).0.list, q, p)
    decreases |p|
  {
    hide Find, ResolveAll, Reaches, Trouble;
    LoadsExactly(files, dirs, paths);
    var r := Load(files, dirs, paths);
    var g := r.0.list;
    if |p| == 1 {
      var k :| 0 <= k < |r.1| && r.1[k] == Some(p[0]);
      LinkHere(files, dirs, g, r.1, paths, k);
      q := [paths[k]];
    } else {
      var b, last := p[..|p| - 1], Last(p);
      PathLess(g, r.1, p);
      var before := ChainOfPath(files, dirs, paths, b);
      var m := g[Last(b)];
      assert Find(files, dirs, before[|before| - 1]) == Some(m.filename);
      var k :| 0 <= k < |m.links| && m.links[k] == Some(last);
      LinkHere(files, dirs, g, m.links, files[m.filename].imports, k);
      q := before + [files[m.filename].imports[k]];
      ChainMore(files, dirs, before, files[m.filename].imports[k]);
      SameMore(files, dirs, g, before, b, files[m.filename].imports[k], last);
    }
  }

  lemma BackTogether(files: Files, dirs: seq<string>, g: seq<Module>, q: seq<string>, p: seq<nat>)
    requires Same(files, dirs, g, q, p) && |p| > 0 && Distinct(g)
    ensures Returns(files, dirs, q) <==> ComesBack(p)
  {
    hide Find;
    if Returns(files, dirs, q) {
      var k :| 0 <= k < |q| - 1 && Find(files, dirs, q[k]) == EndOf(files, dirs, q);
      assert p[k] == Last(p);
      assert p[..|p| - 1][k] == p[k];
    }
    if ComesBack(p) {
      var k :| 0 <= k < |p| - 1 && p[..|p| - 1][k] == Last(p);
      assert Find(files, dirs, q[k]) == EndOf(files, dirs, q);
    }
  }

  /** The imports of a program are accepted exactly if no chain of imports from it ends at a file that
    * is missing, that has errors, or that the chain has already passed. */
  lemma AcceptedExactly(files: Files, dirs: seq<string>, paths: seq<string>)
    ensures Accepts(files, dirs, paths) <==>
            forall q :: Chain(files, dirs, q) && q[0] in paths ==>
              !EndsBadly(files, dirs, q) && !Returns(files, dirs, q)
  {
    hide Find, ResolveAll, Reaches, Linked, Same, IsPath, Returns, ComesBack, EndsBadly, Broken;
    LoadsExactly(files, dirs, paths);
    var r := Load(files, dirs, paths);
    if !r.0.errors {
      LoadedWell(files, dirs, paths);
      AnalyzesExactly(r.0.list, r.1);
      forall q | |q| > 0 && Chain(files, dirs, q) && q[0] in paths
        ensures exists p :: PathFrom(r.0.list, r.1, p) && (Returns(files, dirs, q) <==> ComesBack(p))
      {
        var p := PathOfChain(files, dirs, paths, q);
        SomePath(r.0.list, r.1, p);
        BackTogether(files, dirs, r.0.list, q, p);
      }
      forall p | PathFrom(r.0.list, r.1, p)
        ensures exists q :: |q| > 0 && Chain(files, dirs, q) && q[0] in paths &&
                  (Returns(files, dirs, q) <==> ComesBack(p))
      {
        var q := ChainOfPath(files, dirs, paths, p);
        SomePath(r.0.list, r.1, p);
        BackTogether(files, dirs, r.0.list, q, p);
      }
    }
  }

  lemma SomePath(g: seq<Module>, links: seq<Option<nat>>, p: seq<nat>)
    requires PathFrom(g, links, p)
    ensures |p| > 0
  {}
}
