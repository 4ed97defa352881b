/** Loading the files a program imports: a depth-first walk that lists a file before it reads the
  * file's own imports. */
module Modules {
  import opened Arith

  /** What a file holds: whether it goes through preprocessor, lexer and parser without an error, and
    * the paths it imports. */
  datatype File = File(clean: bool, imports: seq<string>)

  type Files = map<string, File>

  /** Link `q` of a module is where its import `q` was found, if it was. */
  datatype Stage = Loading | Loaded | Failed
  datatype Module = Module(filename: string, name: string, stage: Stage, links: seq<Option<nat>>)

  /** The module list, and whether an error has been reported. */
  datatype Library = Library(list: seq<Module>, errors: bool)

  // ---------------------------------------------------------------- finding files

  function JoinPath(dir: string, name: string): string {
    if |dir| > 0 && dir[|dir| - 1] != '/' then dir + "/" + name else dir + name
  }

  function FindIn(files: Files, dirs: seq<string>, name: string): (r: Option<string>)
    ensures r.Some? ==> r.value in files
  {
    if |dirs| == 0 then None
    else if JoinPath(dirs[0], name) in files then Some(JoinPath(dirs[0], name))
    else FindIn(files, dirs[1..], name)
  }

  /** The path itself first, then the search directories in order. */
  function Find(files: Files, dirs: seq<string>, name: string): (r: Option<string>)
    ensures r.Some? ==> r.value in files
  {
    if name in files then Some(name) else FindIn(files, dirs, name)
  }

  function IndexOf(list: seq<Module>, filename: string): (r: Option<nat>)
    ensures r.Some? ==> r.value < |list| && list[r.value].filename == filename
    ensures r.None? ==> forall k :: 0 <= k < |list| ==> list[k].filename != filename
  {
    if |list| == 0 then None
    else if list[0].filename == filename then Some(0)
    else
      match IndexOf(list[1..], filename)
      case None => None
      case Some(k) => Some(k + 1)
  }

  // ---------------------------------------------------------------- the walk

  function Names(list: seq<Module>): set<string> {
    set k | 0 <= k < |list| :: list[k].filename
  }

  function Unlisted(files: Files, list: seq<Module>): set<string> {
    files.Keys - Names(list)
  }

  predicate Extends(a: seq<Module>, b: seq<Module>) {
    |a| <= |b| && b[..|a|] == a
  }

  lemma ExtendsUnlisted(files: Files, a: seq<Module>, b: seq<Module>)
    requires Extends(a, b)
    ensures Unlisted(files, b) <= Unlisted(files, a)
  {
    forall k | 0 <= k < |a| ensures a[k].filename in Names(b) {
      assert b[k] == b[..|a|][k];
    }
  }

  lemma ListedOne(files: Files, list: seq<Module>, m: Module)
    requires m.filename in files && m.filename !in Names(list)
    ensures Unlisted(files, list + [m]) < Unlisted(files, list)
  {
    var more := list + [m];
    assert more[..|list|] == list;
    ExtendsUnlisted(files, list, more);
    assert more[|list|].filename in Names(more);
  }

  /** One import: where its module is in the list, after loading it if it was not there. */
  function Resolve(files: Files, dirs: seq<string>, lib: Library, path: string): (r: (Library, Option<nat>))
    ensures Extends(lib.list, r.0.list)
    decreases Unlisted(files, lib.list), 0
  {
    match Find(files, dirs, path)
    case None => (lib.(errors := true), None)
    case Some(f) =>
      match IndexOf(lib.list, f)
      case Some(k) => (lib, Some(k))
      case None =>
        var k := |lib.list|;
        var listed := lib.(list := lib.list + [Module(f, path, Loading, [])]);
        if lib.errors || !files[f].clean then
          (Library(lib.list + [Module(f, path, Failed, [])], true), Some(k))
        else
          ListedOne(files, lib.list, Module(f, path, Loading, []));
          var all := ResolveAll(files, dirs, listed, files[f].imports);
          (all.0.(list := all.0.list[k := Module(f, path, Loaded, all.1)]), Some(k))
  }

  function ResolveAll(files: Files, dirs: seq<string>, lib: Library,
      paths: seq<string>): (r: (Library, seq<Option<nat>>))
    ensures Extends(lib.list, r.0.list) && |r.1| == |paths|
    decreases Unlisted(files, lib.list), |paths| + 1
  {
    if |paths| == 0 then (lib, [])
    else
      var first := Resolve(files, dirs, lib, paths[0]);
      ExtendsUnlisted(files, lib.list, first.0.list);
      var rest := ResolveAll(files, dirs, first.0, paths[1..]);
      (rest.0, [first.1] + rest.1)
  }

  // ---------------------------------------------------------------- what is reachable

  /** A chain of imports: each path is imported by the file the one before it names. */
  ghost predicate Chain(files: Files, dirs: seq<string>, q: seq<string>) {
    |q| > 0 && forall k :: 0 <= k < |q| - 1 ==> Follows(files, dirs, q[k], q[k + 1])
  }

  ghost predicate Follows(files: Files, dirs: seq<string>, a: string, b: string) {
    var f := Find(files, dirs, a);
    f.Some? && files[f.value].clean && b in files[f.value].imports
  }

  function EndOf(files: Files, dirs: seq<string>, q: seq<string>): (f: Option<string>)
    requires |q| > 0
    ensures f.Some? ==> f.value in files
  {
    Find(files, dirs, q[|q| - 1])
  }

  ghost predicate Reaches(files: Files, dirs: seq<string>, paths: seq<string>, f: string) {
    exists q :: Chain(files, dirs, q) && q[0] in paths && EndOf(files, dirs, q) == Some(f)
  }

  /** The end of a chain is missing or has errors. */
  ghost predicate EndsBadly(files: Files, dirs: seq<string>, q: seq<string>)
    requires |q| > 0
  {
    var f := EndOf(files, dirs, q);
    f.None? || !files[f.value].clean
  }

  ghost predicate Trouble(files: Files, dirs: seq<string>, paths: seq<string>) {
    exists q :: Chain(files, dirs, q) && q[0] in paths && EndsBadly(files, dirs, q)
  }

  lemma ChainFrom(files: Files, dirs: seq<string>, a: string, q: seq<string>)
    requires Chain(files, dirs, q) && Follows(files, dirs, a, q[0])
    ensures Chain(files, dirs, [a] + q) && EndOf(files, dirs, [a] + q) == EndOf(files, dirs, q)
    ensures EndsBadly(files, dirs, [a] + q) <==> EndsBadly(files, dirs, q)
  {
    var r := [a] + q;
    forall k | 0 <= k < |r| - 1 ensures Follows(files, dirs, r[k], r[k + 1]) {
      if k > 0 {
        assert r[k] == q[k - 1] && r[k + 1] == q[k];
      }
    }
  }

  /** What the imports of a file reach, the import of that file reaches. */
  lemma ReachThrough(files: Files, dirs: seq<string>, path: string, f: string)
    requires Find(files, dirs, path) == Some(f) && files[f].clean
    ensures forall g :: Reaches(files, dirs, files[f].imports, g) ==> Reaches(files, dirs, [path], g)
    ensures Trouble(files, dirs, files[f].imports) ==> Trouble(files, dirs, [path])
  {
    hide Find, EndOf;
    forall g | Reaches(files, dirs, files[f].imports, g) ensures Reaches(files, dirs, [path], g) {
      var q :| Chain(files, dirs, q) && q[0] in files[f].imports && EndOf(files, dirs, q) == Some(g);
      ChainFrom(files, dirs, path, q);
      assert ([path] + q)[0] in [path];
    }
    if Trouble(files, dirs, files[f].imports) {
      var q :| Chain(files, dirs, q) && q[0] in files[f].imports && EndsBadly(files, dirs, q);
      ChainFrom(files, dirs, path, q);
      assert ([path] + q)[0] in [path];
    }
  }

  lemma ReachOne(files: Files, dirs: seq<string>, path: string)
    ensures Find(files, dirs, path).Some? ==> Reaches(files, dirs, [path], Find(files, dirs, path).value)
    ensures Find(files, dirs, path).None? ==> Trouble(files, dirs, [path])
    ensures Find(files, dirs, path).Some? && !files[Find(files, dirs, path).value].clean ==>
            Trouble(files, dirs, [path])
  {
    hide Find;
    assert Chain(files, dirs, [path]) && [path][0] in [path];
  }

  lemma ReachMore(files: Files, dirs: seq<string>, few: seq<string>, many: seq<string>)
    requires forall p :: p in few ==> p in many
    ensures forall g :: Reaches(files, dirs, few, g) ==> Reaches(files, dirs, many, g)
    ensures Trouble(files, dirs, few) ==> Trouble(files, dirs, many)
  {}

  // ---------------------------------------------------------------- what the walk leaves behind

  ghost predicate LinkOf(files: Files, dirs: seq<string>, list: seq<Module>, link: Option<nat>, path: string) {
    match link
    case None => Find(files, dirs, path).None?
    case Some(j) => j < |list| && Find(files, dirs, path) == Some(list[j].filename)
  }

  ghost predicate Linked(files: Files, dirs: seq<string>, list: seq<Module>, links: seq<Option<nat>>,
      paths: seq<string>) {
    |links| == |paths| && forall k :: 0 <= k < |paths| ==> LinkOf(files, dirs, list, links[k], paths[k])
  }

  predicate AllFound(links: seq<Option<nat>>) {
    forall k :: 0 <= k < |links| ==> links[k].Some?
  }

  /** A module whose loading is over. */
  ghost predicate Settled(files: Files, dirs: seq<string>, paths: seq<string>, lib: Library, m: Module) {
    m.filename in files && Reaches(files, dirs, paths, m.filename) && !m.stage.Loading? &&
    (m.stage.Failed? ==> lib.errors && m.links == []) &&
    (m.stage.Loaded? ==> files[m.filename].clean && Linked(files, dirs, lib.list, m.links,
                                                           files[m.filename].imports)) &&
    (!lib.errors ==> AllFound(m.links))
  }

  ghost predicate Distinct(list: seq<Module>) {
    forall j, k :: 0 <= j < k < |list| ==> list[j].filename != list[k].filename
  }

  ghost predicate Grown(files: Files, dirs: seq<string>, paths: seq<string>, a: Library, b: Library) {
    Extends(a.list, b.list) && Distinct(b.list) && (a.errors ==> b.errors) &&
    (forall k :: |a.list| <= k < |b.list| ==> Settled(files, dirs, paths, b, b.list[k])) &&
    (b.errors && !a.errors ==> Trouble(files, dirs, paths))
  }

  lemma LinkedLater(files: Files, dirs: seq<string>, a: seq<Module>, b: seq<Module>, links: seq<Option<nat>>,
      paths: seq<string>)
    requires Linked(files, dirs, a, links, paths) && |a| <= |b|
    requires forall k :: 0 <= k < |a| ==> a[k].filename == b[k].filename
    ensures Linked(files, dirs, b, links, paths)
  {
    hide Find;
    forall k | 0 <= k < |paths| ensures LinkOf(files, dirs, b, links[k], paths[k]) {
      assert LinkOf(files, dirs, a, links[k], paths[k]);
    }
  }

  /** Later loading does not disturb a settled module. */
  lemma SettledLater(
    files: Files, dirs: seq<string>, few: seq<string>, many: seq<string>, a: Library, b: Library, m: Module)
    requires Settled(files, dirs, few, a, m) && (a.errors ==> b.errors) && |a.list| <= |b.list|
    requires forall k :: 0 <= k < |a.list| ==> a.list[k].filename == b.list[k].filename
    requires forall g :: Reaches(files, dirs, few, g) ==> Reaches(files, dirs, many, g)
    ensures Settled(files, dirs, many, b, m)
  {
    hide Reaches, Linked;
    if m.stage.Loaded? {
      LinkedLater(files, dirs, a.list, b.list, m.links, files[m.filename].imports);
    }
  }

  /** A module is entered in the list as soon as it is loaded. */
  lemma Entered(files: Files, dirs: seq<string>, lib: Library, all: Library, m: Module, path: string)
    requires Find(files, dirs, path) == Some(m.filename) && files[m.filename].clean && m.stage.Loaded? && !lib.errors
    requires |lib.list| < |all.list| && Extends(lib.list + [m.(stage := Loading, links := [])], all.list)
    requires Grown(files, dirs, files[m.filename].imports, lib.(list := lib.list + [m.(stage := Loading, links := [])]),
                   all)
    requires Linked(files, dirs, all.list, m.links, files[m.filename].imports) && (!all.errors ==> AllFound(m.links))
    ensures Grown(files, dirs, [path], lib, all.(list := all.list[|lib.list| := m]))
  {
    hide Reaches, Trouble, Find, Linked, Settled, AllFound;
    var b := all.(list := all.list[|lib.list| := m]);
    var before := lib.list + [m.(stage := Loading, links := [])];
    ReachThrough(files, dirs, path, m.filename);
    assert forall k :: 0 <= k < |all.list| ==> all.list[k].filename == b.list[k].filename by {
      assert all.list[|lib.list|] == before[|lib.list|];
    }
    forall k | |lib.list| <= k < |b.list| ensures Settled(files, dirs, [path], b, b.list[k]) {
      if k == |lib.list| {
        EnteredSettled(files, dirs, all, b, m, path);
      } else {
        SettledLater(files, dirs, files[m.filename].imports, [path], all, b, b.list[k]);
      }
    }
    assert b.list[..|lib.list|] == before[..|lib.list|] == lib.list;
  }

  lemma EnteredSettled(files: Files, dirs: seq<string>, all: Library, b: Library, m: Module, path: string)
    requires Find(files, dirs, path) == Some(m.filename) && files[m.filename].clean && m.stage.Loaded?
    requires |all.list| <= |b.list| && all.errors == b.errors
    requires forall k :: 0 <= k < |all.list| ==> all.list[k].filename == b.list[k].filename
    requires Linked(files, dirs, all.list, m.links, files[m.filename].imports) && (!all.errors ==> AllFound(m.links))
    ensures Settled(files, dirs, [path], b, m)
  {
    hide Reaches, Find, Linked;
    ReachOne(files, dirs, path);
    LinkedLater(files, dirs, all.list, b.list, m.links, files[m.filename].imports);
  }

  lemma {:induction false} ResolveGrows(files: Files, dirs: seq<string>, lib: Library, path: string)
    requires Distinct(lib.list)
    ensures var r := Resolve(files, dirs, lib, path);
            Grown(files, dirs, [path], lib, r.0) && LinkOf(files, dirs, r.0.list, r.1, path) &&
              (!r.0.errors ==> r.1.Some?)
    decreases Unlisted(files, lib.list), 0
  {
    hide Find, Reaches, Trouble, Linked;
    ReachOne(files, dirs, path);
    var found := Find(files, dirs, path);
    if found.Some? && IndexOf(lib.list, found.value).None? {
      var f, k := found.value, |lib.list|;
      if lib.errors || !files[f].clean {
        assert Resolve(files, dirs, lib, path).0.list[..k] == lib.list;
      } else {
        var m := Module(f, path, Loading, []);
        ListedOne(files, lib.list, m);
        ResolveAllGrows(files, dirs, lib.(list := lib.list + [m]), files[f].imports);
        var all := ResolveAll(files, dirs, lib.(list := lib.list + [m]), files[f].imports);
        Entered(files, dirs, lib, all.0, Module(f, path, Loaded, all.1), path);
      }
    }
  }

  lemma {:induction false} ResolveAllGrows(files: Files, dirs: seq<string>, lib: Library, paths: seq<string>)
    requires Distinct(lib.list)
    ensures var r := ResolveAll(files, dirs, lib, paths);
            Grown(files, dirs, paths, lib, r.0) && Linked(files, dirs, r.0.list, r.1, paths) &&
              (!r.0.errors ==> AllFound(r.1))
    decreases Unlisted(files, lib.list), |paths| + 1
  {
    hide Find, Reaches, Trouble, Resolve, LinkOf, Settled;
    if |paths| > 0 {
      var first := Resolve(files, dirs, lib, paths[0]);
      ResolveGrows(files, dirs, lib, paths[0]);
      ExtendsUnlisted(files, lib.list, first.0.list);
      ResolveAllGrows(files, dirs, first.0, paths[1..]);
      var rest := ResolveAll(files, dirs, first.0, paths[1..]);
      GrownTwice(files, dirs, paths, lib, first.0, rest.0);
      LinkedLater(files, dirs, first.0.list, rest.0.list, [first.1], [paths[0]]);
    }
  }

  lemma GrownTwice(files: Files, dirs: seq<string>, paths: seq<string>, a: Library, b: Library, c: Library)
    requires |paths| > 0 && Grown(files, dirs, [paths[0]], a, b) && Grown(files, dirs, paths[1..], b, c)
    ensures Grown(files, dirs, paths, a, c)
    ensures forall k :: 0 <= k < |b.list| ==> b.list[k].filename == c.list[k].filename
  {
    hide Reaches, Trouble, Settled;
    ReachMore(files, dirs, [paths[0]], paths);
    ReachMore(files, dirs, paths[1..], paths);
    assert forall k :: 0 <= k < |b.list| ==> b.list[k] == c.list[k] by {
      assert forall k :: 0 <= k < |b.list| ==> c.list[..|b.list|][k] == c.list[k];
    }
    forall k | |a.list| <= k < |c.list| ensures Settled(files, dirs, paths, c, c.list[k]) {
      if k < |b.list| {
        SettledLater(files, dirs, [paths[0]], paths, b, c, c.list[k]);
      } else {
        SettledLater(files, dirs, paths[1..], paths, c, c, c.list[k]);
      }
    }
    assert c.list[..|a.list|] == b.list[..|a.list|];
  }

  // ---------------------------------------------------------------- the whole load

  const NOTHING := Library([], false)

  function Load(files: Files, dirs: seq<string>, paths: seq<string>): (Library, seq<Option<nat>>) {
    ResolveAll(files, dirs, NOTHING, paths)
  }

  /** Without an error every chain of imports ends at a listed file. */
  lemma {:induction false} ChainListed(files: Files, dirs: seq<string>, paths: seq<string>, q: seq<string>)
    requires Chain(files, dirs, q) && q[0] in paths && !Load(files, dirs, paths).0.errors
    ensures !EndsBadly(files, dirs, q) && EndOf(files, dirs, q).value in Names(Load(files, dirs, paths).0.list)
    decreases |q|
  {
    hide Find, Reaches, Trouble, ResolveAll;
    ResolveAllGrows(files, dirs, NOTHING, paths);
    var r := Load(files, dirs, paths);
    var last := q[|q| - 1];
    if |q| == 1 {
      var i :| 0 <= i < |paths| && paths[i] == last;
      ListedImport(files, dirs, paths, r.0, r.1, paths, i);
    } else {
      var before := q[..|q| - 1];
      ChainInit(files, dirs, q);
      ChainListed(files, dirs, paths, before);
      var f := EndOf(files, dirs, before).value;
      var k :| 0 <= k < |r.0.list| && r.0.list[k].filename == f;
      assert Settled(files, dirs, paths, r.0, r.0.list[k]);
      var i :| 0 <= i < |files[f].imports| && files[f].imports[i] == last;
      ListedImport(files, dirs, paths, r.0, r.0.list[k].links, files[f].imports, i);
    }
  }

  lemma ChainInit(files: Files, dirs: seq<string>, q: seq<string>)
    requires Chain(files, dirs, q) && |q| > 1
    ensures Chain(files, dirs, q[..|q| - 1]) && q[..|q| - 1][0] == q[0]
    ensures Follows(files, dirs, q[|q| - 2], q[|q| - 1]) &&
            EndOf(files, dirs, q[..|q| - 1]) == Find(files, dirs, q[|q| - 2])
  {
    hide Find;
    var b := q[..|q| - 1];
    assert forall k :: 0 <= k < |b| ==> b[k] == q[k];
    assert Follows(files, dirs, q[|q| - 2], q[|q| - 2 + 1]);
  }

  lemma ListedImport(
    files: Files, dirs: seq<string>, roots: seq<string>, lib: Library, links: seq<Option<nat>>, paths: seq<string>,
    i: nat)
    requires i < |paths| && Linked(files, dirs, lib.list, links, paths) && AllFound(links) && !lib.errors
    requires forall k :: 0 <= k < |lib.list| ==> Settled(files, dirs, roots, lib, lib.list[k])
    ensures var f := Find(files, dirs, paths[i]); f.Some? && files[f.value].clean && f.value in Names(lib.list)
  {
    hide Find, Reaches;
    assert LinkOf(files, dirs, lib.list, links[i], paths[i]);
    var j := links[i].value;
    assert Settled(files, dirs, roots, lib, lib.list[j]);
  }

  /** Loading reports an error exactly if some chain of imports ends at a file that is missing or has
    * errors. If it reports none, the list holds every file that is reachable, each one once, with all
    * its imports resolved to the modules they name; and nothing unreachable is ever listed. */
  lemma LoadsExactly(files: Files, dirs: seq<string>, paths: seq<string>)
    ensures var r := Load(files, dirs, paths);
            (r.0.errors <==> Trouble(files, dirs, paths)) && Distinct(r.0.list) &&
              Linked(files, dirs, r.0.list, r.1, paths) &&
            (forall f :: f in Names(r.0.list) ==> Reaches(files, dirs, paths, f)) &&
            (!r.0.errors ==>
              (forall f :: Reaches(files, dirs, paths, f) ==> f in Names(r.0.list)) && AllFound(r.1) &&
              forall k :: 0 <= k < |r.0.list| ==>
                var m := r.0.list[k];
                m.filename in files && files[m.filename].clean && m.stage.Loaded? && AllFound(m.links) &&
                Linked(files, dirs, r.0.list, m.links, files[m.filename].imports))
  {
    hide Find, ResolveAll, Linked, AllFound, EndsBadly, EndOf, Follows;
    ResolveAllGrows(files, dirs, NOTHING, paths);
    var r := Load(files, dirs, paths);
    if !r.0.errors {
      forall q | |q| > 0 && Chain(files, dirs, q) && q[0] in paths
        ensures !EndsBadly(files, dirs, q) && EndOf(files, dirs, q).Some? &&
                EndOf(files, dirs, q).value in Names(r.0.list)
      {
        ChainListed(files, dirs, paths, q);
        EndKnown(files, dirs, q);
      }
    }
  }

  lemma EndKnown(files: Files, dirs: seq<string>, q: seq<string>)
    requires |q| > 0 && !EndsBadly(files, dirs, q)
    ensures EndOf(files, dirs, q).Some?
  {}
}
