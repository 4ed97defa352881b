/** Where an import is found: at its own path, or at that path inside the first search directory that has it. */
module FoundFiles {
  import opened Arith
  import opened Mangling
  import opened Modules

  // ---------------------------------------------------------------- joined paths

  lemma {:induction false} SplitSlash(d: string, start: nat, i: nat)
    requires start <= i <= |d|
    ensures SplitFrom(d + "/", start, i) == SplitFrom(d, start, i)
    decreases |d| - i
  {
    var s := d + "/";
    if i < |d| {
      assert s[i] == d[i];
      if d[i] != '/' {
        SplitSlash(d, start, i + 1);
      } else {
        assert s[start..i] == d[start..i];
        SplitSlash(d, i + 1, i + 1);
      }
    } else {
      assert s[i] == '/' && s[start..i] == d[start..i];
      assert SplitFrom(s, i + 1, i + 1) == [] && SplitFrom(d, i + 1, i + 1) == [];
    }
  }

  lemma {:induction false} SplitBehind(d: string, n: string, start: nat, i: nat)
    requires |d| > 0 && d[|d| - 1] == '/' && start <= i <= |d|
    requires i == |d| ==> start == i
    ensures SplitFrom(d + n, start, i) == SplitFrom(d, start, i) + Split(n)
    decreases |d| - i
  {
    var s := d + n;
    if i == |d| {
      SplitTail(d, n, 0, 0);
      assert SplitFrom(d, i, i) == [] + SplitFrom(d, i + 1, i + 1);
    } else {
      assert s[i] == d[i];
      if d[i] != '/' {
        SplitBehind(d, n, start, i + 1);
      } else {
        assert s[start..i] == d[start..i];
        SplitBehind(d, n, i + 1, i + 1);
        var first := if i > start then [d[start..i]] else [];
        assert first + (SplitFrom(d, i + 1, i + 1) + Split(n)) == first + SplitFrom(d, i + 1, i + 1) + Split(n);
      }
    }
  }

  /** A joined path is the directory and then the name, with one slash between them unless the directory is empty
    * or ends in one; its parts are the parts of the directory and then those of the name. */
  lemma JoinedParts(dir: string, name: string)
    ensures var p := JoinPath(dir, name);
            |dir| + |name| <= |p| <= |dir| + |name| + 1 && p[..|dir|] == dir && p[|p| - |name|..] == name &&
            (|p| == |dir| + |name| + 1 <==> |dir| > 0 && dir[|dir| - 1] != '/') &&
            (|p| == |dir| + |name| + 1 ==> p[|dir|] == '/')
    ensures Split(JoinPath(dir, name)) == Split(dir) + Split(name)
  {
    hide SplitFrom;
    if |dir| == 0 {
      assert dir + name == name;
      NothingSplit();
    } else if dir[|dir| - 1] == '/' {
      SplitBehind(dir, name, 0, 0);
    } else {
      SplitSlash(dir, 0, 0);
      SplitBehind(dir + "/", name, 0, 0);
    }
  }

  lemma NothingSplit()
    ensures Split("") == []
  {
    assert SplitFrom("", 1, 1) == [];
  }

  // ---------------------------------------------------------------- the search

  /** Search directory `i` has the file, and none before it. */
  predicate FirstWith(files: Files, dirs: seq<string>, name: string, i: nat) {
    i < |dirs| && JoinPath(dirs[i], name) in files && forall j :: 0 <= j < i ==> JoinPath(dirs[j], name) !in files
  }

  lemma {:induction false} FoundInFirst(files: Files, dirs: seq<string>, name: string, i: nat)
    requires FirstWith(files, dirs, name, i)
    ensures FindIn(files, dirs, name) == Some(JoinPath(dirs[i], name))
    decreases |dirs|
  {
    hide JoinPath;
    if i > 0 {
      assert forall j :: 0 <= j < i - 1 ==> dirs[1..][j] == dirs[j + 1];
      FoundInFirst(files, dirs[1..], name, i - 1);
    }
  }

  lemma {:induction false} FoundInNone(files: Files, dirs: seq<string>, name: string)
    requires forall i :: 0 <= i < |dirs| ==> JoinPath(dirs[i], name) !in files
    ensures FindIn(files, dirs, name).None?
    decreases |dirs|
  {
    hide JoinPath;
    if |dirs| > 0 {
      assert forall i :: 0 <= i < |dirs[1..]| ==> dirs[1..][i] == dirs[i + 1];
      FoundInNone(files, dirs[1..], name);
    }
  }

  lemma {:induction false} SomeFirst(files: Files, dirs: seq<string>, name: string, k: nat) returns (i: nat)
    requires k < |dirs| && JoinPath(dirs[k], name) in files
    ensures FirstWith(files, dirs, name, i)
    decreases k
  {
    if j :| 0 <= j < k && JoinPath(dirs[j], name) in files {
      i := SomeFirst(files, dirs, name, j);
    } else {
      i := k;
    }
  }

  /** An import is found exactly at its own path, if that is a file, and otherwise in the first search directory
    * that has it; it is missing exactly if it is nowhere. */
  lemma FoundExactly(files: Files, dirs: seq<string>, name: string, path: string)
    ensures Find(files, dirs, name) == Some(path) <==>
              if name in files then path == name
              else exists i :: 0 <= i < |dirs| && FirstWith(files, dirs, name, i) && path == JoinPath(dirs[i], name)
    ensures Find(files, dirs, name).None? <==>
              name !in files && forall i :: 0 <= i < |dirs| ==> JoinPath(dirs[i], name) !in files
  {
    hide JoinPath, FindIn;
    if name !in files {
      if k :| 0 <= k < |dirs| && JoinPath(dirs[k], name) in files {
        var i := SomeFirst(files, dirs, name, k);
        FoundInFirst(files, dirs, name, i);
        forall m | 0 <= m < |dirs| && FirstWith(files, dirs, name, m)
          ensures FindIn(files, dirs, name) == Some(JoinPath(dirs[m], name))
        {
          FoundInFirst(files, dirs, name, m);
        }
      } else {
        FoundInNone(files, dirs, name);
      }
    }
  }
}
