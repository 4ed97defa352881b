/** Imports whose path does not fit the path buffer: the parser drops them without a report, and
  * recovery may take what follows with them. Exactly which, and exactly how much. */
module LongImports {
  import opened Values
  import opened Arith
  import opened Tokens
  import opened Parsing
  import opened RoundTrip

  // ---------------------------------------------------------------- an import as it is written

  /** `a.b.c;` */
  function PathTokens(names: seq<string>): (r: seq<Token>)
    requires |names| > 0
    ensures |r| == 2 * |names|
  {
    [Ident(names[0])] + AfterName(names)
  }

  /** What follows the first name. */
  function AfterName(names: seq<string>): (r: seq<Token>)
    requires |names| > 0
    ensures |r| == 2 * |names| - 1
    decreases |names|, 0
  {
    if |names| == 1 then [Semicolon] else [Dot, Ident(names[1])] + AfterName(names[1..])
  }

  /** The path of the file system without its extension. */
  function Joined(names: seq<string>): string
    requires |names| > 0
  {
    if |names| == 1 then names[0] else names[0] + "/" + Joined(names[1..])
  }

  function LastName(names: seq<string>): string
    requires |names| > 0
  {
    names[|names| - 1]
  }

  lemma {:induction false} LastIsPart(names: seq<string>)
    requires |names| > 0
    ensures |LastName(names)| <= |Joined(names)|
    ensures |names| > 1 ==> |names[0]| + 1 + |LastName(names)| <= |Joined(names)|
    decreases |names|
  {
    if |names| > 1 {
      LastIsPart(names[1..]);
    }
  }

  /** With the extension the path is no longer than the buffer, its terminator included. */
  predicate FitsBuffer(have: nat, names: seq<string>)
    requires |names| > 0
  {
    have + |Joined(names)| + |EXTENSION| < IMPORT_PATH_SIZE
  }

  /** All that is written before the last name fits. */
  predicate FitsBeforeLast(have: nat, names: seq<string>)
    requires |names| > 0
  {
    |names| == 1 || have + |Joined(names)| - |LastName(names)| < IMPORT_PATH_SIZE
  }

  /** Where parsing goes on after an import that was dropped and that ends at `end`. If the buffer overflows
    * before the last name, recovery stops at the semicolon of the import itself. If it overflows at the last
    * name, that semicolon is stepped over and recovery goes on; if at the semicolon, the token behind it is
    * stepped over as well. */
  function Resume(ts: seq<Token>, end: nat, have: nat, names: seq<string>): nat
    requires EndsInEof(ts) && end < |ts| && |names| > 0
  {
    if !FitsBeforeLast(have, names) then end
    else if have + |Joined(names)| >= IMPORT_PATH_SIZE then SkipTopLevel(ts, end, 0)
    else RecoverTopLevel(ts, end)
  }

  // ---------------------------------------------------------------- recovery over the rest of the path

  lemma {:induction false} SkipsAfterName(ts: seq<Token>, pos: nat, names: seq<string>)
    requires EndsInEof(ts) && |names| > 0 && TokensAt(ts, pos, AfterName(names))
    ensures SkipTopLevel(ts, pos, 0) == pos + |AfterName(names)|
    decreases |names|
  {
    var rest := AfterName(names);
    assert ts[pos + 0] == rest[0];
    if |names| > 1 {
      AtSplit(ts, pos, [Dot, Ident(names[1])], AfterName(names[1..]));
      assert ts[pos + 1] == rest[1];
      SkipsAfterName(ts, pos + 2, names[1..]);
    }
  }

  lemma HeadAt(ts: seq<Token>, pos: nat, first: Token, rest: seq<Token>)
    requires TokensAt(ts, pos, [first] + rest)
    ensures pos + 1 < |ts| && ts[pos] == first && TokensAt(ts, pos + 1, rest)
  {
    AtSplit(ts, pos, [first], rest);
    assert ts[pos + 0] == ([first] + rest)[0];
  }

  lemma PathParts(ts: seq<Token>, pos: nat, names: seq<string>)
    requires |names| > 0 && TokensAt(ts, pos, PathTokens(names))
    ensures pos + 1 < |ts| && ts[pos] == Ident(names[0]) && TokensAt(ts, pos + 1, AfterName(names))
    ensures ts[pos + 1] == if |names| == 1 then Semicolon else Dot
    ensures |names| > 1 ==>
              pos + 2 < |ts| && ts[pos + 2] == Ident(names[1]) &&
              TokensAt(ts, pos + 2, PathTokens(names[1..])) && TokensAt(ts, pos + 3, AfterName(names[1..]))
  {
    hide TokensAt, AfterName, PathTokens;
    NameAt(ts, pos, names);
    BehindName(ts, pos + 1, names);
    if |names| > 1 {
      NameAt(ts, pos + 2, names[1..]);
    }
  }

  lemma NameAt(ts: seq<Token>, pos: nat, names: seq<string>)
    requires |names| > 0 && TokensAt(ts, pos, PathTokens(names))
    ensures pos + 1 < |ts| && ts[pos] == Ident(names[0]) && TokensAt(ts, pos + 1, AfterName(names))
  {
    hide TokensAt, AfterName;
    HeadAt(ts, pos, Ident(names[0]), AfterName(names));
  }

  lemma BehindName(ts: seq<Token>, pos: nat, names: seq<string>)
    requires |names| > 0 && TokensAt(ts, pos, AfterName(names))
    ensures pos < |ts| && ts[pos] == if |names| == 1 then Semicolon else Dot
    ensures |names| > 1 ==> TokensAt(ts, pos + 1, PathTokens(names[1..]))
  {
    hide TokensAt, AfterName, PathTokens;
    AfterParts(names);
    if |names| == 1 {
      HeadAt(ts, pos, Semicolon, []);
    } else {
      HeadAt(ts, pos, Dot, PathTokens(names[1..]));
    }
  }

  lemma AfterParts(names: seq<string>)
    requires |names| > 0
    ensures AfterName(names) == if |names| == 1 then [Semicolon] + [] else [Dot] + PathTokens(names[1..])
  {}

  // ---------------------------------------------------------------- the buffer

  /** The path read behind `have` characters already in the buffer: kept if it fits; otherwise dropped with
    * nothing reported, and parsing resumes where `Resume` says. */
  lemma {:induction false} PathRead(ts: seq<Token>, pos: nat, path: string, names: seq<string>)
    requires EndsInEof(ts) && |names| > 0 && TokensAt(ts, pos, PathTokens(names)) && |path| < IMPORT_PATH_SIZE
    ensures var r := ImportPath(ts, pos, path, true); var end := pos + |PathTokens(names)|;
            if FitsBuffer(|path|, names) then r == Out(Some(path + Joined(names) + EXTENSION), end, true)
            else r.node.None? && r.clean && RecoverTopLevel(ts, r.pos) == Resume(ts, end, |path|, names)
    decreases |names|
  {
    hide TokensAt, PathTokens, AfterName, SkipTopLevel;
    PathParts(ts, pos, names);
    LastIsPart(names);
    var longer := path + names[0];
    if |longer| >= IMPORT_PATH_SIZE {
      CutAtName(ts, pos, path, names);
    } else if |names| == 1 {
      assert ImportPath(ts, pos, path, true) == ImportPath(ts, pos + 1, longer, false);
    } else if |longer| + 1 >= IMPORT_PATH_SIZE {
      CutAtDot(ts, pos, path, names);
    } else {
      var next := longer + "/";
      PathRead(ts, pos + 2, next, names[1..]);
      assert ImportPath(ts, pos, path, true) == ImportPath(ts, pos + 1, longer, false) ==
             ImportPath(ts, pos + 2, next, true);
      assert path + Joined(names) == next + Joined(names[1..]);
      PathLength(names);
    }
  }

  lemma PathLength(names: seq<string>)
    requires |names| > 1
    ensures |PathTokens(names)| == 2 + |PathTokens(names[1..])|
  {}

  /** The name at `pos` does not fit. */
  lemma CutAtName(ts: seq<Token>, pos: nat, path: string, names: seq<string>)
    requires EndsInEof(ts) && |names| > 0 && TokensAt(ts, pos, PathTokens(names))
    requires |path| < IMPORT_PATH_SIZE <= |path| + |names[0]|
    ensures ImportPath(ts, pos, path, true) == Out(None, pos + 1, true)
    ensures RecoverTopLevel(ts, pos + 1) == Resume(ts, pos + |PathTokens(names)|, |path|, names)
  {
    hide TokensAt, PathTokens, AfterName, SkipTopLevel;
    PathParts(ts, pos, names);
    LastIsPart(names);
    var end := pos + |PathTokens(names)|;
    assert RecoverTopLevel(ts, pos + 1) == SkipTopLevel(ts, pos + 2, 0);
    if |names| > 1 {
      SkipsAfterName(ts, pos + 3, names[1..]);
      SkipsOne(ts, pos + 2);
      assert SkipTopLevel(ts, pos + 2, 0) == end;
      assert !FitsBeforeLast(|path|, names);
    } else {
      assert FitsBeforeLast(|path|, names) && |path| + |Joined(names)| >= IMPORT_PATH_SIZE;
    }
  }

  lemma SkipsOne(ts: seq<Token>, pos: nat)
    requires EndsInEof(ts) && pos < |ts| && (ts[pos].Ident? || ts[pos].Dot? || ts[pos].KwImport?)
    ensures SkipTopLevel(ts, pos, 0) == SkipTopLevel(ts, pos + 1, 0)
  {}

  /** The name fits and the dot behind it does not. */
  lemma CutAtDot(ts: seq<Token>, pos: nat, path: string, names: seq<string>)
    requires EndsInEof(ts) && |names| > 1 && TokensAt(ts, pos, PathTokens(names))
    requires |path| + |names[0]| < IMPORT_PATH_SIZE <= |path| + |names[0]| + 1
    ensures ImportPath(ts, pos, path, true) == Out(None, pos + 2, true)
    ensures RecoverTopLevel(ts, pos + 2) == Resume(ts, pos + |PathTokens(names)|, |path|, names)
  {
    PathParts(ts, pos, names);
    LastIsPart(names);
    assert ts[pos + 2 + 0] == PathTokens(names[1..])[0];
    SkipsAfterName(ts, pos + 3, names[1..]);
    assert ImportPath(ts, pos, path, true) == ImportPath(ts, pos + 1, path + names[0], false);
  }

  // ---------------------------------------------------------------- imports

  /** `import a.b.c;` */
  function ImportTokens(names: seq<string>): (r: seq<Token>)
    requires |names| > 0
    ensures |r| == 1 + 2 * |names|
  {
    [KwImport] + PathTokens(names)
  }

  /** An import is kept if and only if its path and extension fit the buffer; whatever is written, nothing
    * is reported. */
  lemma KeptExactly(ts: seq<Token>, pos: nat, names: seq<string>)
    requires EndsInEof(ts) && |names| > 0 && TokensAt(ts, pos, ImportTokens(names))
    ensures var r := ParseTopLevel(ts, pos); var end := pos + |ImportTokens(names)|;
            r.clean && (r.node.Some? <==> |Joined(names)| + 5 < 512) &&
            (r.node.Some? ==> r.node.value == Import(Joined(names) + EXTENSION) && r.pos == end) &&
            (r.node.None? ==> r.pos == Resume(ts, end, 0, names))
  {
    hide PathTokens, SkipTopLevel;
    AtSplit(ts, pos, [KwImport], PathTokens(names));
    assert ts[pos + 0] == ImportTokens(names)[0];
    PathRead(ts, pos + 1, "", names);
    assert "" + Joined(names) == Joined(names);
  }

  /** An import behind one that was dropped is swallowed with it if and only if all before the last name
    * of the dropped one fitted. */
  lemma SwallowedExactly(ts: seq<Token>, pos: nat, names: seq<string>, others: seq<string>)
    requires EndsInEof(ts) && |names| > 0 && |others| > 0 && |Joined(names)| + 5 >= 512
    requires TokensAt(ts, pos, ImportTokens(names) + ImportTokens(others))
    ensures var r := ParseTopLevel(ts, pos); var end := pos + |ImportTokens(names)|;
            r.node.None? && r.clean &&
            r.pos == if FitsBeforeLast(0, names) then end + |ImportTokens(others)| else end
  {
    hide SkipTopLevel, PathTokens;
    AtSplit(ts, pos, ImportTokens(names), ImportTokens(others));
    KeptExactly(ts, pos, names);
    var end := pos + |ImportTokens(names)|;
    SkipsImport(ts, end, others);
  }

  lemma SkipsImport(ts: seq<Token>, pos: nat, names: seq<string>)
    requires EndsInEof(ts) && |names| > 0 && TokensAt(ts, pos, ImportTokens(names))
    ensures SkipTopLevel(ts, pos, 0) == RecoverTopLevel(ts, pos) == pos + |ImportTokens(names)|
  {
    hide TokensAt;
    AtSplit(ts, pos, [KwImport], PathTokens(names));
    FirstToken(ts, pos, names);
    PathParts(ts, pos + 1, names);
    SkipsAfterName(ts, pos + 2, names);
  }

  lemma FirstToken(ts: seq<Token>, pos: nat, names: seq<string>)
    requires |names| > 0 && TokensAt(ts, pos, ImportTokens(names))
    ensures ts[pos] == KwImport
  {
    assert ts[pos + 0] == ImportTokens(names)[0];
  }

  // ---------------------------------------------------------------- a file that loses both its imports

  /** The longest name the lexer lets through. */
  function LongName(): (r: string)
    ensures |r| == 254
  {
    seq(254, _ => 'a')
  }

  /** `import <254 letters>.<254 letters>; import b;` is parsed as an empty file, and nothing is reported. */
  lemma BothImportsLost()
    ensures var ts := ImportTokens([LongName(), LongName()]) + ImportTokens(["b"]) + [Eof];
            EndsInEof(ts) && ParseItems(ts, 0) == Out(Some([]), 8, true)
  {
    hide LongName, SkipTopLevel, ImportTokens, ParseTopLevel;
    var names, others := [LongName(), LongName()], ["b"];
    var ts := ImportTokens(names) + ImportTokens(others) + [Eof];
    assert names[1..] == [LongName()];
    assert |Joined(names)| == 509;
    SwallowedExactly(ts, 0, names, others);
    AtSplit(ts, 0, ImportTokens(names), ImportTokens(others));
    FirstToken(ts, 0, names);
    var r := ParseTopLevel(ts, 0);
    assert r.node.None? && r.pos == 8 && r.clean;
    assert |ts| == 9 && ts[8] == Eof;
    NothingFound(ts, 0);
    EndOfFile(ts, 8);
  }

  lemma EndOfFile(ts: seq<Token>, pos: nat)
    requires EndsInEof(ts) && pos < |ts| && ts[pos].Eof?
    ensures ParseItems(ts, pos) == Out(Some([]), pos, true)
  {}

  lemma NothingFound(ts: seq<Token>, pos: nat)
    requires EndsInEof(ts) && pos < |ts| && !ts[pos].Eof? && ParseTopLevel(ts, pos).node.None?
    requires ParseTopLevel(ts, pos).pos > pos
    ensures var first := ParseTopLevel(ts, pos); var rest := ParseItems(ts, first.pos);
            ParseItems(ts, pos) == Out(rest.node, rest.pos, first.clean && rest.clean)
  {
    hide ParseTopLevel;
    var rest := ParseItems(ts, ParseTopLevel(ts, pos).pos);
    assert [] + rest.node.value == rest.node.value;
  }
}
