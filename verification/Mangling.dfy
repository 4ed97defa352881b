/** Link names: `_SF`, then every part of the module path and the function name, each after its
  * length in decimal. The encoding can be read back, so distinct functions have distinct names. */
module Mangling {
  import opened Arith
  import opened Names

  // ---------------------------------------------------------------- the path of a module

  /** Index of the last occurrence of a character, or the length of the string. */
  function LastIndex(s: string, c: char): (i: nat)
    ensures i <= |s| && (i < |s| ==> s[i] == c) && forall k :: i < k < |s| ==> s[k] != c
    ensures i == |s| ==> c !in s
  {
    if |s| == 0 then 0
    else if s[|s| - 1] == c then |s| - 1
    else
      var i := LastIndex(s[..|s| - 1], c);
      if i < |s| - 1 then i else |s|
  }

  /** Where the extension of the file name begins. */
  function PathEnd(path: string): (e: nat)
    ensures e <= |path|
  {
    var dot, slash := LastIndex(path, '.'), LastIndex(path, '/');
    if dot < |path| && (slash == |path| || dot > slash) then dot else |path|
  }

  /** The non-empty parts between slashes; the part being read began at `start`. */
  function SplitFrom(s: string, start: nat, i: nat): seq<string>
    requires start <= i <= |s| + 1
    decreases |s| + 1 - i
  {
    if i > |s| then []
    else if i < |s| && s[i] != '/' then SplitFrom(s, start, i + 1)
    else (if i > start then [s[start..i]] else []) + SplitFrom(s, i + 1, i + 1)
  }

  function Split(s: string): seq<string> {
    SplitFrom(s, 0, 0)
  }

  function Written(parts: seq<string>): string {
    if |parts| == 0 then "" else Decimal(|parts[0]|) + parts[0] + Written(parts[1..])
  }

  function ModulePrefix(path: string): string {
    "_SF" + Written(Split(path[..PathEnd(path)]))
  }

  /** A function of the program's own file, or one that keeps its name, is not mangled. */
  function MangleFunction(prefix: Option<string>, name: string, keepName: bool): string {
    if prefix.None? || keepName then name else prefix.value + Decimal(|name|) + name
  }

  // ---------------------------------------------------------------- reading a name back

  function DigitCount(s: string): (n: nat)
    ensures n <= |s| && AllDigits(s[..n])
    ensures n < |s| ==> !IsDigit(s[n])
  {
    if |s| == 0 || !IsDigit(s[0]) then 0
    else
      var n := DigitCount(s[1..]);
      assert s[..n + 1] == [s[0]] + s[1..][..n];
      n + 1
  }

  function ReadParts(s: string): Option<seq<string>>
    decreases |s|
  {
    if |s| == 0 then Some([])
    else
      var n := DigitCount(s);
      var len := ParseDecimal(s[..n]);
      if n == 0 || len == 0 || n + len > |s| then None
      else
        match ReadParts(s[n + len..])
        case Some(rest) => Some([s[n..n + len]] + rest)
        case None => None
  }

  function Demangle(s: string): Option<seq<string>> {
    if |s| >= 3 && s[..3] == "_SF" then ReadParts(s[3..]) else None
  }

  /** A part of an import path or a function name: not empty, and not starting with a digit. */
  predicate IsPart(s: string) {
    |s| > 0 && !IsDigit(s[0]) && '/' !in s && '.' !in s
  }

  predicate AreParts(parts: seq<string>) {
    forall i :: 0 <= i < |parts| ==> IsPart(parts[i])
  }

  lemma {:induction false} DigitsEnd(d: string, rest: string)
    requires AllDigits(d) && |rest| > 0 && !IsDigit(rest[0])
    ensures DigitCount(d + rest) == |d|
    decreases |d|
  {
    if |d| == 0 {
      assert d + rest == rest;
    } else {
      assert (d + rest)[1..] == d[1..] + rest;
      DigitsEnd(d[1..], rest);
    }
  }

  lemma {:induction false} ReadWritten(parts: seq<string>)
    requires AreParts(parts)
    ensures ReadParts(Written(parts)) == Some(parts)
    decreases |parts|
  {
    hide Decimal, ParseDecimal, DigitCount, IsPart, ReadParts;
    if |parts| > 0 {
      var p, rest := parts[0], Written(parts[1..]);
      assert IsPart(p);
      assert forall i :: 0 <= i < |parts[1..]| ==> parts[1..][i] == parts[i + 1];
      ReadWritten(parts[1..]);
      ReadFirst(p, rest);
      assert Decimal(|p|) + p + rest == Decimal(|p|) + (p + rest);
      assert parts == [p] + parts[1..];
    } else {
      NothingRead();
    }
  }

  lemma NothingRead()
    ensures ReadParts("") == Some([])
  {}

  lemma ReadFirst(p: string, rest: string)
    requires IsPart(p) && ReadParts(rest).Some?
    ensures ReadParts(Decimal(|p|) + (p + rest)) == Some([p] + ReadParts(rest).value)
  {
    hide Decimal, ParseDecimal, DigitCount, ReadParts;
    var d := Decimal(|p|);
    var s := d + (p + rest);
    assert (p + rest)[0] == p[0];
    DigitsEnd(d, p + rest);
    assert s[..|d|] == d && s[|d|..|d| + |p|] == p && s[|d| + |p|..] == rest;
    ParseOfDecimal(|p|);
    ReadStep(s, |d|, |p|);
  }

  lemma ReadStep(s: string, n: nat, len: nat)
    requires n > 0 && len > 0 && n + len <= |s| && DigitCount(s) == n && ParseDecimal(s[..n]) == len &&
             ReadParts(s[n + len..]).Some?
    ensures ReadParts(s) == Some([s[n..n + len]] + ReadParts(s[n + len..]).value)
  {
    hide ParseDecimal, DigitCount;
  }

  lemma {:induction false} WrittenConcat(a: seq<string>, b: seq<string>)
    ensures Written(a + b) == Written(a) + Written(b)
    decreases |a|
  {
    if |a| == 0 {
      assert a + b == b;
    } else {
      assert (a + b)[1..] == a[1..] + b;
      WrittenConcat(a[1..], b);
    }
  }

  function Join(parts: seq<string>): string {
    if |parts| == 0 then "" else if |parts| == 1 then parts[0] else parts[0] + "/" + Join(parts[1..])
  }

  lemma {:induction false} SplitSkips(s: string, start: nat, i: nat, k: nat)
    requires start <= i <= k <= |s| && forall j :: i <= j < k ==> s[j] != '/'
    ensures SplitFrom(s, start, i) == SplitFrom(s, start, k)
    decreases k - i
  {
    if i < k {
      SplitSkips(s, start, i + 1, k);
    }
  }

  /** Splitting reads only what is left of the string. */
  lemma {:induction false} SplitTail(a: string, b: string, start: nat, i: nat)
    requires start <= i <= |b| + 1
    ensures SplitFrom(a + b, |a| + start, |a| + i) == SplitFrom(b, start, i)
    decreases |b| + 1 - i
  {
    if i <= |b| {
      var s := a + b;
      if i < |b| && b[i] != '/' {
        assert s[|a| + i] == b[i];
        SplitTail(a, b, start, i + 1);
      } else {
        if i < |b| {
          assert s[|a| + i] == b[i];
        }
        SplitTail(a, b, i + 1, i + 1);
        assert s[|a| + start..|a| + i] == b[start..i];
      }
    }
  }

  lemma {:induction false} SplitJoin(parts: seq<string>)
    requires AreParts(parts) && |parts| > 0
    ensures Split(Join(parts)) == parts
    decreases |parts|
  {
    var p, s := parts[0], Join(parts);
    assert IsPart(p);
    forall j | 0 <= j < |p| ensures s[j] != '/' {
      assert s[j] == p[j];
    }
    SplitSkips(s, 0, 0, |p|);
    if |parts| == 1 {
      assert s[0..|p|] == p;
      assert SplitFrom(s, |p| + 1, |p| + 1) == [];
    } else {
      var rest := Join(parts[1..]);
      assert forall i :: 0 <= i < |parts[1..]| ==> parts[1..][i] == parts[i + 1];
      SplitJoin(parts[1..]);
      assert s == (p + "/") + rest;
      SplitTail(p + "/", rest, 0, 0);
      assert s[0..|p|] == p;
      assert parts == [p] + parts[1..];
    }
  }

  /** A path of identifier parts with an extension. */
  lemma PathWithExtension(parts: seq<string>, extension: string)
    requires AreParts(parts) && |parts| > 0 && '/' !in extension && '.' !in extension
    ensures ModulePrefix(Join(parts) + "." + extension) == "_SF" + Written(parts)
  {
    hide Join, Split, Written, PathEnd;
    var stem := Join(parts);
    JoinHasNoDot(parts);
    StemEnds(stem, extension);
    assert (stem + "." + extension)[..|stem|] == stem;
    SplitJoin(parts);
  }

  lemma StemEnds(stem: string, extension: string)
    requires '.' !in stem && '/' !in extension && '.' !in extension
    ensures PathEnd(stem + "." + extension) == |stem|
  {
    hide LastIndex;
    var path := stem + "." + extension;
    assert path[|stem|] == '.';
    assert forall k :: |stem| < k < |path| ==> path[k] == extension[k - |stem| - 1];
    assert LastIndex(path, '.') == |stem|;
    assert LastIndex(path, '/') == |path| || LastIndex(path, '/') < |stem|;
  }

  lemma {:induction false} JoinHasNoDot(parts: seq<string>)
    requires AreParts(parts)
    ensures '.' !in Join(parts)
    decreases |parts|
  {
    if |parts| > 0 {
      assert IsPart(parts[0]);
      if |parts| > 1 {
        assert forall i :: 0 <= i < |parts[1..]| ==> parts[1..][i] == parts[i + 1];
        JoinHasNoDot(parts[1..]);
      }
    }
  }

  lemma WrittenOne(name: string)
    ensures Written([name]) == Decimal(|name|) + name
  {
    assert Written([name]) == Decimal(|name|) + name + Written([]);
  }

  lemma DemangleWritten(parts: seq<string>, name: string)
    requires AreParts(parts) && IsPart(name)
    ensures Demangle("_SF" + Written(parts) + Decimal(|name|) + name) == Some(parts + [name])
  {
    hide Written, ReadParts, Decimal, IsPart;
    WrittenConcat(parts, [name]);
    WrittenOne(name);
    var w, s := Written(parts + [name]), "_SF" + Written(parts) + Decimal(|name|) + name;
    assert s == "_SF" + w;
    assert s[..3] == "_SF" && s[3..] == w;
    ReadWritten(parts + [name]);
  }

  /** A mangled name tells the parts of the module's path and the name of the function. */
  lemma DemangleMangled(parts: seq<string>, extension: string, name: string)
    requires AreParts(parts) && |parts| > 0 && '/' !in extension && '.' !in extension && IsPart(name)
    ensures Demangle(MangleFunction(Some(ModulePrefix(Join(parts) + "." + extension)), name, false)) ==
            Some(parts + [name])
  {
    hide Written, Demangle, Decimal, IsPart, ModulePrefix, Join;
    PathWithExtension(parts, extension);
    DemangleWritten(parts, name);
  }

  /** So two functions share a link name only if they are the same function of the same module. */
  lemma LinkNamesDistinct(parts1: seq<string>, name1: string, parts2: seq<string>, name2: string)
    requires AreParts(parts1) && |parts1| > 0 && IsPart(name1) && AreParts(parts2) && |parts2| > 0 && IsPart(name2)
    requires MangleFunction(Some(ModulePrefix(Join(parts1) + "." + "slfr")), name1, false) ==
             MangleFunction(Some(ModulePrefix(Join(parts2) + "." + "slfr")), name2, false)
    ensures parts1 == parts2 && name1 == name2
  {
    hide Demangle, IsPart, ModulePrefix, Join, MangleFunction;
    DemangleMangled(parts1, "slfr", name1);
    DemangleMangled(parts2, "slfr", name2);
    LastApart(parts1, name1, parts2, name2);
  }

  lemma LastApart(a: seq<string>, x: string, b: seq<string>, y: string)
    requires a + [x] == b + [y]
    ensures a == b && x == y
  {
    assert |a| == |b|;
    assert a == (a + [x])[..|a|] && b == (b + [y])[..|b|];
    assert x == (a + [x])[|a|] && y == (b + [y])[|b|];
  }

  // ---------------------------------------------------------------- the prefix buffer

  /** A length is never longer, in decimal, than the part it counts. */
  lemma {:induction false} LengthDigits(n: nat)
    requires n > 0
    ensures |Decimal(n)| <= n
  {
    if n >= 10 {
      LengthDigits(n / 10);
    }
  }

  lemma {:induction false} WrittenLength(s: string, start: nat, i: nat)
    requires start <= i <= |s| + 1
    ensures i <= |s| ==> |Written(SplitFrom(s, start, i))| <= 2 * (|s| - start)
    ensures i == |s| + 1 ==> SplitFrom(s, start, i) == []
    decreases |s| + 1 - i
  {
    if i <= |s| {
      if i < |s| && s[i] != '/' {
        WrittenLength(s, start, i + 1);
      } else {
        WrittenLength(s, i + 1, i + 1);
        var rest := SplitFrom(s, i + 1, i + 1);
        if i > start {
          WrittenPart(s[start..i], rest);
        } else {
          assert [] + rest == rest;
        }
      }
    }
  }

  lemma WrittenPart(part: string, rest: seq<string>)
    requires |part| > 0
    ensures |Written([part] + rest)| <= 2 * |part| + |Written(rest)|
  {
    hide Decimal;
    LengthDigits(|part|);
    assert ([part] + rest)[1..] == rest;
  }

  method CopyInto(out: array<char>, n: nat, s: string)
    requires n + |s| <= out.Length
    modifies out
    ensures out[..n + |s|] == old(out[..n]) + s
  {
    var k := 0;
    while k < |s|
      invariant 0 <= k <= |s| && out[..n + k] == old(out[..n]) + s[..k]
    {
      out[n + k] := s[k];
      k := k + 1;
    }
    assert s[..k] == s;
  }

  /** One part of the path after its length. */
  method WritePart(out: array<char>, n: nat, part: string) returns (next: nat)
    requires n + |Decimal(|part|)| + |part| <= out.Length
    modifies out
    ensures next == n + |Decimal(|part|)| + |part|
    ensures out[..next] == old(out[..n]) + (Decimal(|part|) + part)
  {
    hide Decimal;
    var d := Decimal(|part|);
    CopyInto(out, n, d);
    CopyInto(out, n + |d|, part);
    next := n + |d| + |part|;
  }

  lemma PartFits(before: string, part: string, rest: string, whole: string)
    requires before + (part + rest) == whole
    ensures (before + part) + rest == whole && |before| + |part| <= |whole|
  {
    assert before + (part + rest) == (before + part) + rest;
  }

  /** The prefix, written into a buffer of twice the length of the path and three more. */
  method MangleModulePrefix(path: string) returns (prefix: string)
    ensures prefix == ModulePrefix(path)
    ensures |prefix| <= 3 + 2 * PathEnd(path)
  {
    hide Written, SplitFrom, Decimal, PathEnd;
    var end := PathEnd(path);
    var s := path[..end];
    var out := new char[3 + end * 2 + 1];
    ghost var whole := "_SF" + Written(Split(s));
    WrittenLength(s, 0, 0);
    CopyInto(out, 0, "_SF");
    var n, start, i := 3, 0, 0;
    while i <= end
      invariant 0 <= start <= i <= end + 1 && 0 <= n <= |whole| < out.Length
      invariant out[..n] + Written(SplitFrom(s, start, i)) == whole
    {
      SplitStep(s, start, i);
      if i == end || path[i] == '/' {
        if i > start {
          ghost var part, rest := Decimal(i - start) + s[start..i], Written(SplitFrom(s, i + 1, i + 1));
          PartFits(out[..n], part, rest, whole);
          n := WritePart(out, n, s[start..i]);
        }
        start := i + 1;
      }
      i := i + 1;
    }
    SplitDone(s, start);
    prefix := out[..n];
    assert prefix + "" == prefix;
  }

  /** What one character adds to the text still to be written. */
  lemma SplitStep(s: string, start: nat, i: nat)
    requires start <= i <= |s|
    ensures Written(SplitFrom(s, start, i)) ==
            if i < |s| && s[i] != '/' then Written(SplitFrom(s, start, i + 1))
            else if i > start then Decimal(i - start) + s[start..i] + Written(SplitFrom(s, i + 1, i + 1))
            else Written(SplitFrom(s, i + 1, i + 1))
  {
    hide Decimal;
    var rest := SplitFrom(s, i + 1, i + 1);
    if i > start {
      assert ([s[start..i]] + rest)[1..] == rest;
    } else {
      assert [] + rest == rest;
    }
  }

  lemma SplitDone(s: string, start: nat)
    requires start <= |s| + 1
    ensures Written(SplitFrom(s, start, |s| + 1)) == ""
  {}
}
