/** scripts/mergeData.js: build the catalog from the `unit<N>.json` files, leaving out excluded units. */
module MergeData {
  import opened Wrappers
  import opened Seqs
  import opened Catalog

  // ---------------------------------------------------------------- strings

  predicate StartsWith(s: string, prefix: string) {
    |prefix| <= |s| && s[..|prefix|] == prefix
  }

  /** `s.split(c)`: the pieces between the separators; a string without `c` is one piece. */
  function SplitOn(s: string, c: char): (pieces: seq<string>)
    ensures |pieces| >= 1
    ensures forall k :: 0 <= k < |pieces| ==> c !in pieces[k]
  {
    if s == [] then [""]
    else
      var rest := SplitOn(s[1..], c);
      if s[0] == c then [""] + rest
      else [[s[0]] + rest[0]] + rest[1..]
  }

  /** `pieces.join(c)`. */
  function JoinWith(pieces: seq<string>, c: char): string
    requires |pieces| >= 1
  {
    if |pieces| == 1 then pieces[0] else pieces[0] + [c] + JoinWith(pieces[1..], c)
  }

  /** Splitting loses nothing: joining the pieces again gives back the string. */
  lemma {:induction false} SplitJoin(s: string, c: char)
    ensures JoinWith(SplitOn(s, c), c) == s
  {
    if s != [] {
      var rest := SplitOn(s[1..], c);
      SplitJoin(s[1..], c);
      if s[0] == c {
        assert SplitOn(s, c)[1..] == rest;
      } else {
        var pieces := SplitOn(s, c);
        assert pieces[1..] == rest[1..];
        if |rest| > 1 {
          assert JoinWith(rest, c) == rest[0] + [c] + JoinWith(rest[1..], c);
        }
      }
    }
  }

  /** Text with no separator in it is a single piece. */
  lemma {:induction false} SplitWithoutSeparator(s: string, c: char)
    requires c !in s
    ensures SplitOn(s, c) == [s]
  {
    if s != [] {
      assert c !in s[1..] by {
        forall k | 0 <= k < |s[1..]| ensures s[1..][k] != c { assert s[1..][k] == s[k + 1]; }
      }
      SplitWithoutSeparator(s[1..], c);
      assert [s[0]] + s[1..] == s;
    }
  }

  /** Whitespace as `String.prototype.trim` removes it. */
  predicate IsSpace(ch: char) {
    || ch == ' ' || ch == '\t' || ch == '\n' || ch == '\r' || ch == '\U{000B}' || ch == '\U{000C}'
    || ch == '\U{00A0}' || ch == '\U{1680}' || ('\U{2000}' <= ch <= '\U{200A}')
    || ch == '\U{2028}' || ch == '\U{2029}' || ch == '\U{202F}' || ch == '\U{205F}'
    || ch == '\U{3000}' || ch == '\U{FEFF}'
  }

  function TrimStart(s: string): string {
    if s != [] && IsSpace(s[0]) then TrimStart(s[1..]) else s
  }

  function TrimEnd(s: string): string {
    if s != [] && IsSpace(s[|s| - 1]) then TrimEnd(s[..|s| - 1]) else s
  }

  /** `TrimStart` drops the leading whitespace and nothing else. */
  lemma {:induction false} TrimStartFacts(s: string)
    ensures var r := TrimStart(s);
      && |r| <= |s| && r == s[|s| - |r|..]
      && (r == [] || !IsSpace(r[0]))
      && (forall k :: 0 <= k < |s| - |r| ==> IsSpace(s[k]))
  {
    if s != [] && IsSpace(s[0]) {
      TrimStartFacts(s[1..]);
      var r := TrimStart(s[1..]);
      assert s[1..][|s| - 1 - |r|..] == s[|s| - |r|..];
      forall k | 0 <= k < |s| - |r| ensures IsSpace(s[k]) {
        if k > 0 { assert s[k] == s[1..][k - 1]; }
      }
    }
  }

  /** `TrimEnd` drops the trailing whitespace and nothing else. */
  lemma {:induction false} TrimEndFacts(s: string)
    ensures var r := TrimEnd(s);
      && |r| <= |s| && r == s[..|r|]
      && (r == [] || !IsSpace(r[|r| - 1]))
      && (forall k :: |r| <= k < |s| ==> IsSpace(s[k]))
  {
    if s != [] && IsSpace(s[|s| - 1]) {
      var init := s[..|s| - 1];
      TrimEndFacts(init);
      var r := TrimEnd(init);
      assert init[..|r|] == s[..|r|];
      forall k | |r| <= k < |s| ensures IsSpace(s[k]) {
        if k < |s| - 1 { assert s[k] == init[k]; }
      }
    }
  }

  /** `s.trim()`. */
  function Trim(s: string): string {
    TrimEnd(TrimStart(s))
  }

  /** Trimming keeps a contiguous middle part and drops only whitespace around it. */
  lemma TrimIsSlice(s: string)
    ensures exists i, j ::
      && 0 <= i <= j <= |s| && Trim(s) == s[i..j]
      && (forall k :: 0 <= k < i ==> IsSpace(s[k]))
      && (forall k :: j <= k < |s| ==> IsSpace(s[k]))
  {
    var t := TrimStart(s);
    TrimStartFacts(s);
    TrimEndFacts(t);
    var i := |s| - |t|;
    var r := TrimEnd(t);
    var j := i + |r|;
    assert r == s[i..j];
    forall k | j <= k < |s| ensures IsSpace(s[k]) {
      assert s[k] == t[k - i];
    }
  }

  /** The result has no whitespace at either end, so trimming it again changes nothing. */
  lemma TrimEdges(s: string)
    ensures var r := Trim(s); r == [] || (!IsSpace(r[0]) && !IsSpace(r[|r| - 1]))
    ensures Trim(Trim(s)) == Trim(s)
  {
    var t := TrimStart(s);
    var r := TrimEnd(t);
    TrimStartFacts(s);
    TrimEndFacts(t);
    TrimStartFacts(r);
    TrimEndFacts(r);
    if r != [] {
      assert r[0] == t[0];
    }
  }

  // ---------------------------------------------------------------- the --exclude flag

  const ExcludeFlag: string := "--exclude="

  /** `process.argv.find(arg => arg.startsWith('--exclude='))`. */
  function FindExcludeArg(argv: seq<string>): (r: Option<string>)
    ensures r.Some? <==> exists k :: 0 <= k < |argv| && StartsWith(argv[k], ExcludeFlag)
    ensures r.Some? ==> StartsWith(r.value, ExcludeFlag) && r.value in argv
  {
    if argv == [] then None
    else if StartsWith(argv[0], ExcludeFlag) then Some(argv[0])
    else
      var r := FindExcludeArg(argv[1..]);
      assert forall k :: 1 <= k < |argv| ==> argv[k] == argv[1..][k - 1];
      r
  }

  /** `find` returns the first matching argument: none before it starts with the flag. */
  lemma {:induction false} FindExcludeArgFirst(argv: seq<string>)
    ensures var r := FindExcludeArg(argv);
      r.Some? ==> exists k ::
        && 0 <= k < |argv| && argv[k] == r.value
        && (forall j :: 0 <= j < k ==> !StartsWith(argv[j], ExcludeFlag))
  {
    if argv != [] && !StartsWith(argv[0], ExcludeFlag) {
      var tail := argv[1..];
      FindExcludeArgFirst(tail);
      if FindExcludeArg(tail).Some? {
        var k :|
          && 0 <= k < |tail| && tail[k] == FindExcludeArg(tail).value
          && (forall j :: 0 <= j < k ==> !StartsWith(tail[j], ExcludeFlag));
        assert argv[k + 1] == FindExcludeArg(argv).value;
        assert forall j :: 1 <= j < k + 1 ==> argv[j] == tail[j - 1];
      }
    } else if argv != [] {
      assert argv[0] == FindExcludeArg(argv).value;
    }
  }

  /** `excludes`: the names after the flag, split on commas and trimmed; none without the flag. */
  function ParseExcludes(argv: seq<string>): (excludes: seq<string>)
  {
    match FindExcludeArg(argv)
    case None => []
    case Some(arg) =>
      var afterEq := SplitOn(arg, '=');
      ExcludeListHasValue(arg);
      TrimAll(SplitOn(afterEq[1], ','))
  }

  /** `.map(name => name.trim())`. */
  function TrimAll(names: seq<string>): (r: seq<string>)
    ensures |r| == |names| && forall k :: 0 <= k < |names| ==> r[k] == Trim(names[k])
  {
    seq(|names|, k requires 0 <= k < |names| => Trim(names[k]))
  }

  /** A trimmed comma-free piece is comma-free and has no whitespace at either end. */
  lemma TrimmedPieceShape(piece: string)
    requires ',' !in piece
    ensures var n := Trim(piece); ',' !in n && (n == [] || (!IsSpace(n[0]) && !IsSpace(n[|n| - 1])))
  {
    var t := TrimStart(piece);
    TrimStartFacts(piece);
    SliceLacks(piece, |piece| - |t|, |piece|, ',');
    var n := TrimEnd(t);
    TrimEndFacts(t);
    SliceLacks(t, 0, |n|, ',');
    TrimEdges(piece);
  }

  lemma SliceLacks(s: string, i: int, j: int, c: char)
    requires 0 <= i <= j <= |s| && c !in s
    ensures c !in s[i..j]
  {
  }

  lemma TrimAllShape(names: seq<string>)
    requires forall k :: 0 <= k < |names| ==> ',' !in names[k]
    ensures forall n :: n in TrimAll(names) ==>
      ',' !in n && (n == [] || (!IsSpace(n[0]) && !IsSpace(n[|n| - 1])))
  {
    forall k | 0 <= k < |names| {
      TrimmedPieceShape(names[k]);
    }
  }

  /** The flag itself holds one `=`, so the split always has a second piece: the text up to the next `=`. */
  lemma ExcludeListHasValue(arg: string)
    requires StartsWith(arg, ExcludeFlag)
    ensures |SplitOn(arg, '=')| >= 2
    ensures SplitOn(arg, '=')[1] == SplitOn(arg[|ExcludeFlag|..], '=')[0]
  {
    var rest := arg[|ExcludeFlag|..];
    assert arg == ExcludeFlag + rest;
    SplitPrefix("--exclude", rest);
  }

  lemma {:induction false} SplitPrefix(name: string, rest: string)
    requires '=' !in name
    ensures SplitOn(name + "=" + rest, '=') == [name] + SplitOn(rest, '=')
  {
    if name == [] {
      assert name + "=" + rest == ['='] + rest;
      assert (['='] + rest)[1..] == rest;
    } else {
      assert (name + "=" + rest)[1..] == name[1..] + "=" + rest;
      SplitPrefix(name[1..], rest);
      assert [name[0]] + name[1..] == name;
    }
  }

  /** Without the flag nothing is excluded; with it, every name is comma- and edge-whitespace-free. */
  lemma ExcludesShape(argv: seq<string>)
    ensures (forall k :: 0 <= k < |argv| ==> !StartsWith(argv[k], ExcludeFlag)) ==> ParseExcludes(argv) == []
    ensures forall n :: n in ParseExcludes(argv) ==>
      ',' !in n && (n == [] || (!IsSpace(n[0]) && !IsSpace(n[|n| - 1])))
  {
    var found := FindExcludeArg(argv);
    if found.Some? {
      ExcludeListHasValue(found.value);
      TrimAllShape(SplitOn(SplitOn(found.value, '=')[1], ','));
    }
  }

  // ---------------------------------------------------------------- the unit files

  /** `/^unit\d+\.json$/`: `unit`, one or more ASCII digits, `.json`. */
  predicate IsUnitFileName(f: string) {
    |f| >= 10 && f[..4] == "unit" && f[|f| - 5..] == ".json" && AllDigits(f[4..|f| - 5])
  }

  /** `basename(f, extname(f))` of a unit file name: the name without `.json`. */
  function UnitName(f: string): (name: string)
    requires IsUnitFileName(f)
    ensures f == name + ".json" && StartsWith(name, "unit")
  {
    f[..|f| - 5]
  }

  /** The test `files.filter` applies. */
  function Keep(excludes: seq<string>): string -> bool {
    f => IsUnitFileName(f) && UnitName(f) !in excludes
  }

  /** `unitFiles`. */
  function SelectUnitFiles(files: seq<string>, excludes: seq<string>): seq<string> {
    Filter(files, Keep(excludes))
  }

  /** A file is merged exactly when its name is a unit file name and its unit is not excluded; listing order is kept. */
  lemma SelectedFiles(files: seq<string>, excludes: seq<string>, f: string)
    ensures f in SelectUnitFiles(files, excludes) <==>
      f in files && IsUnitFileName(f) && UnitName(f) !in excludes
    ensures IsSubsequence(SelectUnitFiles(files, excludes), files)
  {
    FilterMembership(files, Keep(excludes), f);
    FilterIsSubsequence(files, Keep(excludes));
  }

  /** `flashcards.json` itself, and data files of other shapes, are never merged. */
  lemma OutputNeverMerged(files: seq<string>, excludes: seq<string>)
    ensures "flashcards.json" !in SelectUnitFiles(files, excludes)
    ensures "unit.json" !in SelectUnitFiles(files, excludes)
  {
    assert !IsUnitFileName("flashcards.json") by {
      assert "flashcards.json"[..4][0] == 'f';
    }
    assert !IsUnitFileName("unit.json") by {
      assert |"unit.json"| == 9;
    }
    SelectedFiles(files, excludes, "flashcards.json");
    SelectedFiles(files, excludes, "unit.json");
  }

  // ---------------------------------------------------------------- concatenation

  /** What `JSON.parse` makes of a file: an array, another JSON value, or an exception. */
  datatype Parsed<T> = JsonArray(items: seq<T>) | JsonOther | Malformed

  /** `allCards` after the files so far, or None once a parse throws (and nothing is written). */
  function Concatenated<T>(files: seq<string>, read: string -> Parsed<T>): Option<seq<T>> {
    if files == [] then Some([])
    else
      match Concatenated(files[..|files| - 1], read)
      case None => None
      case Some(prev) =>
        match read(files[|files| - 1])
        case Malformed => None
        case JsonOther => Some(prev)
        case JsonArray(items) => Some(prev + items)
  }

  /** The elements of the array files, in file order. */
  function ArrayElements<T>(files: seq<string>, read: string -> Parsed<T>): seq<T> {
    if files == [] then []
    else (if read(files[0]).JsonArray? then read(files[0]).items else []) + ArrayElements(files[1..], read)
  }

  /** The lengths of the array files, added up. */
  function ArrayLengths<T>(files: seq<string>, read: string -> Parsed<T>): nat {
    if files == [] then 0
    else (if read(files[0]).JsonArray? then |read(files[0]).items| else 0) + ArrayLengths(files[1..], read)
  }

  predicate AllParse<T>(files: seq<string>, read: string -> Parsed<T>) {
    forall k :: 0 <= k < |files| ==> !read(files[k]).Malformed?
  }

  lemma {:induction false} ArrayElementsAppend<T>(a: seq<string>, b: seq<string>, read: string -> Parsed<T>)
    ensures ArrayElements(a + b, read) == ArrayElements(a, read) + ArrayElements(b, read)
  {
    if a == [] {
      assert a + b == b;
    } else {
      assert (a + b)[1..] == a[1..] + b;
      ArrayElementsAppend(a[1..], b, read);
    }
  }

  lemma {:induction false} ArrayLengthsMatch<T>(files: seq<string>, read: string -> Parsed<T>)
    ensures |ArrayElements(files, read)| == ArrayLengths(files, read)
  {
    if files != [] { ArrayLengthsMatch(files[1..], read); }
  }

  /** The merge succeeds exactly when every file parses, and then outputs the array elements in file order. */
  lemma {:induction false} ConcatenatedIsArrayElements<T>(files: seq<string>, read: string -> Parsed<T>)
    ensures Concatenated(files, read).Some? <==> AllParse(files, read)
    ensures Concatenated(files, read).Some? ==> Concatenated(files, read).value == ArrayElements(files, read)
  {
    if files != [] {
      var init := files[..|files| - 1];
      var last := files[|files| - 1];
      assert files == init + [last];
      ConcatenatedIsArrayElements(init, read);
      ArrayElementsAppend(init, [last], read);
      assert ArrayElements([last], read) == (if read(last).JsonArray? then read(last).items else []);
      assert AllParse(files, read) <==> AllParse(init, read) && !read(last).Malformed? by {
        assert forall k :: 0 <= k < |init| ==> init[k] == files[k];
      }
    }
  }

  /** The merged catalog is as long as the array files together. */
  lemma MergedLength<T>(files: seq<string>, read: string -> Parsed<T>)
    requires AllParse(files, read)
    ensures Concatenated(files, read).Some? && |Concatenated(files, read).value| == ArrayLengths(files, read)
  {
    ConcatenatedIsArrayElements(files, read);
    ArrayLengthsMatch(files, read);
  }

  lemma AllParseAppend<T>(a: seq<string>, b: seq<string>, read: string -> Parsed<T>)
    ensures AllParse(a + b, read) <==> AllParse(a, read) && AllParse(b, read)
  {
    if AllParse(a, read) && AllParse(b, read) {
      forall k | 0 <= k < |a + b| ensures !read((a + b)[k]).Malformed? {
        if k < |a| { assert (a + b)[k] == a[k]; } else { assert (a + b)[k] == b[k - |a|]; }
      }
    }
    if AllParse(a + b, read) {
      forall k | 0 <= k < |a| ensures !read(a[k]).Malformed? { assert (a + b)[k] == a[k]; }
      forall k | 0 <= k < |b| ensures !read(b[k]).Malformed? { assert (a + b)[|a| + k] == b[k]; }
    }
  }

  /** A file whose content is not an array adds nothing, wherever it is listed. */
  lemma NonArrayAddsNothing<T>(before: seq<string>, f: string, after: seq<string>, read: string -> Parsed<T>)
    requires read(f).JsonOther?
    ensures Concatenated(before + [f] + after, read) == Concatenated(before + after, read)
  {
    var all := before + [f] + after;
    var kept := before + after;
    ConcatenatedIsArrayElements(all, read);
    ConcatenatedIsArrayElements(kept, read);
    AllParseAppend(before + [f], after, read);
    AllParseAppend(before, [f], read);
    AllParseAppend(before, after, read);
    ArrayElementsAppend(before + [f], after, read);
    ArrayElementsAppend(before, [f], read);
    ArrayElementsAppend(before, after, read);
    assert ArrayElements([f], read) == [];
    assert ArrayElements(before, read) + ArrayElements([f], read) == ArrayElements(before, read);
  }

  /** The `for` loop over the unit files. */
  method MergeFiles<T>(unitFiles: seq<string>, read: string -> Parsed<T>) returns (merged: Option<seq<T>>)
    ensures merged == Concatenated(unitFiles, read)
  {
    var allCards: seq<T> := [];
    var i := 0;
    while i < |unitFiles|
      invariant 0 <= i <= |unitFiles|
      invariant Concatenated(unitFiles[..i], read) == Some(allCards)
    {
      assert unitFiles[..i + 1][..i] == unitFiles[..i];
      var cards := read(unitFiles[i]);
      if cards.Malformed? {
        MalformedAborts(unitFiles, i, read);
        return None;
      }
      if cards.JsonArray? {
        allCards := allCards + cards.items;
      }
      i := i + 1;
    }
    assert unitFiles[..i] == unitFiles;
    merged := Some(allCards);
  }

  lemma MalformedAborts<T>(files: seq<string>, i: int, read: string -> Parsed<T>)
    requires 0 <= i < |files| && read(files[i]).Malformed?
    ensures Concatenated(files, read) == None
  {
    ConcatenatedIsArrayElements(files, read);
  }

  /** The whole script: the flag, the file selection and the concatenation. */
  method Merge<T>(argv: seq<string>, files: seq<string>, read: string -> Parsed<T>) returns (merged: Option<seq<T>>)
    ensures merged == Concatenated(SelectUnitFiles(files, ParseExcludes(argv)), read)
  {
    var excludes := ParseExcludes(argv);
    var unitFiles := SelectUnitFiles(files, excludes);
    merged := MergeFiles(unitFiles, read);
  }

  /** An excluded unit's file contributes nothing: the output is as if it were not in the directory. */
  lemma ExcludedUnitIgnored(excludes: seq<string>, before: seq<string>, f: string, after: seq<string>)
    requires IsUnitFileName(f) && UnitName(f) in excludes
    ensures SelectUnitFiles(before + [f] + after, excludes) == SelectUnitFiles(before + after, excludes)
  {
    FilterAppend(before + [f], after, Keep(excludes));
    FilterAppend(before, [f], Keep(excludes));
    FilterAppend(before, after, Keep(excludes));
    assert !Keep(excludes)(f);
    assert Filter([f], Keep(excludes)) == [];
  }
}
