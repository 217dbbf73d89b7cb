/** The C/C++ Makefile generator (`Cpp` in src/lang/cpp.rs): a three-phase pass
    that sorts paths into headers and sources, derives one object path per
    source, and renders the variable block of a Makefile. */
module CppMaker {

  import opened Results
  import opened Strings

  /** What `categorize_files` makes of a path. */
  datatype Role = Header | Source | Ignored

  /** The three `unwrap`s that can abort the pass. */
  datatype BuildError =
    | NoExtension(path: string)    // `rsplit_once(".")` on a source without a '.'
    | NoRootSegment(path: string)  // `split_once("/")` on a source (or its stem) without a '/'
    | NoSourceFiles                // `source_files.get(0)` on an empty list

  const HeaderEndings: seq<string> := [".hpp", ".h"]
  const SourceEndings: seq<string> := [".cpp", ".cc", ".c"]

  /** The guards of the `match` in `categorize_files`, header guard first. */
  function Classify(path: string): Role
  {
    if EndsWithAny(ToLower(path), HeaderEndings) then Header
    else if EndsWithAny(ToLower(path), SourceEndings) then Source
    else Ignored
  }

  /** The lower-cased text after the last '.', if there is a '.'. */
  function Extension(path: string): Option<string>
  {
    match RSplitOnce(ToLower(path), '.')
    case None => None
    case Some((_, ext)) => Some(ext)
  }

  /** Ending with "." + e, for an `e` with no '.', is having extension `e`. */
  lemma EndsWithExtension(path: string, e: string)
    requires '.' !in e
    ensures EndsWith(ToLower(path), ['.'] + e) <==> Extension(path) == Some(e)
  {
    if EndsWith(ToLower(path), ['.'] + e) {
      SuffixGivesExtension(ToLower(path), e);
    }
    if Extension(path) == Some(e) {
      ExtensionGivesSuffix(ToLower(path), e);
    }
  }

  lemma SuffixGivesExtension(l: string, e: string)
    requires '.' !in e && EndsWith(l, ['.'] + e)
    ensures RSplitOnce(l, '.') == Some((l[..|l| - |e| - 1], e))
  {
    var a := l[..|l| - |e| - 1];
    assert l == a + ['.'] + e;
    RSplitOnceAt(a, '.', e);
  }

  lemma ExtensionGivesSuffix(l: string, e: string)
    requires RSplitOnce(l, '.').Some? && RSplitOnce(l, '.').value.1 == e
    ensures EndsWith(l, ['.'] + e)
  {
    RSplitOnceSpec(l, '.');
    var a := RSplitOnce(l, '.').value.0;
    assert l == a + ['.'] + e;
    assert l[|l| - |e| - 1..] == ['.'] + e;
  }

  /** The header guard spelled out. */
  lemma HeaderGuard(l: string)
    ensures EndsWithAny(l, HeaderEndings) <==> EndsWith(l, ".hpp") || EndsWith(l, ".h")
  {
    var rest := HeaderEndings[1..];
    assert rest == [".h"] && rest[1..] == [];
    assert EndsWithAny(l, HeaderEndings) == (EndsWith(l, ".hpp") || EndsWithAny(l, rest));
    assert EndsWithAny(l, rest) == (EndsWith(l, ".h") || EndsWithAny(l, rest[1..]));
  }

  /** The source guard spelled out. */
  lemma SourceGuard(l: string)
    ensures EndsWithAny(l, SourceEndings) <==> EndsWith(l, ".cpp") || EndsWith(l, ".cc") || EndsWith(l, ".c")
  {
    var rest := SourceEndings[1..];
    assert rest == [".cc", ".c"] && rest[1..] == [".c"] && rest[1..][1..] == [];
    assert EndsWithAny(l, SourceEndings) == (EndsWith(l, ".cpp") || EndsWithAny(l, rest));
    assert EndsWithAny(l, rest) == (EndsWith(l, ".cc") || EndsWithAny(l, rest[1..]));
    assert EndsWithAny(l, rest[1..]) == (EndsWith(l, ".c") || EndsWithAny(l, rest[1..][1..]));
  }

  /** Classification is a function of the extension alone: "hpp" and "h" make
      a header, "cpp", "cc" and "c" a source, anything else (or none) is dropped. */
  lemma ClassifyByExtension(path: string)
    ensures Classify(path) == Header <==> Extension(path) == Some("hpp") || Extension(path) == Some("h")
    ensures Classify(path) == Source <==>
              Extension(path) == Some("cpp") || Extension(path) == Some("cc") || Extension(path) == Some("c")
  {
    var l := ToLower(path);
    assert ['.'] + "hpp" == ".hpp" && ['.'] + "h" == ".h";
    assert ['.'] + "cpp" == ".cpp" && ['.'] + "cc" == ".cc" && ['.'] + "c" == ".c";
    EndsWithExtension(path, "hpp");
    EndsWithExtension(path, "h");
    EndsWithExtension(path, "cpp");
    EndsWithExtension(path, "cc");
    EndsWithExtension(path, "c");
    HeaderGuard(l);
    SourceGuard(l);
  }

  /** Classification ignores the case of ASCII letters. */
  lemma ClassifyIgnoresCase(path: string)
    ensures Classify(ToLower(path)) == Classify(path)
  {
    ToLowerIdempotent(path);
  }

  /** A lower-cased path that passes either guard ends in 'p', 'h' or 'c'. */
  lemma GuardedLast(l: string)
    requires EndsWith(l, ".hpp") || EndsWith(l, ".h") || EndsWith(l, ".cpp") || EndsWith(l, ".cc") || EndsWith(l, ".c")
    ensures |l| >= 2
    ensures l[|l| - 1] == 'p' || l[|l| - 1] == 'h' || l[|l| - 1] == 'c'
  {
  }

  /** A character that lower-cases to 'p', 'h' or 'c' is one of those letters
      in either case, and so not whitespace. */
  lemma LowersToExtensionLetter(c: char)
    requires AsciiLower(c) == 'p' || AsciiLower(c) == 'h' || AsciiLower(c) == 'c'
    ensures c == 'p' || c == 'h' || c == 'c' || c == 'P' || c == 'H' || c == 'C'
    ensures !IsWhitespace(c)
  {
  }

  /** A kept path ends in a letter of its extension, so it is non-empty and
      does not end in whitespace; a source also contains a '.'. */
  lemma ClassifiedShape(path: string)
    requires Classify(path) != Ignored
    ensures path != []
    ensures var last := path[|path| - 1];
            last == 'p' || last == 'h' || last == 'c' || last == 'P' || last == 'H' || last == 'C'
    ensures !IsWhitespace(path[|path| - 1])
    ensures Classify(path) == Source ==> '.' in path
  {
    var l := ToLower(path);
    HeaderGuard(l);
    SourceGuard(l);
    GuardedLast(l);
    var last := path[|path| - 1];
    assert l[|l| - 1] == AsciiLower(last);
    LowersToExtensionLetter(last);
    if Classify(path) == Source {
      var k := if EndsWith(l, ".cpp") then |l| - 4 else if EndsWith(l, ".cc") then |l| - 3 else |l| - 2;
      assert l[k] == '.';
      assert AsciiLower(path[k]) == '.';
      assert path[k] == '.';
    }
  }

  /** The order-preserving filter of `files` by role: what `categorize_files`
      appends to `header_files` (role Header) or `source_files` (role Source). */
  function Select(files: seq<string>, role: Role): seq<string>
  {
    if files == [] then []
    else (if Classify(files[0]) == role then [files[0]] else []) + Select(files[1..], role)
  }

  /** A path is selected exactly when it is in the input and has the role. */
  lemma {:induction false} SelectMembers(files: seq<string>, role: Role)
    ensures forall x :: x in Select(files, role) <==> x in files && Classify(x) == role
  {
    if files != [] {
      SelectMembers(files[1..], role);
      assert files == [files[0]] + files[1..];
    }
  }

  /** A single path is kept exactly when it has the role. */
  lemma SelectSingle(x: string, role: Role)
    ensures Select([x], role) == if Classify(x) == role then [x] else []
  {
    assert [x][1..] == [];
  }

  /** Selecting from a concatenation concatenates the selections: the relative
      order of the input is kept. */
  lemma {:induction false} SelectConcat(a: seq<string>, b: seq<string>, role: Role)
    ensures Select(a + b, role) == Select(a, role) + Select(b, role)
  {
    if a == [] {
      assert a + b == b;
    } else {
      assert (a + b)[1..] == a[1..] + b;
      SelectConcat(a[1..], b, role);
    }
  }

  /** Re-classifying what was selected changes nothing. */
  lemma {:induction false} SelectIdempotent(files: seq<string>, role: Role)
    ensures Select(Select(files, role), role) == Select(files, role)
  {
    if files != [] {
      SelectIdempotent(files[1..], role);
      var head := if Classify(files[0]) == role then [files[0]] else [];
      SelectConcat(head, Select(files[1..], role), role);
    }
  }

  /** Every file lands in exactly one of the three roles. */
  lemma {:induction false} SelectPartition(files: seq<string>)
    ensures multiset(Select(files, Header)) + multiset(Select(files, Source))
            + multiset(Select(files, Ignored)) == multiset(files)
  {
    if files != [] {
      SelectPartition(files[1..]);
      assert files == [files[0]] + files[1..];
    }
  }

  /** Headers and sources together never outnumber the input. */
  lemma HeadersAndSourcesBound(files: seq<string>)
    ensures |Select(files, Header)| + |Select(files, Source)| <= |files|
  {
    SelectPartition(files);
    assert |multiset(files)| == |files|;
  }

  /** The object path of one source: drop the text from its last '.', append
      ".o", drop the first path segment and put the rest under `outputDir`. */
  function ObjectPath(source: string, outputDir: string): Result<string, BuildError>
  {
    match RSplitOnce(source, '.')
    case None => Err(NoExtension(source))
    case Some((stem, _)) =>
      match SplitOnce(stem + ".o", '/')
      case None => Err(NoRootSegment(source))
      case Some((_, rest)) => Ok(outputDir + "/" + rest)
  }

  /** Without a '.' the extension is missing; with one, the only other failure
      is a stem without a '/'. An object path ends in ".o" and comes from a
      source with a '/'. */
  lemma ObjectPathSpec(source: string, outputDir: string)
    ensures var r := ObjectPath(source, outputDir);
            (r.Err? ==> r.error == if '.' in source then NoRootSegment(source) else NoExtension(source)) &&
            (r.Ok? ==> EndsWith(r.value, ".o") && '/' in source)
  {
    RSplitOnceSpec(source, '.');
    if RSplitOnce(source, '.').Some? {
      var (stem, ext) := RSplitOnce(source, '.').value;
      SplitOnceSpec(stem + ".o", '/');
      if SplitOnce(stem + ".o", '/').Some? {
        var (head, rest) := SplitOnce(stem + ".o", '/').value;
        assert |rest| >= 2;
        var r := outputDir + "/" + rest;
        assert r[|r| - 2..] == rest[|rest| - 2..] == ".o";
        assert stem[|head|] == '/';
        assert source[|head|] == '/';
      }
    }
  }

  /** An object path is made of the characters of the output directory, of
      the source, of '/', '.' and 'o'. */
  lemma ObjectPathChars(source: string, outputDir: string, c: char)
    requires ObjectPath(source, outputDir).Ok? && c in ObjectPath(source, outputDir).value
    ensures c in outputDir || c in source || c in "/.o"
  {
    var (stem, _) := RSplitOnce(source, '.').value;
    var (_, rest) := SplitOnce(stem + ".o", '/').value;
    assert ObjectPath(source, outputDir).value == outputDir + "/" + rest;
    assert rest == (stem + ".o")[|stem| + 2 - |rest|..];
    if c in rest {
      var k :| 0 <= k < |rest| && rest[k] == c;
      assert (stem + ".o")[|stem| + 2 - |rest| + k] == c;
    }
  }

  /** For `root/sub.ext` with a '/'-free root and a '.'-free extension, the
      object path is `outputDir/sub.o`: the root segment is replaced by the
      output directory and the rest of the sub-path is kept. */
  lemma ObjectPathOf(root: string, sub: string, ext: string, outputDir: string)
    requires '/' !in root && '.' !in ext
    ensures ObjectPath(root + "/" + sub + "." + ext, outputDir) == Ok(outputDir + "/" + sub + ".o")
  {
    var stem := root + "/" + sub;
    assert root + "/" + sub + "." + ext == stem + ['.'] + ext;
    RSplitOnceAt(stem, '.', ext);
    assert stem + ".o" == root + ['/'] + (sub + ".o");
    SplitOnceAt(root, '/', sub + ".o");
    assert outputDir + "/" + (sub + ".o") == outputDir + "/" + sub + ".o";
  }

  /** The extension plays no part in the object path: `root/foo.c` and
      `root/foo.cpp` share `outputDir/foo.o`. */
  lemma ObjectPathDropsExtension(root: string, sub: string, e1: string, e2: string, outputDir: string)
    requires '/' !in root && '.' !in e1 && '.' !in e2
    ensures ObjectPath(root + "/" + sub + "." + e1, outputDir) == ObjectPath(root + "/" + sub + "." + e2, outputDir)
  {
    ObjectPathOf(root, sub, e1, outputDir);
    ObjectPathOf(root, sub, e2, outputDir);
  }

  /** An object path exists exactly when some '/' of the source is followed,
      later on, by a '.'. */
  lemma ObjectPathDefined(source: string, outputDir: string)
    ensures ObjectPath(source, outputDir).Ok? <==>
            exists k :: 0 <= k < |source| && source[k] == '/' && '.' in source[k + 1..]
  {
    if ObjectPath(source, outputDir).Ok? {
      var k := SlashBeforeDot(source, outputDir);
    }
    if exists k :: 0 <= k < |source| && source[k] == '/' && '.' in source[k + 1..] {
      var k :| 0 <= k < |source| && source[k] == '/' && '.' in source[k + 1..];
      ObjectPathFromSlash(source, outputDir, k);
    }
  }

  lemma SlashBeforeDot(source: string, outputDir: string) returns (k: nat)
    requires ObjectPath(source, outputDir).Ok?
    ensures k < |source| && source[k] == '/' && '.' in source[k + 1..]
  {
    var (stem, ext) := RSplitOnce(source, '.').value;
    assert source == stem + ['.'] + ext;
    var fileName := stem + ".o";
    assert SplitOnce(fileName, '/').Some?;
    k := Find(fileName, '/').value;
    assert fileName[k] == '/';
    assert k < |stem|;
    assert source[k] == stem[k];
    assert source[k + 1..][|stem| - k - 1] == '.';
  }

  lemma ObjectPathFromSlash(source: string, outputDir: string, k: nat)
    requires k < |source| && source[k] == '/' && '.' in source[k + 1..]
    ensures ObjectPath(source, outputDir).Ok?
  {
    var j :| 0 <= j < |source[k + 1..]| && source[k + 1..][j] == '.';
    assert source[k + 1 + j] == '.';
    var (stem, ext) := RSplitOnce(source, '.').value;
    assert source == stem + ['.'] + ext;
    assert k + 1 + j <= |stem|;
    assert (stem + ".o")[k] == '/';
  }

  /** `create_object_files` as a value: one object path per source, in order,
      or the failure of the first source that has none. */
  function ObjectFiles(sources: seq<string>, outputDir: string): (r: Result<seq<string>, BuildError>)
    ensures r.Ok? <==> forall i :: 0 <= i < |sources| ==> ObjectPath(sources[i], outputDir).Ok?
    ensures r.Ok? ==> |r.value| == |sources|
    ensures r.Ok? ==> forall i :: 0 <= i < |sources| ==> ObjectPath(sources[i], outputDir) == Ok(r.value[i])
  {
    if sources == [] then Ok([])
    else
      match ObjectPath(sources[0], outputDir)
      case Err(e) => Err(e)
      case Ok(o) =>
        match ObjectFiles(sources[1..], outputDir)
        case Err(e) => Err(e)
        case Ok(os) => Ok([o] + os)
  }

  /** A list with the object path of each source, in order, is the mapping. */
  lemma ObjectFilesOf(sources: seq<string>, outputDir: string, objs: seq<string>)
    requires |objs| == |sources|
    requires forall i :: 0 <= i < |sources| ==> ObjectPath(sources[i], outputDir) == Ok(objs[i])
    ensures ObjectFiles(sources, outputDir) == Ok(objs)
  {
    assert ObjectFiles(sources, outputDir).Ok?;
    var r := ObjectFiles(sources, outputDir).value;
    assert forall i :: 0 <= i < |sources| ==> r[i] == objs[i];
    assert r == objs;
  }

  /** A failing mapping reports the failure of the first source that has no
      object path. */
  lemma {:induction false} ObjectFilesFirstError(sources: seq<string>, outputDir: string, i: nat)
    requires i < |sources| && ObjectPath(sources[i], outputDir).Err?
    requires forall j :: 0 <= j < i ==> ObjectPath(sources[j], outputDir).Ok?
    ensures ObjectFiles(sources, outputDir) == Err(ObjectPath(sources[i], outputDir).error)
  {
    if i > 0 {
      var tail := sources[1..];
      assert tail[i - 1] == sources[i];
      assert forall j :: 0 <= j < i - 1 ==> tail[j] == sources[j + 1];
      ObjectFilesFirstError(tail, outputDir, i - 1);
      assert ObjectPath(sources[0], outputDir).Ok?;
    }
  }

  /** The comment line above each variable, in order. */
  const Comments: seq<string> :=
    [ "# Object files:", "# Header files:", "# Source files:",
      "# Executable name, run the program with ./a.o", "# Compiler flags:", "# Compiler:" ]

  /** The six variable bindings `create_variables` builds, before trimming;
      `root` is the include directory. */
  function Bindings(objs: seq<string>, headers: seq<string>, sources: seq<string>, root: string): (r: seq<string>)
    ensures |r| == 6
  {
    [ "OBJS    = " + Join(objs, " "), "HEADERS = " + Join(headers, " "), "SOURCES = " + Join(sources, " "),
      "OUT     = a.o", "FLAGS   = -g -c -Wall " + "-I" + root, "CC      = " + "cc" ]
  }

  /** Every string trimmed, in order. */
  function TrimAll(xs: seq<string>): (r: seq<string>)
    ensures |r| == |xs|
  {
    if xs == [] then [] else [Trim(xs[0])] + TrimAll(xs[1..])
  }

  lemma {:induction false} TrimAllAt(xs: seq<string>, i: nat)
    requires i < |xs|
    ensures TrimAll(xs)[i] == Trim(xs[i])
  {
    if i > 0 {
      TrimAllAt(xs[1..], i - 1);
    }
  }

  /** Each comment line followed by its value line. */
  function Interleave(cs: seq<string>, vs: seq<string>): (r: seq<string>)
    requires |cs| == |vs|
    ensures |r| == 2 * |cs|
  {
    if cs == [] then [] else [cs[0], vs[0]] + Interleave(cs[1..], vs[1..])
  }

  lemma {:induction false} InterleaveAt(cs: seq<string>, vs: seq<string>, k: nat)
    requires |cs| == |vs| && k < |cs|
    ensures Interleave(cs, vs)[2 * k] == cs[k] && Interleave(cs, vs)[2 * k + 1] == vs[k]
  {
    if k > 0 {
      InterleaveAt(cs[1..], vs[1..], k - 1);
    }
  }

  /** The text `create_variables` stores: each comment line followed by its
      trimmed binding, the twelve lines separated (not terminated) by '\n'. */
  function MakefileText(objs: seq<string>, headers: seq<string>, sources: seq<string>, root: string): string
  {
    Join(Interleave(Comments, TrimAll(Bindings(objs, headers, sources, root))), "\n")
  }

  /** `create_variables` as a value: the include root is the text of the first
      source before its first '/'. */
  function Variables(objs: seq<string>, headers: seq<string>, sources: seq<string>): (r: Result<string, BuildError>)
    ensures r.Err? <==> sources == [] || '/' !in sources[0]
    ensures r.Err? ==> r.error == if sources == [] then NoSourceFiles else NoRootSegment(sources[0])
  {
    if sources == [] then Err(NoSourceFiles)
    else
      match SplitOnce(sources[0], '/')
      case None => Err(NoRootSegment(sources[0]))
      case Some((root, _)) => Ok(MakefileText(objs, headers, sources, root))
  }

  /** An entry that trimming and line splitting leave intact. */
  predicate Clean(x: string)
  {
    x != [] && !IsWhitespace(x[|x| - 1]) && '\n' !in x
  }

  /** Every entry of `xs` is clean (stated recursively, so that the solver
      unfolds it only on demand). */
  predicate AllClean(xs: seq<string>)
  {
    xs == [] || (Clean(xs[0]) && AllClean(xs[1..]))
  }

  lemma {:induction false} AllCleanAt(xs: seq<string>, i: nat)
    requires AllClean(xs) && i < |xs|
    ensures Clean(xs[i])
  {
    if i > 0 {
      AllCleanAt(xs[1..], i - 1);
    }
  }

  lemma {:induction false} AllCleanOf(xs: seq<string>)
    requires forall i :: 0 <= i < |xs| ==> Clean(xs[i])
    ensures AllClean(xs)
  {
    if xs != [] {
      assert forall i :: 0 <= i < |xs| - 1 ==> xs[1..][i] == xs[i + 1];
      AllCleanOf(xs[1..]);
    }
  }

  /** A variable line as it reads once trimmed, for clean entries: the entries
      joined by single spaces, or the bare `NAME =` when there are none. */
  function BindingLine(prefix: string, xs: seq<string>): string
  {
    if xs == [] then TrimEnd(prefix) else prefix + Join(xs, " ")
  }

  /** The six variable lines as they read once trimmed, for clean entries. */
  function Values(objs: seq<string>, headers: seq<string>, sources: seq<string>, root: string): (r: seq<string>)
    ensures |r| == 6
  {
    [ BindingLine("OBJS    = ", objs), BindingLine("HEADERS = ", headers), BindingLine("SOURCES = ", sources),
      "OUT     = a.o", "FLAGS   = -g -c -Wall -I" + TrimEnd(root), "CC      = cc" ]
  }

  /** The twelve lines of the variable block, in order. */
  function MakefileLines(objs: seq<string>, headers: seq<string>, sources: seq<string>, root: string): seq<string>
  {
    Interleave(Comments, Values(objs, headers, sources, root))
  }

  /** The shape of the `NAME = ` prefixes: a visible first character, a
      visible character before the final space, and no line break. */
  predicate BindingPrefix(prefix: string)
  {
    |prefix| >= 2 && !IsWhitespace(prefix[0]) && !IsWhitespace(prefix[|prefix| - 2]) &&
    prefix[|prefix| - 1] == ' ' && '\n' !in prefix
  }

  lemma Prefixes()
    ensures BindingPrefix("OBJS    = ") && BindingPrefix("HEADERS = ") && BindingPrefix("SOURCES = ")
  {
  }

  /** Trimming a binding line of clean entries drops the final space of the
      prefix when there are no entries, and nothing otherwise. */
  lemma {:induction false} TrimBinding(prefix: string, xs: seq<string>)
    requires BindingPrefix(prefix)
    requires AllClean(xs)
    ensures Trim(prefix + Join(xs, " ")) == BindingLine(prefix, xs)
    ensures '\n' !in BindingLine(prefix, xs)
  {
    forall i | 0 <= i < |xs| ensures Clean(xs[i]) {
      AllCleanAt(xs, i);
    }
    if xs == [] {
      var p := prefix[..|prefix| - 1];
      assert prefix == p + " ";
      TrimAfter(p, " ");
      assert TrimEnd(" ") == "";
      TrimEndAfter(p, " ");
      assert prefix + Join(xs, " ") == prefix;
    } else {
      JoinLast(xs, " ");
      var s := prefix + Join(xs, " ");
      assert s[0] == prefix[0];
      TrimClean(s);
      JoinChars(xs, " ", '\n');
    }
  }

  lemma TrimFlags(root: string)
    ensures Trim("FLAGS   = -g -c -Wall " + "-I" + root) == "FLAGS   = -g -c -Wall -I" + TrimEnd(root)
  {
    var flags := "FLAGS   = -g -c -Wall -I";
    assert "FLAGS   = -g -c -Wall " + "-I" + root == flags + root;
    TrimAfter(flags, root);
  }

  lemma TrimCompiler()
    ensures Trim("CC      = " + "cc") == "CC      = cc"
  {
    assert "CC      = " + "cc" == "CC      = cc";
    TrimClean("CC      = cc");
  }

  /** For clean entries, trimming the bindings leaves exactly the value lines. */
  lemma TrimmedValues(objs: seq<string>, headers: seq<string>, sources: seq<string>, root: string)
    requires AllClean(objs) && AllClean(headers) && AllClean(sources)
    ensures TrimAll(Bindings(objs, headers, sources, root)) == Values(objs, headers, sources, root)
  {
    var b := Bindings(objs, headers, sources, root);
    Prefixes();
    TrimBinding("OBJS    = ", objs);
    TrimBinding("HEADERS = ", headers);
    TrimBinding("SOURCES = ", sources);
    TrimClean("OUT     = a.o");
    TrimFlags(root);
    TrimCompiler();
    forall i | 0 <= i < 6 ensures TrimAll(b)[i] == Values(objs, headers, sources, root)[i] {
      TrimAllAt(b, i);
    }
  }

  /** No value line breaks a line, for clean entries and a root without a
      line break. */
  lemma ValueHasNoBreak(objs: seq<string>, headers: seq<string>, sources: seq<string>, root: string, i: nat)
    requires AllClean(objs) && AllClean(headers) && AllClean(sources)
    requires '\n' !in root
    requires i < 6
    ensures '\n' !in Values(objs, headers, sources, root)[i]
  {
    Prefixes();
    if i == 0 {
      TrimBinding("OBJS    = ", objs);
    } else if i == 1 {
      TrimBinding("HEADERS = ", headers);
    } else if i == 2 {
      TrimBinding("SOURCES = ", sources);
    } else if i == 4 {
      TrimEndSpec(root);
    }
  }

  /** No comment line breaks a line. */
  lemma CommentHasNoBreak(i: nat)
    requires i < 6
    ensures '\n' !in Comments[i]
  {
  }

  /** Read line by line, the rendered text is exactly the twelve lines of
      `MakefileLines`, provided every entry is clean (non-empty, not ending in
      whitespace, without a line break) and the root holds no line break. */
  lemma RenderedLines(objs: seq<string>, headers: seq<string>, sources: seq<string>, root: string)
    requires AllClean(objs) && AllClean(headers) && AllClean(sources)
    requires '\n' !in root
    ensures Split(MakefileText(objs, headers, sources, root), '\n') == MakefileLines(objs, headers, sources, root)
  {
    TrimmedValues(objs, headers, sources, root);
    var values := Values(objs, headers, sources, root);
    var lines := MakefileLines(objs, headers, sources, root);
    forall j | 0 <= j < |lines| ensures '\n' !in lines[j] {
      InterleaveAt(Comments, values, j / 2);
      CommentHasNoBreak(j / 2);
      ValueHasNoBreak(objs, headers, sources, root, j / 2);
    }
    SplitJoin(lines, '\n');
  }

  /** What a freshly created `Cpp` holds in `makefile` after `build`, or the
      reason the pass aborts. */
  function Generate(files: seq<string>, outputDir: string): Result<string, BuildError>
  {
    var sources := Select(files, Source);
    match ObjectFiles(sources, outputDir)
    case Err(e) => Err(e)
    case Ok(objs) => Variables(objs, Select(files, Header), sources)
  }

  /** A failing mapping fails with the error of one of its sources. */
  lemma {:induction false} ObjectFilesErrorOf(sources: seq<string>, outputDir: string) returns (s: string)
    requires ObjectFiles(sources, outputDir).Err?
    ensures s in sources && ObjectPath(s, outputDir) == Err(ObjectFiles(sources, outputDir).error)
  {
    if ObjectPath(sources[0], outputDir).Err? {
      s := sources[0];
    } else {
      s := ObjectFilesErrorOf(sources[1..], outputDir);
    }
  }

  /** The pass succeeds exactly when there is a source and every source has an
      object path. */
  lemma GenerateOutcome(files: seq<string>, outputDir: string)
    ensures var sources := Select(files, Source);
            Generate(files, outputDir).Ok? <==>
              sources != [] && forall i :: 0 <= i < |sources| ==> ObjectPath(sources[i], outputDir).Ok?
  {
    var sources := Select(files, Source);
    if sources != [] && ObjectFiles(sources, outputDir).Ok? {
      assert ObjectPath(sources[0], outputDir).Ok?;
      ObjectPathSpec(sources[0], outputDir);
    }
  }

  /** A failing pass fails for want of a source exactly when there is none;
      otherwise it fails on a source without a root segment, never for want
      of a '.'. */
  lemma GenerateError(files: seq<string>, outputDir: string)
    requires Generate(files, outputDir).Err?
    ensures var sources := Select(files, Source);
            var e := Generate(files, outputDir).error;
            (e == NoSourceFiles <==> sources == []) &&
            (sources != [] ==> e.NoRootSegment? && e.path in sources)
  {
    var sources := Select(files, Source);
    if ObjectFiles(sources, outputDir).Err? {
      var s := ObjectFilesErrorOf(sources, outputDir);
      SelectMembers(files, Source);
      ClassifiedShape(s);
      ObjectPathSpec(s, outputDir);
    } else if sources != [] {
      assert ObjectPath(sources[0], outputDir).Ok?;
      ObjectPathSpec(sources[0], outputDir);
    }
  }

  /** Selected files are clean when no file name holds a line break. */
  lemma SelectClean(files: seq<string>, role: Role)
    requires forall i :: 0 <= i < |files| ==> '\n' !in files[i]
    requires role != Ignored
    ensures AllClean(Select(files, role))
  {
    var xs := Select(files, role);
    SelectMembers(files, role);
    forall i | 0 <= i < |xs| ensures Clean(xs[i]) {
      assert xs[i] in files;
      ClassifiedShape(xs[i]);
    }
    AllCleanOf(xs);
  }

  /** Object paths are clean when neither the sources nor the output
      directory hold a line break. */
  lemma ObjectFilesClean(sources: seq<string>, outputDir: string)
    requires forall i :: 0 <= i < |sources| ==> '\n' !in sources[i]
    requires '\n' !in outputDir
    requires ObjectFiles(sources, outputDir).Ok?
    ensures AllClean(ObjectFiles(sources, outputDir).value)
  {
    var objs := ObjectFiles(sources, outputDir).value;
    forall i | 0 <= i < |objs| ensures Clean(objs[i]) {
      ObjectPathClean(sources[i], outputDir);
    }
    AllCleanOf(objs);
  }

  lemma ObjectPathClean(source: string, outputDir: string)
    requires '\n' !in source && '\n' !in outputDir
    requires ObjectPath(source, outputDir).Ok?
    ensures Clean(ObjectPath(source, outputDir).value)
  {
    var o := ObjectPath(source, outputDir).value;
    assert o[|o| - 1] == 'o';
    if '\n' in o {
      ObjectPathChars(source, outputDir, '\n');
    }
  }

  /** On success the text reads, line by line, as the twelve lines of the
      variable block over the selected files and their object paths, as long as
      no file name and not the output directory contains a line break. */
  lemma GenerateLines(files: seq<string>, outputDir: string)
    requires forall i :: 0 <= i < |files| ==> '\n' !in files[i]
    requires '\n' !in outputDir
    requires Generate(files, outputDir).Ok?
    ensures var sources := Select(files, Source);
            sources != [] && ObjectFiles(sources, outputDir).Ok? && '/' in sources[0] &&
            Split(Generate(files, outputDir).value, '\n')
              == MakefileLines(ObjectFiles(sources, outputDir).value, Select(files, Header), sources,
                               SplitOnce(sources[0], '/').value.0)
  {
    var sources := Select(files, Source);
    var headers := Select(files, Header);
    var objs := ObjectFiles(sources, outputDir).value;
    SelectClean(files, Header);
    SelectClean(files, Source);
    SelectMembers(files, Source);
    assert forall i :: 0 <= i < |sources| ==> sources[i] in files;
    ObjectFilesClean(sources, outputDir);
    SplitOnceSpec(sources[0], '/');
    var (root, rest) := SplitOnce(sources[0], '/').value;
    assert sources[0] == root + ['/'] + rest;
    assert '\n' !in root;
    RenderedLines(objs, headers, sources, root);
  }

  /** The C/C++ Makefile generator. Each phase appends to its fields. */
  class Cpp {
    const files: seq<string>
    const outputDir: string
    var headerFiles: seq<string>
    var sourceFiles: seq<string>
    var objFiles: seq<string>
    var makefile: string

    /** `Maker::new`. */
    constructor (files: seq<string>, outputDir: string)
      ensures this.files == files && this.outputDir == outputDir
      ensures headerFiles == [] && sourceFiles == [] && objFiles == [] && makefile == ""
    {
      this.files := files;
      this.outputDir := outputDir;
      headerFiles := [];
      sourceFiles := [];
      objFiles := [];
      makefile := "";
    }

    /** `Maker::build`: the three phases in order; a failing phase ends the pass. */
    method Build() returns (outcome: Outcome<BuildError>)
      modifies this
      ensures headerFiles == old(headerFiles) + Select(files, Header)
      ensures sourceFiles == old(sourceFiles) + Select(files, Source)
      ensures match ObjectFiles(sourceFiles, outputDir)
              case Err(e) => outcome == Fail(e) && old(objFiles) <= objFiles && makefile == old(makefile)
              case Ok(objs) =>
                objFiles == old(objFiles) + objs &&
                match Variables(objFiles, headerFiles, sourceFiles)
                case Err(e) => outcome == Fail(e) && makefile == old(makefile)
                case Ok(text) => outcome == Pass && makefile == text
    {
      CategorizeFiles();
      outcome := CreateObjectFiles();
      if outcome.Fail? {
        return;
      }
      outcome := CreateVariables();
    }

    /** `Maker::dump`. */
    method Dump() returns (text: string)
      ensures text == makefile
    {
      text := makefile;
    }

    /** `categorize_files`. */
    method CategorizeFiles()
      modifies this`headerFiles, this`sourceFiles
      ensures headerFiles == old(headerFiles) + Select(files, Header)
      ensures sourceFiles == old(sourceFiles) + Select(files, Source)
    {
      for i := 0 to |files|
        invariant headerFiles == old(headerFiles) + Select(files[..i], Header)
        invariant sourceFiles == old(sourceFiles) + Select(files[..i], Source)
      {
        var file := files[i];
        assert files[..i + 1] == files[..i] + [file];
        SelectConcat(files[..i], [file], Header);
        SelectConcat(files[..i], [file], Source);
        if EndsWithAny(ToLower(file), HeaderEndings) {
          headerFiles := headerFiles + [file];
        } else if EndsWithAny(ToLower(file), SourceEndings) {
          sourceFiles := sourceFiles + [file];
        }
      }
      assert files[..|files|] == files;
    }

    /** `create_object_files`. */
    method CreateObjectFiles() returns (outcome: Outcome<BuildError>)
      modifies this`objFiles
      ensures match ObjectFiles(sourceFiles, outputDir)
              case Ok(objs) => outcome == Pass && objFiles == old(objFiles) + objs
              case Err(e) => outcome == Fail(e) && old(objFiles) <= objFiles
    {
      var sources := sourceFiles;
      ghost var pushed: seq<string> := [];
      for i := 0 to |sources|
        invariant objFiles == old(objFiles) + pushed && |pushed| == i
        invariant forall k :: 0 <= k < i ==> ObjectPath(sources[k], outputDir) == Ok(pushed[k])
      {
        var objFile := ObjectPath(sources[i], outputDir);
        if objFile.Err? {
          ObjectFilesFirstError(sources, outputDir, i);
          return Fail(objFile.error);
        }
        objFiles := objFiles + [objFile.value];
        pushed := pushed + [objFile.value];
      }
      ObjectFilesOf(sources, outputDir, pushed);
      outcome := Pass;
    }

    /** `create_variables`. */
    method CreateVariables() returns (outcome: Outcome<BuildError>)
      modifies this`makefile
      ensures match Variables(objFiles, headerFiles, sourceFiles)
              case Ok(text) => outcome == Pass && makefile == text
              case Err(e) => outcome == Fail(e) && makefile == old(makefile)
    {
      var text := Variables(objFiles, headerFiles, sourceFiles);
      if text.Err? {
        return Fail(text.error);
      }
      makefile := text.value;
      outcome := Pass;
    }
  }

  /** The `Maker` protocol for C/C++ (`new`, `build`, then `dump`) on a fresh
      generator: the text is `Generate`'s, or the pass fails with its error
      and leaves the text empty. */
  method Make(files: seq<string>, outputDir: string) returns (outcome: Outcome<BuildError>, text: string)
    ensures match Generate(files, outputDir)
            case Ok(t) => outcome == Pass && text == t
            case Err(e) => outcome == Fail(e) && text == ""
  {
    var maker := new Cpp(files, outputDir);
    outcome := maker.Build();
    assert maker.headerFiles == Select(files, Header) && maker.sourceFiles == Select(files, Source);
    text := maker.Dump();
    if outcome.Pass? {
      assert maker.objFiles == ObjectFiles(maker.sourceFiles, outputDir).value;
    }
  }
}
