/** The directory walker (`Walker` in src/walker.rs): a depth-first listing of
    the files under a list of roots that prunes every sub-directory whose bare
    name is on the ignore list. The file system is an abstract tree. */
module DirWalk {

  import opened Results

  /** One entry of a directory listing, in listing order. */
  datatype Node =
    | File(name: string)                         // anything that is not a directory
    | Dir(name: string, entries: seq<Node>)      // a readable sub-directory and its listing
    | UnreadableDir(name: string)                // a sub-directory whose `read_dir` fails
    | BadEntry                                   // an entry the listing, `metadata` or `to_str` fails on

  /** The listing of every readable root path; a path that is not a key cannot be read. */
  type FileSystem = map<string, seq<Node>>

  /** The two aborts of `walk_recursive`. */
  datatype WalkError =
    | CannotReadDir(path: string)   // `read_dir(path).expect(..)`
    | BadEntryIn(dir: string)       // `panic!` on an erroring entry, or a failing `unwrap`

  /** `DirEntry::path`: the entry's name pushed onto the directory path, with a
      '/' in between unless the directory path is empty or already ends in one. */
  function JoinPath(dir: string, name: string): (r: string)
    ensures r == dir + name || r == dir + "/" + name
    ensures |r| >= |dir| + |name|
  {
    if dir == [] || dir[|dir| - 1] == '/' then dir + name else dir + "/" + name
  }

  /** The walker: the roots to list, in order, and the bare directory names to skip. */
  datatype Walker = Walker(paths: seq<string>, ignoreDirs: seq<string>)
  {
    /** `dir_is_ignored`: exact, case-sensitive membership of the bare name. */
    predicate DirIsIgnored(name: string)
    {
      name in ignoreDirs
    }

    /** What one entry of the listing of `dir` contributes. */
    function FilesOfEntry(dir: string, e: Node): Result<seq<string>, WalkError>
      decreases e
    {
      match e
      case File(n) => Ok([JoinPath(dir, n)])
      case Dir(n, es) => if DirIsIgnored(n) then Ok([]) else FilesOfEntries(JoinPath(dir, n), es)
      case UnreadableDir(n) => if DirIsIgnored(n) then Ok([]) else Err(CannotReadDir(JoinPath(dir, n)))
      case BadEntry => Err(BadEntryIn(dir))
    }

    /** `walk_recursive` after its `read_dir`: the contributions of the entries
        of `dir`, in listing order, up to the first failure. */
    function FilesOfEntries(dir: string, es: seq<Node>): Result<seq<string>, WalkError>
      decreases es
    {
      if es == [] then Ok([]) else Then(FilesOfEntry(dir, es[0]), FilesOfEntries(dir, es[1..]))
    }

    /** `walk_recursive(path)`. */
    function FilesUnder(fs: FileSystem, path: string): Result<seq<string>, WalkError>
    {
      if path in fs then FilesOfEntries(path, fs[path]) else Err(CannotReadDir(path))
    }

    /** `walk` over the roots `ps`, in order, up to the first failure. */
    function FilesOfPaths(fs: FileSystem, ps: seq<string>): Result<seq<string>, WalkError>
    {
      if ps == [] then Ok([]) else Then(FilesUnder(fs, ps[0]), FilesOfPaths(fs, ps[1..]))
    }

    /** `walk`: one root at a time, extending `files`. */
    method Walk(fs: FileSystem) returns (r: Result<seq<string>, WalkError>)
      ensures r == FilesOfPaths(fs, paths)
    {
      var files: seq<string> := [];
      ThenUnit(FilesOfPaths(fs, paths));
      assert paths[0..] == paths;
      for i := 0 to |paths|
        invariant FilesOfPaths(fs, paths) == Then(Ok(files), FilesOfPaths(fs, paths[i..]))
      {
        assert paths[i..][1..] == paths[i + 1..];
        var listed := WalkRecursive(fs, paths[i]);
        ThenAssociative(Ok(files), listed, FilesOfPaths(fs, paths[i + 1..]));
        if listed.Err? {
          return listed;
        }
        files := files + listed.value;
      }
      assert paths[|paths|..] == [];
      ThenUnit<string, WalkError>(Ok(files));
      r := Ok(files);
    }

    /** `walk_recursive`: read the directory, then list it. */
    method WalkRecursive(fs: FileSystem, path: string) returns (r: Result<seq<string>, WalkError>)
      ensures r == FilesUnder(fs, path)
    {
      if path !in fs {
        return Err(CannotReadDir(path));
      }
      r := WalkDir(path, fs[path]);
    }

    /** The loop of `walk_recursive` over the entries of `dir`: push a file,
        recurse into a directory that is not ignored, abort on a failure. */
    method WalkDir(dir: string, entries: seq<Node>) returns (r: Result<seq<string>, WalkError>)
      ensures r == FilesOfEntries(dir, entries)
      decreases entries
    {
      var repo: seq<string> := [];
      ThenUnit(FilesOfEntries(dir, entries));
      assert entries[0..] == entries;
      for k := 0 to |entries|
        invariant FilesOfEntries(dir, entries) == Then(Ok(repo), FilesOfEntries(dir, entries[k..]))
      {
        var e := entries[k];
        assert entries[k..][1..] == entries[k + 1..];
        var rest := FilesOfEntries(dir, entries[k + 1..]);
        ThenAssociative(Ok(repo), FilesOfEntry(dir, e), rest);
        match e {
          case File(n) =>
            repo := repo + [JoinPath(dir, n)];
          case Dir(n, es) =>
            if !DirIsIgnored(n) {
              var sub := WalkDir(JoinPath(dir, n), es);
              if sub.Err? {
                return sub;
              }
              repo := repo + sub.value;
            } else {
              ThenUnit(rest);
            }
          case UnreadableDir(n) =>
            if !DirIsIgnored(n) {
              return Err(CannotReadDir(JoinPath(dir, n)));
            }
            ThenUnit(rest);
          case BadEntry =>
            return Err(BadEntryIn(dir));
        }
      }
      assert entries[|entries|..] == [];
      ThenUnit<string, WalkError>(Ok(repo));
      r := Ok(repo);
    }

    /** Listing a concatenation of entries lists each part in turn. */
    lemma {:induction false} FilesOfEntriesConcat(dir: string, a: seq<Node>, b: seq<Node>)
      ensures FilesOfEntries(dir, a + b) == Then(FilesOfEntries(dir, a), FilesOfEntries(dir, b))
    {
      if a == [] {
        assert a + b == b;
        ThenUnit(FilesOfEntries(dir, b));
      } else {
        assert (a + b)[1..] == a[1..] + b;
        FilesOfEntriesConcat(dir, a[1..], b);
        ThenAssociative(FilesOfEntry(dir, a[0]), FilesOfEntries(dir, a[1..]), FilesOfEntries(dir, b));
      }
    }

    /** An entry contributes its own listing at its own position among its siblings. */
    lemma FilesOfEntriesAround(dir: string, before: seq<Node>, e: Node, after: seq<Node>)
      ensures FilesOfEntries(dir, before + [e] + after) ==
              Then(FilesOfEntries(dir, before), Then(FilesOfEntry(dir, e), FilesOfEntries(dir, after)))
    {
      FilesOfEntriesConcat(dir, before, [e] + after);
      assert before + [e] + after == before + ([e] + after);
      assert ([e] + after)[1..] == after;
    }

    /** A file is listed as its path, in place. */
    lemma FileInPlace(dir: string, before: seq<Node>, n: string, after: seq<Node>)
      ensures FilesOfEntries(dir, before + [File(n)] + after) ==
              Then(FilesOfEntries(dir, before), Then(Ok([JoinPath(dir, n)]), FilesOfEntries(dir, after)))
    {
      FilesOfEntriesAround(dir, before, File(n), after);
    }

    /** A directory that is not ignored is replaced, in place, by its whole listing. */
    lemma ExpandInPlace(dir: string, before: seq<Node>, n: string, es: seq<Node>, after: seq<Node>)
      requires !DirIsIgnored(n)
      ensures FilesOfEntries(dir, before + [Dir(n, es)] + after) ==
              Then(FilesOfEntries(dir, before), Then(FilesOfEntries(JoinPath(dir, n), es), FilesOfEntries(dir, after)))
    {
      FilesOfEntriesAround(dir, before, Dir(n, es), after);
    }

    /** An ignored directory contributes nothing, whatever lies under it, even
        entries that would fail or a listing that cannot be read. */
    lemma PruneIgnored(dir: string, before: seq<Node>, d: Node, after: seq<Node>)
      requires (d.Dir? || d.UnreadableDir?) && DirIsIgnored(d.name)
      ensures FilesOfEntries(dir, before + [d] + after) == FilesOfEntries(dir, before + after)
    {
      FilesOfEntriesAround(dir, before, d, after);
      ThenUnit(FilesOfEntries(dir, after));
      FilesOfEntriesConcat(dir, before, after);
    }

    /** Walking a concatenation of roots walks each part in turn. */
    lemma {:induction false} FilesOfPathsConcat(fs: FileSystem, a: seq<string>, b: seq<string>)
      ensures FilesOfPaths(fs, a + b) == Then(FilesOfPaths(fs, a), FilesOfPaths(fs, b))
    {
      if a == [] {
        assert a + b == b;
        ThenUnit(FilesOfPaths(fs, b));
      } else {
        assert (a + b)[1..] == a[1..] + b;
        FilesOfPathsConcat(fs, a[1..], b);
        ThenAssociative(FilesUnder(fs, a[0]), FilesOfPaths(fs, a[1..]), FilesOfPaths(fs, b));
      }
    }

    /** The file path `p` is found from the entry `e` of `dir` without entering
        an ignored directory. */
    predicate EntryReaches(dir: string, e: Node, p: string)
      decreases e
    {
      match e
      case File(n) => p == JoinPath(dir, n)
      case Dir(n, es) => !DirIsIgnored(n) && Reaches(JoinPath(dir, n), es, p)
      case UnreadableDir(_) => false
      case BadEntry => false
    }

    /** The file path `p` is found from some entry of `dir`. */
    predicate Reaches(dir: string, es: seq<Node>, p: string)
      decreases es
    {
      exists k :: 0 <= k < |es| && EntryReaches(dir, es[k], p)
    }

    /** Nothing the walk enters fails: no erroring entry, and every unreadable
        directory is ignored. */
    predicate EntryHealthy(e: Node)
      decreases e
    {
      match e
      case File(_) => true
      case Dir(n, es) => DirIsIgnored(n) || Healthy(es)
      case UnreadableDir(n) => DirIsIgnored(n)
      case BadEntry => false
    }

    predicate Healthy(es: seq<Node>)
      decreases es
    {
      forall k :: 0 <= k < |es| ==> EntryHealthy(es[k])
    }

    lemma ReachesCons(dir: string, es: seq<Node>, p: string)
      requires es != []
      ensures Reaches(dir, es, p) <==> EntryReaches(dir, es[0], p) || Reaches(dir, es[1..], p)
    {
      if Reaches(dir, es, p) && !EntryReaches(dir, es[0], p) {
        var k :| 0 <= k < |es| && EntryReaches(dir, es[k], p);
        assert es[1..][k - 1] == es[k];
      }
      if Reaches(dir, es[1..], p) {
        var k :| 0 <= k < |es[1..]| && EntryReaches(dir, es[1..][k], p);
        assert es[k + 1] == es[1..][k];
      }
    }

    lemma HealthyCons(es: seq<Node>)
      requires es != []
      ensures Healthy(es) <==> EntryHealthy(es[0]) && Healthy(es[1..])
    {
      if EntryHealthy(es[0]) && Healthy(es[1..]) {
        forall k | 0 <= k < |es| ensures EntryHealthy(es[k]) {
          if k > 0 {
            assert es[k] == es[1..][k - 1];
          }
        }
      }
    }

    /** An entry lists without failure exactly when it is healthy. */
    lemma {:induction false} EntryOkIffHealthy(dir: string, e: Node)
      ensures FilesOfEntry(dir, e).Ok? <==> EntryHealthy(e)
      decreases e
    {
      if e.Dir? && !DirIsIgnored(e.name) {
        EntriesOkIffHealthy(JoinPath(dir, e.name), e.entries);
      }
    }

    /** A listing lists without failure exactly when all its entries are healthy. */
    lemma {:induction false} EntriesOkIffHealthy(dir: string, es: seq<Node>)
      ensures FilesOfEntries(dir, es).Ok? <==> Healthy(es)
      decreases es
    {
      if es != [] {
        EntryOkIffHealthy(dir, es[0]);
        EntriesOkIffHealthy(dir, es[1..]);
        HealthyCons(es);
      }
    }

    /** What an entry lists is exactly the files reachable from it. */
    lemma {:induction false} EntrySoundComplete(dir: string, e: Node)
      requires FilesOfEntry(dir, e).Ok?
      ensures forall p :: p in FilesOfEntry(dir, e).value <==> EntryReaches(dir, e, p)
      decreases e
    {
      if e.Dir? && !DirIsIgnored(e.name) {
        EntriesSoundComplete(JoinPath(dir, e.name), e.entries);
      }
    }

    /** What a listing lists is exactly the files reachable from its entries. */
    lemma {:induction false} EntriesSoundComplete(dir: string, es: seq<Node>)
      requires FilesOfEntries(dir, es).Ok?
      ensures forall p :: p in FilesOfEntries(dir, es).value <==> Reaches(dir, es, p)
      decreases es
    {
      if es != [] {
        EntrySoundComplete(dir, es[0]);
        EntriesSoundComplete(dir, es[1..]);
        forall p ensures p in FilesOfEntries(dir, es).value <==> Reaches(dir, es, p) {
          ReachesCons(dir, es, p);
        }
      }
    }

    /** The root `r` can be read and everything walked under it is healthy. */
    predicate RootHealthy(fs: FileSystem, r: string)
    {
      r in fs && Healthy(fs[r])
    }

    /** The file path `p` is found under the root `r`. */
    predicate RootReaches(fs: FileSystem, r: string, p: string)
    {
      r in fs && Reaches(r, fs[r], p)
    }

    /** The walk over `ps` succeeds exactly when every root can be read and is healthy. */
    lemma {:induction false} PathsOkIffHealthy(fs: FileSystem, ps: seq<string>)
      ensures FilesOfPaths(fs, ps).Ok? <==> forall i :: 0 <= i < |ps| ==> RootHealthy(fs, ps[i])
    {
      if ps != [] {
        PathsOkIffHealthy(fs, ps[1..]);
        if ps[0] in fs {
          EntriesOkIffHealthy(ps[0], fs[ps[0]]);
        }
        if forall i :: 0 <= i < |ps[1..]| ==> RootHealthy(fs, ps[1..][i]) {
          forall i | 0 < i < |ps| ensures RootHealthy(fs, ps[i]) || !RootHealthy(fs, ps[0]) {
            assert ps[i] == ps[1..][i - 1];
          }
        }
      }
    }

    /** A successful walk over `ps` lists exactly the files found under its roots. */
    lemma {:induction false} PathsSoundComplete(fs: FileSystem, ps: seq<string>)
      requires FilesOfPaths(fs, ps).Ok?
      ensures forall p :: p in FilesOfPaths(fs, ps).value <==>
                exists i :: 0 <= i < |ps| && RootReaches(fs, ps[i], p)
    {
      if ps != [] {
        PathsSoundComplete(fs, ps[1..]);
        EntriesSoundComplete(ps[0], fs[ps[0]]);
        forall p | exists i :: 0 <= i < |ps| && RootReaches(fs, ps[i], p)
          ensures p in FilesOfPaths(fs, ps).value
        {
          var i :| 0 <= i < |ps| && RootReaches(fs, ps[i], p);
          if i > 0 {
            assert ps[1..][i - 1] == ps[i];
          }
        }
        forall p | p in FilesOfPaths(fs, ps[1..]).value
          ensures exists i :: 0 <= i < |ps| && RootReaches(fs, ps[i], p)
        {
          var i :| 0 <= i < |ps[1..]| && RootReaches(fs, ps[1..][i], p);
          assert ps[i + 1] == ps[1..][i];
        }
      }
    }

    /** `walk` succeeds exactly when every root is readable and healthy, and then
        lists exactly the files found under the roots. */
    lemma WalkCorrect(fs: FileSystem)
      ensures FilesOfPaths(fs, paths).Ok? <==> forall i :: 0 <= i < |paths| ==> RootHealthy(fs, paths[i])
      ensures FilesOfPaths(fs, paths).Ok? ==>
                forall p :: p in FilesOfPaths(fs, paths).value <==>
                  exists i :: 0 <= i < |paths| && RootReaches(fs, paths[i], p)
    {
      PathsOkIffHealthy(fs, paths);
      if FilesOfPaths(fs, paths).Ok? {
        PathsSoundComplete(fs, paths);
      }
    }

    /** Only child directories are tested against the ignore list. This lemma
        unfolds the two definitions at an ignored name to show it: as an entry of
        its parent the directory contributes nothing, but walked as a root it is
        listed like any other directory. */
    lemma RootNotTested(fs: FileSystem, parent: string, n: string)
      requires DirIsIgnored(n)
      requires JoinPath(parent, n) in fs
      ensures FilesOfEntry(parent, Dir(n, fs[JoinPath(parent, n)])) == Ok([])
      ensures FilesUnder(fs, JoinPath(parent, n)) == FilesOfEntries(JoinPath(parent, n), fs[JoinPath(parent, n)])
    {
    }
  }

  /** The names of the directory entries at any depth under `e`. */
  function DirNames(e: Node): set<string>
    decreases e
  {
    match e
    case Dir(n, es) => {n} + DirNamesOf(es)
    case UnreadableDir(n) => {n}
    case File(_) => {}
    case BadEntry => {}
  }

  function DirNamesOf(es: seq<Node>): set<string>
    decreases es
  {
    if es == [] then {} else DirNames(es[0]) + DirNamesOf(es[1..])
  }

  /** Two walkers that agree on the directory names that occur list the same:
      the ignore list is consulted only for the bare names of the entries. */
  lemma {:induction false} SameVerdictsEntry(w1: Walker, w2: Walker, dir: string, e: Node)
    requires forall n :: n in DirNames(e) ==> (w1.DirIsIgnored(n) <==> w2.DirIsIgnored(n))
    ensures w1.FilesOfEntry(dir, e) == w2.FilesOfEntry(dir, e)
    decreases e
  {
    if e.Dir? {
      SameVerdicts(w1, w2, JoinPath(dir, e.name), e.entries);
    }
  }

  lemma {:induction false} SameVerdicts(w1: Walker, w2: Walker, dir: string, es: seq<Node>)
    requires forall n :: n in DirNamesOf(es) ==> (w1.DirIsIgnored(n) <==> w2.DirIsIgnored(n))
    ensures w1.FilesOfEntries(dir, es) == w2.FilesOfEntries(dir, es)
    decreases es
  {
    if es != [] {
      SameVerdictsEntry(w1, w2, dir, es[0]);
      SameVerdicts(w1, w2, dir, es[1..]);
    }
  }

  /** The ignore list is not path-qualified: since an entry's name never holds a
      '/', adding entries that contain one changes no listing. */
  lemma QualifiedIgnoreInert(w: Walker, extra: seq<string>, dir: string, es: seq<Node>)
    requires forall n :: n in DirNamesOf(es) ==> '/' !in n
    requires forall x :: x in extra ==> '/' in x
    ensures Walker(w.paths, w.ignoreDirs + extra).FilesOfEntries(dir, es) == w.FilesOfEntries(dir, es)
  {
    SameVerdicts(Walker(w.paths, w.ignoreDirs + extra), w, dir, es);
  }

  /** The ignore list is case-sensitive: ignoring "target" does not prune "Target". */
  lemma CaseSensitive(paths: seq<string>, dir: string, es: seq<Node>)
    ensures Walker(paths, ["target"]).FilesOfEntry(dir, Dir("Target", es)) ==
            Walker(paths, ["target"]).FilesOfEntries(JoinPath(dir, "Target"), es)
  {
    assert "Target"[0] != "target"[0];
  }

  /** Entry paths are built from the root as given, and only the bare name of
      a child directory is tested: walking "." over directories `a` holding
      `x.cpp` and `b` holding `y.cpp`, with `b` ignored, yields "./a/x.cpp"
      (not "a/x.cpp") and nothing from `b`. */
  lemma DotRootExample()
    ensures Walker(["."], ["b"]).FilesOfPaths(map["." := [Dir("a", [File("x.cpp")]), Dir("b", [File("y.cpp")])]], ["."])
            == Ok(["./a/x.cpp"])
  {
    var w := Walker(["."], ["b"]);
    var fs := map["." := [Dir("a", [File("x.cpp")]), Dir("b", [File("y.cpp")])]];
    assert JoinPath(".", "a") == "./a";
    assert JoinPath("./a", "x.cpp") == "./a/x.cpp";
    var sub := [File("x.cpp")];
    assert sub[1..] == [];
    assert w.FilesOfEntry("./a", sub[0]) == Ok(["./a/x.cpp"]);
    ThenUnit(w.FilesOfEntry("./a", sub[0]));
    assert w.FilesOfEntries("./a", sub) == Ok(["./a/x.cpp"]);
    var ignored := Dir("b", [File("y.cpp")]);
    assert "a" != "b";
    assert w.DirIsIgnored("b") && !w.DirIsIgnored("a");
    assert w.FilesOfEntry(".", ignored) == Ok([]);
    var rest := [ignored];
    assert rest[1..] == [];
    ThenUnit<string, WalkError>(Ok([]));
    assert w.FilesOfEntries(".", rest) == Ok([]);
    var top := [Dir("a", sub), ignored];
    assert top[1..] == rest;
    assert w.FilesOfEntry(".", top[0]) == Ok(["./a/x.cpp"]);
    assert w.FilesOfEntries(".", top) == Ok(["./a/x.cpp"]);
    var roots := ["."];
    assert roots[1..] == [];
    assert w.FilesUnder(fs, ".") == Ok(["./a/x.cpp"]);
    ThenUnit(w.FilesUnder(fs, "."));
  }
}
