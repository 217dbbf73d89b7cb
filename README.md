# maker — a verified model of the Makefile generator core

`maker` lists the files under one or more root directories, skipping
sub-directories whose bare name is on an ignore list. Its C/C++ generator then
turns that list into the variable block of a Makefile:

- it sorts the paths into headers and sources by their lower-cased suffix;
- it derives one object path per source by replacing the root segment with the
  output directory and the extension with `.o`;
- it renders six `NAME = value` bindings, each under a comment line.

This project models both pieces in Dafny and proves what they compute.

- `results.dfy` (module `Results`) holds `Option`, `Result` and `Outcome`, and
  `Then`, which composes listings so that the first failure wins. The Rust
  code aborts on every `unwrap`, `expect` and `panic!`. The model returns the
  reason instead.
- `strings.dfy` (module `Strings`) holds the Rust `str` and slice operations
  the generator uses: `trim` (with the Unicode White_Space set), `ends_with`,
  `to_lowercase` (ASCII letters only), `split_once`, `rsplit_once` and `join`.
  `TrimStart` and `TrimEnd` are the two halves `Trim` is defined from. `Split`
  is not used by the generator: the proofs use it to read the rendered text
  line by line.
- `cpp.dfy` (module `CppMaker`) models `Cpp` from src/lang/cpp.rs.
  - It is a class with the same fields.
  - Its methods `CategorizeFiles`, `CreateObjectFiles`, `CreateVariables`,
    `Build` and `Dump` keep the source's loops.
  - Each method is proved against specification functions: `Select`,
    `ObjectPath`/`ObjectFiles` and `Variables`/`MakefileText`.
  - The properties promised by the code are lemmas about those functions.
  - `Make` runs the `Maker` protocol (`new`, `build`, `dump`) on a fresh
    generator and ties its result to the single function `Generate`.
- `cpp_examples.dfy` (module `CppExamples`) restates the three unit tests of
  src/lang/cpp.rs over arbitrary names. The values the first two tests assert
  are instances of these lemmas. For `test_create_variables` the lemma states
  each of the twelve lines of the asserted text. `Split` rejoins to its
  input, so the lines fix the whole text.
- `walker.dfy` (module `DirWalk`) models `Walker` from src/walker.rs.
  - The file system is an abstract tree: `File`, `Dir` with its listing,
    `UnreadableDir`, and `BadEntry`.
  - `FilesOfEntry`, `FilesOfEntries`, `FilesUnder` and `FilesOfPaths` state the
    depth-first listing.
  - The methods `Walk`, `WalkRecursive` and `WalkDir` keep the source's loops
    and recursion, and are proved equal to those functions.
  - Lemmas prove:
    - concatenation over roots;
    - in-place expansion;
    - pruning of ignored directories;
    - success exactly on healthy trees;
    - soundness and completeness against a reachability predicate;
    - exact bare-name matching;
    - that the root itself is never tested.

Behaviour of the code worth noting:

- Entry paths include the root as given. Walking `.` yields `./a/x.cpp`, not
  `a/x.cpp`, and an ignored child `b` contributes nothing (`DotRootExample`).
- The generator renders only the variable block. There are no build, compile,
  directory or clean rules.
- A source without a root segment aborts the pass, and zero sources abort it
  with `NoSourceFiles`. The text is never partially returned.

## Model

| member | source | states |
|---|---|---|
| Results.Then | src/walker.rs:20-22 | the composed listing is Ok exactly when both parts are, its value is the concatenation in order, and otherwise the first failure is kept |
| Results.ThenAssociative | src/walker.rs:20-22 | composing three listings does not depend on grouping |
| Results.ThenUnit | src/walker.rs:19 | the empty listing is a unit on both sides |
| Strings.Trim | src/lang/cpp.rs:97-102 | `trim` is `trim_end` of `trim_start`; what it keeps is stated by `TrimStartSpec` and `TrimEndSpec` |
| Strings.TrimStartSpec | src/lang/cpp.rs:97-102 | `trim_start` removes exactly the longest whitespace prefix: the result is a suffix, everything dropped is whitespace, and the result does not start with whitespace |
| Strings.TrimEndSpec | src/lang/cpp.rs:97-102 | `trim_end` removes exactly the longest whitespace suffix: the result is a prefix, everything dropped is whitespace, and the result does not end with whitespace |
| Strings.TrimEndAfter | src/lang/cpp.rs:97-102 | trimming the end of `x + y` never reaches into an `x` that ends with a non-whitespace character |
| Strings.TrimClean | src/lang/cpp.rs:97-102 | a string that starts and ends with non-whitespace is its own trim |
| Strings.TrimAfter | src/lang/cpp.rs:97-102 | `trim(x + y)` is `x + trim_end(y)` for an `x` with non-whitespace at both ends |
| Strings.EndsWithAny | src/lang/cpp.rs:46-48 | `iter().any` over `ends_with`: some suffix of the list, tried in order, ends the string; characterised by `EndsWithAnyIn` |
| Strings.EndsWithAnyIn | src/lang/cpp.rs:46-48 | `iter().any(ends_with)` holds exactly when some listed suffix ends the string |
| Strings.ToLower | src/lang/cpp.rs:48 | lower-casing keeps the length and maps each character through ASCII lower-casing |
| Strings.ToLowerIdempotent | src/lang/cpp.rs:48 | lower-casing twice is lower-casing once |
| Strings.ToLowerAppend | src/lang/cpp.rs:48 | lower-casing distributes over appending an already lower-case suffix |
| Strings.Find | src/lang/cpp.rs:68-69 | the index of the first occurrence, or None exactly when the character is absent |
| Strings.FindLast | src/lang/cpp.rs:67 | the index of the last occurrence, or None exactly when the character is absent |
| Strings.SplitOnce | src/lang/cpp.rs:68-69 | `split_once`: the text before and after the first separator, or None; characterised by `SplitOnceSpec` |
| Strings.RSplitOnce | src/lang/cpp.rs:67 | `rsplit_once`: the text before and after the last separator, or None; characterised by `RSplitOnceSpec` |
| Strings.SplitOnceSpec | src/lang/cpp.rs:68-69 | `split_once` fails exactly when the separator is absent; otherwise the two parts and the separator rebuild the input and the first part holds no separator |
| Strings.RSplitOnceSpec | src/lang/cpp.rs:67 | `rsplit_once` fails exactly when the separator is absent; otherwise the parts rebuild the input and the second part holds no separator |
| Strings.SplitOnceAt | src/lang/cpp.rs:68-69 | splitting `a + [c] + b` with `c` not in `a` gives `(a, b)` |
| Strings.RSplitOnceAt | src/lang/cpp.rs:67 | splitting `a + [c] + b` from the right with `c` not in `b` gives `(a, b)` |
| Strings.Join | src/lang/cpp.rs:76-78 | `join`: the pieces in order with the separator between neighbours, empty for no pieces; `JoinPair`, `SplitJoin`, `JoinLast` and `JoinChars` state its properties |
| Strings.JoinPair | src/lang/cpp.rs:76-78 | joining two entries puts the separator once between them |
| Strings.Split | src/lang/cpp.rs:84-103 | splitting into lines gives at least one piece, no piece holds the separator, and joining the pieces back gives the input |
| Strings.SplitJoin | src/lang/cpp.rs:84-103 | splitting a join of separator-free pieces gives the pieces back |
| Strings.JoinLast | src/lang/cpp.rs:76-78 | a join ends with the last character of its last piece |
| Strings.JoinChars | src/lang/cpp.rs:76-78 | a character in neither the pieces nor the separator is not in the join |
| CppMaker.Classify | src/lang/cpp.rs:44-59 | the `match` of `categorize_files`: a path is a header when its lower-cased form ends with `.h` or `.hpp`, else a source when it ends with `.cpp`, `.cc` or `.c`, else dropped; characterised by `ClassifyByExtension` |
| CppMaker.EndsWithExtension | src/lang/cpp.rs:40-48 | ending with "." + e, for an `e` without '.', is having the lower-cased extension `e` |
| CppMaker.HeaderGuard | src/lang/cpp.rs:41-48 | the header guard holds exactly for a lower-cased path ending in ".hpp" or ".h" |
| CppMaker.SourceGuard | src/lang/cpp.rs:40-54 | the source guard holds exactly for a lower-cased path ending in ".cpp", ".cc" or ".c" |
| CppMaker.ClassifyByExtension | src/lang/cpp.rs:39-62 | a path is a header exactly when its lower-cased extension is "hpp" or "h", and a source exactly when it is "cpp", "cc" or "c" |
| CppMaker.ClassifyIgnoresCase | src/lang/cpp.rs:48 | classification ignores the case of ASCII letters |
| CppMaker.ClassifiedShape | src/lang/cpp.rs:44-60 | a kept path is non-empty and ends in one of the letters p, h, c in either case, so not in whitespace, and a source contains a '.' |
| CppMaker.Select | src/lang/cpp.rs:43-61 | the loop of `categorize_files` for one role: the inputs of that role, in input order; characterised by `SelectMembers`, `SelectConcat` and `SelectPartition` |
| CppMaker.SelectMembers | src/lang/cpp.rs:43-61 | a path is appended to a role's list exactly when it is an input with that role |
| CppMaker.SelectSingle | src/lang/cpp.rs:43-61 | one path is appended exactly when it has the role |
| CppMaker.SelectConcat | src/lang/cpp.rs:43-61 | the lists keep the relative order of the input |
| CppMaker.SelectIdempotent | src/lang/cpp.rs:43-61 | re-categorising a list of one role changes nothing |
| CppMaker.SelectPartition | src/lang/cpp.rs:44-60 | as multisets, headers, sources and dropped paths together are exactly the input |
| CppMaker.HeadersAndSourcesBound | src/lang/cpp.rs:44-60 | headers and sources together never outnumber the input |
| CppMaker.ObjectPath | src/lang/cpp.rs:67-69 | one source's object path: drop the text from the last '.', append `.o`, drop the text up to the first '/', and prefix the output directory; fails when either split finds no separator; characterised by `ObjectPathSpec` |
| CppMaker.ObjectPathSpec | src/lang/cpp.rs:65-72 | a source without '.' fails its `rsplit_once`, any other failure is `split_once` on its stem, and an object path ends in ".o" and comes from a source with a '/' |
| CppMaker.ObjectPathChars | src/lang/cpp.rs:67-69 | an object path holds only characters of the output directory, of the source, and of "/.o" |
| CppMaker.ObjectPathOf | src/lang/cpp.rs:67-69 | `root/sub.ext` (root without '/', ext without '.') maps to `outputDir/sub.o`, keeping the sub-path beneath the root |
| CppMaker.ObjectPathDropsExtension | src/lang/cpp.rs:67 | two sources that differ only in extension share one object path |
| CppMaker.ObjectPathDefined | src/lang/cpp.rs:65-72 | an object path exists exactly when some '/' of the source is followed later by a '.' |
| CppMaker.ObjectFiles | src/lang/cpp.rs:65-72 | the mapping succeeds exactly when every source has an object path, and then gives one object path per source, in order |
| CppMaker.ObjectFilesOf | src/lang/cpp.rs:65-72 | a list of the object paths of the sources, in order, is the mapping |
| CppMaker.ObjectFilesFirstError | src/lang/cpp.rs:66-70 | a failing mapping reports the first source without an object path |
| CppMaker.ObjectFilesErrorOf | src/lang/cpp.rs:66-70 | a failing mapping fails with the error of one of the sources |
| CppMaker.Bindings | src/lang/cpp.rs:76-83 | the six `NAME = value` bindings, in order: objects, headers and sources joined by spaces, the executable `a.o`, the flags with `-I` and the include root, the compiler `cc` |
| CppMaker.Comments | src/lang/cpp.rs:84-103 | the six comment lines of the variable block, in order |
| CppMaker.MakefileText | src/lang/cpp.rs:84-103 | the `format!` of `create_variables`: each comment line followed by its trimmed binding, joined by line breaks; read line by line in `RenderedLines` |
| CppMaker.Variables | src/lang/cpp.rs:75-104 | rendering fails exactly when there is no source or the first source has no '/', with `NoSourceFiles` or `NoRootSegment` respectively |
| CppMaker.TrimBinding | src/lang/cpp.rs:76-99 | trimming a binding of clean entries leaves the entries joined by single spaces, or the bare `NAME =` when the list is empty |
| CppMaker.TrimFlags | src/lang/cpp.rs:80-101 | the trimmed flag line is `FLAGS   = -g -c -Wall -I` followed by the root, trimmed at its end |
| CppMaker.TrimCompiler | src/lang/cpp.rs:83-102 | the compiler line reads `CC      = cc` |
| CppMaker.TrimmedValues | src/lang/cpp.rs:76-102 | for clean entries the six trimmed bindings are exactly the value lines |
| CppMaker.ValueHasNoBreak | src/lang/cpp.rs:76-102 | for clean entries and a root without a line break, no value line holds a line break |
| CppMaker.CommentHasNoBreak | src/lang/cpp.rs:85-96 | no comment line holds a line break |
| CppMaker.RenderedLines | src/lang/cpp.rs:84-103 | for clean entries and a root without a line break, the rendered text read line by line is exactly the twelve lines (comment, binding) × 6, in order, with no trailing newline |
| CppMaker.Generate | src/lang/cpp.rs:26-30 | `build` as a value: categorise, map the sources to object paths, render; the first failure wins; characterised by `GenerateOutcome`, `GenerateError` and `GenerateLines` |
| CppMaker.GenerateOutcome | src/lang/cpp.rs:26-30 | the pass succeeds exactly when there is a source and every source has an object path |
| CppMaker.GenerateError | src/lang/cpp.rs:67-82 | a failed pass reports `NoSourceFiles` exactly when there are no sources, and otherwise a source without a root segment, never a missing '.' |
| CppMaker.SelectClean | src/lang/cpp.rs:43-61 | the kept paths are clean (non-empty, no final whitespace, no line break) when no input holds a line break |
| CppMaker.ObjectFilesClean | src/lang/cpp.rs:65-72 | object paths are clean when neither the sources nor the output directory hold a line break |
| CppMaker.ObjectPathClean | src/lang/cpp.rs:67-69 | one object path is clean under the same condition |
| CppMaker.GenerateLines | src/lang/cpp.rs:26-104 | on success the text reads, line by line, as the twelve lines over the headers, the sources, their object paths and the first source's root segment |
| CppMaker.Cpp.constructor | src/lang/cpp.rs:15-24 | a fresh generator holds the inputs and empty lists and text |
| CppMaker.Cpp.Build | src/lang/cpp.rs:26-30 | the header and source lists grow by the categorised inputs; on a mapping failure the pass stops with that error and the text is unchanged; otherwise the object list grows by the mapping and the text is the rendering or the pass fails with the rendering's error |
| CppMaker.Cpp.Dump | src/lang/cpp.rs:32-34 | returns the stored text |
| CppMaker.Cpp.CategorizeFiles | src/lang/cpp.rs:39-62 | appends the headers and the sources of the inputs, in input order, to their lists |
| CppMaker.Cpp.CreateObjectFiles | src/lang/cpp.rs:65-72 | appends one object path per source, in order, or fails with the first source's error |
| CppMaker.Cpp.CreateVariables | src/lang/cpp.rs:75-104 | stores the rendered text, or fails with its error and leaves the text unchanged |
| CppMaker.Make | src/maker.rs:1-16 | `new`, `build`, `dump` on fresh inputs give `Generate`'s text, or fail with its error and an empty text |
| CppExamples.CppIsSource | src/lang/cpp.rs:52-54 | any path ending in ".cpp" is a source |
| CppExamples.HppIsHeader | src/lang/cpp.rs:45-48 | any path ending in ".hpp" is a header |
| CppExamples.CategorizeExample | src/lang/cpp.rs:112-133 | from `main.cpp`, `foo.hpp`, `foo.cpp` the headers are `[foo.hpp]` and the sources `[main.cpp, foo.cpp]` |
| CppExamples.CppObject | src/lang/cpp.rs:67-69 | `root/name.cpp` has the object path `outputDir/name.o` |
| CppExamples.ObjectFilesExample | src/lang/cpp.rs:136-157 | `src/main.cpp`, `src/foo.cpp` map to `target/main.o`, `target/foo.o` |
| CppExamples.ExampleValues | src/lang/cpp.rs:160-191 | the value lines for two objects, one header and two sources |
| CppExamples.VariablesExample | src/lang/cpp.rs:160-191 | read line by line, the rendered block is the twelve lines the test asserts: the six comments, the entries joined by single spaces, `OUT     = a.o`, the flag line ending in `-I` and the root, and `CC      = cc` |
| DirWalk.JoinPath | src/walker.rs:34 | the entry path is the directory path followed by the name, with at most one '/' added |
| DirWalk.Walker.DirIsIgnored | src/walker.rs:51-53 | an entry name is ignored exactly when it is on the ignore list, compared exactly and case-sensitively |
| DirWalk.Walker.FilesOfEntry | src/walker.rs:30-45 | one entry's contribution: a file gives its path; an ignored directory, readable or not, gives nothing; a readable directory gives its listing; an unreadable one or a bad entry aborts |
| DirWalk.Walker.FilesOfEntries | src/walker.rs:29-47 | the contributions of a listing's entries, in listing order, up to the first failure |
| DirWalk.Walker.FilesUnder | src/walker.rs:27-48 | `walk_recursive`: the listing of a readable path, or an abort when it cannot be read |
| DirWalk.Walker.FilesOfPaths | src/walker.rs:17-24 | `walk`: the listings of the roots, concatenated in root order, up to the first failure; the method `Walk` is proved against it |
| DirWalk.Walker.Walk | src/walker.rs:17-24 | returns the walk of every root, in root order, or the first failure |
| DirWalk.Walker.WalkRecursive | src/walker.rs:27-29 | fails when the root cannot be read, and otherwise lists its entries |
| DirWalk.Walker.WalkDir | src/walker.rs:29-47 | lists the entries in order: a file as its path, a directory that is not ignored by its own listing, an ignored one not at all; it aborts on an unreadable or erroring entry |
| DirWalk.Walker.FilesOfEntriesConcat | src/walker.rs:30-45 | listing a concatenation of entries lists each part in turn |
| DirWalk.Walker.FilesOfEntriesAround | src/walker.rs:30-45 | an entry contributes its own listing at its own position among its siblings |
| DirWalk.Walker.FileInPlace | src/walker.rs:39-41 | a non-directory entry contributes exactly its path, in place |
| DirWalk.Walker.ExpandInPlace | src/walker.rs:35-37 | a directory that is not ignored is replaced, in place, by its whole listing |
| DirWalk.Walker.PruneIgnored | src/walker.rs:35-38 | an ignored directory contributes nothing, whatever lies under it, even when it is unreadable or holds failing entries |
| DirWalk.Walker.FilesOfPathsConcat | src/walker.rs:20-22 | walking a concatenation of roots walks each part in turn |
| DirWalk.Walker.EntryOkIffHealthy | src/walker.rs:28-43 | one entry lists without failure exactly when nothing the walk enters below it fails |
| DirWalk.Walker.EntriesOkIffHealthy | src/walker.rs:28-43 | a listing succeeds exactly when every entry is healthy |
| DirWalk.Walker.EntrySoundComplete | src/walker.rs:27-48 | an entry lists exactly the files reachable from it without entering an ignored directory |
| DirWalk.Walker.EntriesSoundComplete | src/walker.rs:27-48 | a listing lists exactly the files reachable from its entries |
| DirWalk.Walker.PathsOkIffHealthy | src/walker.rs:17-28 | the walk over a list of roots succeeds exactly when every root can be read and is healthy |
| DirWalk.Walker.PathsSoundComplete | src/walker.rs:17-24 | a successful walk lists exactly the files reachable from its roots |
| DirWalk.Walker.WalkCorrect | src/walker.rs:15-24 | `walk` succeeds exactly on readable, healthy roots, and then lists exactly the files reachable from them |
| DirWalk.Walker.RootNotTested | src/walker.rs:21-36 | a directory whose name is ignored is dropped as a child but listed in full when walked as a root |
| DirWalk.SameVerdicts | src/walker.rs:36-53 | two ignore lists that agree on the names in a tree give the same listing |
| DirWalk.QualifiedIgnoreInert | src/walker.rs:51-53 | ignore entries that contain a '/' never match, for entry names hold no '/' |
| DirWalk.CaseSensitive | src/walker.rs:51-53 | ignoring "target" does not prune "Target" |
| DirWalk.DotRootExample | src/walker.rs:27-41 | walking "." over `a/x.cpp` lists "./a/x.cpp" |

## Left out

- Walker I/O: `fs::read_dir`, `metadata` and `to_str` are replaced by
  the abstract tree.
  - A `BadEntry` stands for every entry-level failure: an `Err`
    entry, a failing `metadata`, or a name that is not UTF-8.
  - Symbolic links, permissions and the operating system's listing order are
    not modelled. The listing order is whatever the tree holds.
- The `println!` of `walk` (src/walker.rs:18) is output only and is left out.
- `Walker::new` (src/walker.rs:11-13) is the `Walker` datatype constructor and
  has no contract of its own.
- `Maker::dump_to_file` (src/maker.rs), with its backup copy, is file I/O and
  is left out. src/main.rs, the command-line parsing and printing, is not part
  of this model.
- `Strings.ToLower`: only ASCII letters are lowered. Rust's `to_lowercase` is
  full Unicode. The two differ for a classification only on characters whose
  lower-case form is one of '.', 'c', 'h' or 'p'.
- `CppMaker.Cpp.Build`, `CppMaker.Cpp.CreateObjectFiles`: after a failed
  mapping the object list is only stated to have grown (the old list is a
  prefix). The Rust process aborts at that point, so nothing observes the
  partial list.
- `CppMaker.Cpp.constructor`: `files` and `outputDir` are `const` fields,
  because no method of the source writes them.
- Every `unwrap`, `expect` and `panic!` is modelled as an error value
  (`BuildError`, `WalkError`), not as a process abort.
- The `FIXME` notes of src/lang/cpp.rs (the include root from the first source,
  the fixed compiler `cc`) are modelled as written.
- `CppMaker.RenderedLines`: the line-by-line reading needs clean entries
  (non-empty, not ending in whitespace, without a line break) and a root
  without a line break. For other entries `trim` changes the binding lines: an
  entry `"a "` or an empty last entry leaves `OBJS    = a` rather than the
  untrimmed join. The text itself (`MakefileText`) is defined for every input.
- `CppMaker.GenerateLines`: needs only that no input file and not the output
  directory holds a line break. It derives clean entries through `SelectClean`
  and `ObjectFilesClean`.
