/** The three unit tests of src/lang/cpp.rs, restated over arbitrary names:
    the tests' own values are one instance of each lemma (root "src",
    output directory "target", names "main" and "foo"). */
module CppExamples {

  import opened Results
  import opened Strings
  import opened CppMaker

  /** Any path ending in ".cpp" is a source. */
  lemma CppIsSource(stem: string)
    ensures Classify(stem + ".cpp") == Source
  {
    ToLowerAppend(stem, ".cpp");
    var l := ToLower(stem + ".cpp");
    HeaderGuard(l);
    SourceGuard(l);
    var n := |l|;
    assert l[n - 4..] == ".cpp";
    assert l[n - 1] == 'p' && l[n - 3] == 'c';
    assert !EndsWith(l, ".h") && !EndsWith(l, ".hpp");
  }

  /** Any path ending in ".hpp" is a header. */
  lemma HppIsHeader(stem: string)
    ensures Classify(stem + ".hpp") == Header
  {
    ToLowerAppend(stem, ".hpp");
    var l := ToLower(stem + ".hpp");
    HeaderGuard(l);
    assert l[|l| - 4..] == ".hpp";
  }

  /** `test_categorize_files`: from `main.cpp`, `foo.hpp`, `foo.cpp` the header
      list is `foo.hpp` and the source list keeps `main.cpp` before `foo.cpp`. */
  lemma CategorizeExample(mainStem: string, fooStem: string)
    ensures var files := [mainStem + ".cpp", fooStem + ".hpp", fooStem + ".cpp"];
            Select(files, Header) == [fooStem + ".hpp"] &&
            Select(files, Source) == [mainStem + ".cpp", fooStem + ".cpp"]
  {
    var a, b, c := mainStem + ".cpp", fooStem + ".hpp", fooStem + ".cpp";
    CppIsSource(mainStem);
    HppIsHeader(fooStem);
    CppIsSource(fooStem);
    SelectSingle(a, Header); SelectSingle(b, Header); SelectSingle(c, Header);
    SelectSingle(a, Source); SelectSingle(b, Source); SelectSingle(c, Source);
    SelectConcat([a], [b], Header); SelectConcat([a, b], [c], Header);
    SelectConcat([a], [b], Source); SelectConcat([a, b], [c], Source);
    assert [a] + [b] == [a, b] && [a, b] + [c] == [a, b, c];
  }

  /** `root/name.cpp` has the object path `outputDir/name.o`. */
  lemma CppObject(root: string, name: string, outputDir: string)
    requires '/' !in root
    ensures ObjectPath(root + "/" + name + ".cpp", outputDir) == Ok(outputDir + "/" + name + ".o")
  {
    assert root + "/" + name + ".cpp" == root + "/" + name + "." + "cpp";
    ObjectPathOf(root, name, "cpp", outputDir);
  }

  /** `test_create_object_files`: `src/main.cpp`, `src/foo.cpp` map to
      `target/main.o`, `target/foo.o`, in that order. */
  lemma ObjectFilesExample(root: string, mainName: string, fooName: string, outputDir: string)
    requires '/' !in root
    ensures ObjectFiles([root + "/" + mainName + ".cpp", root + "/" + fooName + ".cpp"], outputDir)
            == Ok([outputDir + "/" + mainName + ".o", outputDir + "/" + fooName + ".o"])
  {
    CppObject(root, mainName, outputDir);
    CppObject(root, fooName, outputDir);
    ObjectFilesOf([root + "/" + mainName + ".cpp", root + "/" + fooName + ".cpp"], outputDir,
                  [outputDir + "/" + mainName + ".o", outputDir + "/" + fooName + ".o"]);
  }

  /** The value lines for two objects, one header and two sources. */
  lemma ExampleValues(o1: string, o2: string, h: string, s1: string, s2: string, root: string)
    requires Clean(root)
    ensures var values := Values([o1, o2], [h], [s1, s2], root);
            values[0] == "OBJS    = " + o1 + " " + o2 &&
            values[1] == "HEADERS = " + h &&
            values[2] == "SOURCES = " + s1 + " " + s2 &&
            values[4] == "FLAGS   = -g -c -Wall -I" + root
  {
    var values := Values([o1, o2], [h], [s1, s2], root);
    TrimEndSpec(root);
    JoinPair(o1, o2, " ");
    JoinPair(s1, s2, " ");
    assert values[0] == "OBJS    = " + (o1 + " " + o2);
    assert values[2] == "SOURCES = " + (s1 + " " + s2);
  }

  /** `test_create_variables`: the rendered block reads, line by line, as the
      twelve lines of the test, with the entries joined by single spaces and
      the include flag `-I` followed by the root. */
  lemma VariablesExample(o1: string, o2: string, h: string, s1: string, s2: string, root: string)
    requires Clean(o1) && Clean(o2) && Clean(h) && Clean(s1) && Clean(s2)
    requires Clean(root)
    ensures var lines := Split(MakefileText([o1, o2], [h], [s1, s2], root), '\n');
            |lines| == 12 &&
            lines[0] == "# Object files:" &&
            lines[1] == "OBJS    = " + o1 + " " + o2 &&
            lines[2] == "# Header files:" &&
            lines[3] == "HEADERS = " + h &&
            lines[4] == "# Source files:" &&
            lines[5] == "SOURCES = " + s1 + " " + s2 &&
            lines[6] == "# Executable name, run the program with ./a.o" &&
            lines[7] == "OUT     = a.o" &&
            lines[8] == "# Compiler flags:" &&
            lines[9] == "FLAGS   = -g -c -Wall -I" + root &&
            lines[10] == "# Compiler:" &&
            lines[11] == "CC      = cc"
  {
    var objs, headers, sources := [o1, o2], [h], [s1, s2];
    assert objs[1..] == [o2] && sources[1..] == [s2];
    assert AllClean(objs) && AllClean(headers) && AllClean(sources);
    RenderedLines(objs, headers, sources, root);
    var values := Values(objs, headers, sources, root);
    ExampleValues(o1, o2, h, s1, s2, root);
    InterleaveAt(Comments, values, 0);
    InterleaveAt(Comments, values, 1);
    InterleaveAt(Comments, values, 2);
    InterleaveAt(Comments, values, 3);
    InterleaveAt(Comments, values, 4);
    InterleaveAt(Comments, values, 5);
  }
}
