/** Which files the batch action treats as tests, and the manifest row it
    writes for each: the test file, and the class under test found by the
    file-name convention `<Class>Test.java` -> `<Class>.java`. */
module TestFiles {
  import opened Syntax
  import opened Strings
  import opened Seqs

  const TestAnnotations: set<string> := {"org.junit.Test", "org.junit.jupiter.api.Test"}

  predicate IsTestMethod(m: Method)
  {
    exists k :: 0 <= k < |m.annotations| && m.annotations[k] in TestAnnotations
  }

  /** Some method of some top-level class carries a JUnit 4 or JUnit 5 `@Test`. */
  predicate HasTestMethod(f: JavaFile)
  {
    exists i, j :: 0 <= i < |f.classes| && 0 <= j < |f.classes[i].methods| && IsTestMethod(f.classes[i].methods[j])
  }

  /** The scan over classes, methods and annotations, stopping at the first
      test annotation. */
  method ContainsTestAnnotation(f: JavaFile) returns (b: bool)
    ensures b <==> HasTestMethod(f)
  {
    var i := 0;
    while i < |f.classes|
      invariant 0 <= i <= |f.classes|
      invariant forall i', j :: 0 <= i' < i && 0 <= j < |f.classes[i'].methods| ==> !IsTestMethod(f.classes[i'].methods[j])
    {
      var methods := f.classes[i].methods;
      var j := 0;
      while j < |methods|
        invariant 0 <= j <= |methods|
        invariant forall j' :: 0 <= j' < j ==> !IsTestMethod(methods[j'])
      {
        var annotations := methods[j].annotations;
        var k := 0;
        while k < |annotations|
          invariant 0 <= k <= |annotations|
          invariant forall k' :: 0 <= k' < k ==> annotations[k'] !in TestAnnotations
        {
          if annotations[k] == "org.junit.Test" || annotations[k] == "org.junit.jupiter.api.Test" {
            return true;
          }
          k := k + 1;
        }
        j := j + 1;
      }
      i := i + 1;
    }
    return false;
  }

  const TestSuffix := "Test.java"
  const JavaSuffix := ".java"

  /** The class name a test file is named after: `FooTest.java` gives `Foo`;
      any other name loses every `.java` in it. */
  function ExtractTestClassName(fileName: string): (r: string)
    ensures |r| <= |fileName|
    ensures EndsWith(fileName, TestSuffix) ==> fileName == r + TestSuffix
  {
    if EndsWith(fileName, TestSuffix) then fileName[..|fileName| - |TestSuffix|]
    else RemoveAll(fileName, JavaSuffix)
  }

  /** The test-file convention inverts: the class name comes back. */
  lemma TestFileNameRoundTrip(c: string)
    ensures ExtractTestClassName(c + TestSuffix) == c
  {
    var s := c + TestSuffix;
    assert s[|s| - |TestSuffix|..] == TestSuffix;
    assert s[..|s| - |TestSuffix|] == c;
  }

  /** A file not named after the test convention keeps its base name, as long
      as the base name holds no `.java` of its own. */
  lemma PlainFileNameRoundTrip(c: string)
    requires !EndsWith(c, "Test")
    requires !Occurs(c, JavaSuffix)
    ensures ExtractTestClassName(c + JavaSuffix) == c
  {
    var s := c + JavaSuffix;
    assert !EndsWith(s, TestSuffix) by {
      if |c| >= 4 {
        assert c[|c| - 4..] == s[|s| - 9..|s| - 5];
      }
    }
    RemoveBeforeSuffix(c, []);
    assert s == c + JavaSuffix + [];
  }

  /** `.java` overlaps no shifted copy of itself, so in `c + ".java" + b` the
      scan finds nothing before the first `.java`, deletes it, and goes on
      with `b`. */
  lemma {:induction false} RemoveBeforeSuffix(c: string, b: string)
    requires !Occurs(c, JavaSuffix)
    ensures RemoveAll(c + JavaSuffix + b, JavaSuffix) == c + RemoveAll(b, JavaSuffix)
    decreases |c|
  {
    if c == [] {
      var s := c + JavaSuffix + b;
      assert s[..5] == JavaSuffix;
      assert s[5..] == b;
    } else {
      assert !OccursAt(c, JavaSuffix, 0);
      NoOccurrenceInTail(c, JavaSuffix);
      RemoveKeepsFirstChar(c, b);
      RemoveBeforeSuffix(c[1..], b);
      AppendAssoc([c[0]], c[1..], RemoveAll(b, JavaSuffix));
      assert c == [c[0]] + c[1..];
    }
  }

  /** One step of the scan over `c + ".java" + b`: the first character of a
      name that does not start with `.java` is kept. */
  lemma RemoveKeepsFirstChar(c: string, b: string)
    requires c != [] && !OccursAt(c, JavaSuffix, 0)
    ensures RemoveAll(c + JavaSuffix + b, JavaSuffix) == [c[0]] + RemoveAll(c[1..] + JavaSuffix + b, JavaSuffix)
  {
    var s := c + JavaSuffix + b;
    SuffixNotAtFront(c, b);
    RemoveAllKeepsFront(s, JavaSuffix);
    assert s[1..] == c[1..] + JavaSuffix + b;
  }

  /** A non-empty name that does not start with `.java` puts no `.java` at the
      front of `c + ".java" + b`: the suffix's dot would have to land on a letter. */
  lemma SuffixNotAtFront(c: string, b: string)
    requires c != [] && !OccursAt(c, JavaSuffix, 0)
    ensures (c + JavaSuffix + b)[..5] != JavaSuffix
  {
    var s := c + JavaSuffix + b;
    if |c| >= 5 {
      assert s[..5] == c[0..5];
    } else {
      assert s[..5][|c|] == s[|c|] == '.';
      assert JavaSuffix[|c|] != '.';
    }
  }

  /** A project file, as the file-name index lists it. */
  datatype ProjectFile = ProjectFile(name: string, path: string)

  /** The path of the first project file named `<cut>.java`. */
  function FindCutFile(cut: string, files: seq<ProjectFile>): (r: Option<string>)
    ensures r.None? <==> forall i :: 0 <= i < |files| ==> files[i].name != cut + JavaSuffix
    ensures r.Some? ==> exists i :: 0 <= i < |files| && files[i].name == cut + JavaSuffix &&
                                    files[i].path == r.value &&
                                    forall j :: 0 <= j < i ==> files[j].name != cut + JavaSuffix
  {
    if files == [] then None
    else if files[0].name == cut + JavaSuffix then Some(files[0].path)
    else
      var r := FindCutFile(cut, files[1..]);
      if r.Some? then
        var i :| 0 <= i < |files[1..]| && files[1..][i].name == cut + JavaSuffix &&
                 files[1..][i].path == r.value &&
                 forall j :: 0 <= j < i ==> files[1..][j].name != cut + JavaSuffix;
        assert files[i + 1].name == cut + JavaSuffix && files[i + 1].path == r.value;
        assert forall j :: 0 <= j < i + 1 ==> files[j].name != cut + JavaSuffix by {
          forall j | 0 <= j < i + 1 ensures files[j].name != cut + JavaSuffix {
            if j > 0 { assert files[j] == files[1..][j - 1]; }
          }
        }
        r
      else
        assert forall i :: 0 <= i < |files| ==> files[i].name != cut + JavaSuffix by {
          forall i | 0 <= i < |files| ensures files[i].name != cut + JavaSuffix {
            if i > 0 { assert files[i] == files[1..][i - 1]; }
          }
        }
        r
  }

  /** One row of the test-files manifest: test file name and path, then the
      class under test and its path, or "Not Found" in both. */
  datatype ManifestRow = ManifestRow(testFileName: string, testFilePath: string, cut: string, cutPath: string)

  const ManifestHeader := ManifestRow("Test File Name", "Test File Path", "CUT", "CUT Path")
  const NotFound := "Not Found"

  /** `k` is the first project file named `name`, in index order. */
  predicate FirstNamed(files: seq<ProjectFile>, name: string, k: int)
  {
    0 <= k < |files| && files[k].name == name && forall j :: 0 <= j < k ==> files[j].name != name
  }

  /** The manifest row of a test file: its name and path, then the class
      under test named by the convention and the path of the first project
      file named after it; when there is none, "Not Found" twice. */
  function RecordTestFile(testFileName: string, testFilePath: string, files: seq<ProjectFile>): (r: ManifestRow)
    ensures r.testFileName == testFileName && r.testFilePath == testFilePath
    ensures var cut := ExtractTestClassName(testFileName);
            forall k :: FirstNamed(files, cut + JavaSuffix, k) ==> r.cut == cut && r.cutPath == files[k].path
    ensures var cut := ExtractTestClassName(testFileName);
            (forall k :: 0 <= k < |files| ==> files[k].name != cut + JavaSuffix) ==> r.cut == NotFound && r.cutPath == NotFound
  {
    var cut := ExtractTestClassName(testFileName);
    var found := FindCutFile(cut, files);
    if found.Some? then
      assert forall k :: FirstNamed(files, cut + JavaSuffix, k) ==> files[k].path == found.value by {
        var i :| 0 <= i < |files| && files[i].name == cut + JavaSuffix && files[i].path == found.value &&
                 forall j :: 0 <= j < i ==> files[j].name != cut + JavaSuffix;
        forall k | FirstNamed(files, cut + JavaSuffix, k) ensures k == i {
          assert !(k < i) && !(i < k);
        }
      }
      ManifestRow(testFileName, testFilePath, cut, found.value)
    else ManifestRow(testFileName, testFilePath, NotFound, NotFound)
  }

  /** A test file `FooTest.java` whose project also holds a `Foo.java` is
      paired with it, and with the path of the first such file. */
  lemma ConventionPairsTestWithClass(c: string, testFilePath: string, files: seq<ProjectFile>, k: nat)
    requires k < |files| && files[k].name == c + JavaSuffix
    ensures var r := RecordTestFile(c + TestSuffix, testFilePath, files);
            r.cut == c && exists j :: 0 <= j <= k && FirstNamed(files, c + JavaSuffix, j) && r.cutPath == files[j].path
  {
    TestFileNameRoundTrip(c);
    var j := FirstIndexNamed(files, c + JavaSuffix, k);
  }

  /** A test file whose class under test has no file in the project gets
      "Not Found" for both. */
  lemma ConventionWithoutClassNotFound(c: string, testFilePath: string, files: seq<ProjectFile>)
    requires forall k :: 0 <= k < |files| ==> files[k].name != c + JavaSuffix
    ensures var r := RecordTestFile(c + TestSuffix, testFilePath, files);
            r.cut == NotFound && r.cutPath == NotFound
  {
    TestFileNameRoundTrip(c);
  }

  /** Some file at or before `k` is the first one named `name`. */
  lemma {:induction false} FirstIndexNamed(files: seq<ProjectFile>, name: string, k: nat) returns (j: nat)
    requires k < |files| && files[k].name == name
    ensures j <= k && FirstNamed(files, name, j)
    decreases k
  {
    if forall i :: 0 <= i < k ==> files[i].name != name {
      j := k;
    } else {
      var i :| 0 <= i < k && files[i].name == name;
      j := FirstIndexNamed(files, name, i);
    }
  }
}
