/**
 * Staging of one job's work directory: the directories `tests` and `outs`,
 * then, issued together, the submitted source `main.cpp`, one `tests/<safeName>.in` per test and,
 * for a test that carries a data file, `testdata/<safeName>/<basename>`.
 * Paths are lists of components relative to the work directory, after the
 * normalisation POSIX `path.join` applies.
 */
module Staging {
  import opened Common
  import opened TestPrep
  import opened Collections

  /** A filesystem effect of the job handler, in the order the handler issues it. */
  datatype Effect =
    | MakeWorkDir
    | MakeDir(dir: seq<string>)
    | WriteFile(path: seq<string>, content: string)
    | RunSandbox
    | RemoveWorkDir

  /** `s` without its trailing `/` characters. */
  function StripTrailingSlashes(s: string): (r: string)
    ensures r <= s
    ensures r == [] || r[|r| - 1] != '/'
  {
    if s != [] && s[|s| - 1] == '/' then StripTrailingSlashes(s[..|s| - 1]) else s
  }

  /** The characters of `s` after its last `/`, or all of `s` when it has none. */
  function AfterLastSlash(s: string): (r: string)
    ensures |r| <= |s| && r == s[|s| - |r|..]
    ensures forall i :: 0 <= i < |r| ==> r[i] != '/'
  {
    if s == [] then []
    else if s[|s| - 1] == '/' then []
    else AfterLastSlash(s[..|s| - 1]) + [s[|s| - 1]]
  }

  /** POSIX `path.basename(p)`: the last component of `p`, ignoring trailing slashes. */
  function Basename(p: string): (b: string)
    ensures forall i :: 0 <= i < |b| ==> b[i] != '/'
  {
    AfterLastSlash(StripTrailingSlashes(p))
  }

  /** A component that `path.join` keeps as a name of its own. */
  predicate IsPlainComponent(c: string) {
    c != "" && c != "." && c != ".." && forall i :: 0 <= i < |c| ==> c[i] != '/'
  }

  /** A sanitised test name is a plain component, and so is the name of its input file. */
  lemma SafeNamePlain(n: string)
    requires IsSafeName(n)
    ensures IsPlainComponent(n) && IsPlainComponent(n + ".in")
  {
    assert n[0] != '.' && n[0] != '/';
    assert (n + ".in")[0] == n[0];
  }

  /** A test carries a data file when both its name and its content are non-empty strings. */
  predicate HasDataFile(t: SafeTest) {
    && t.test.dataFileName.Some? && t.test.dataFileName.value != ""
    && t.test.dataFileContent.Some? && t.test.dataFileContent.value != ""
  }

  /** `testdata/<safeName>`, the data directory of one test. */
  function DataDir(safeName: string): seq<string> {
    ["testdata", safeName]
  }

  /**
   * `join(testdata/<safeName>, basename(name))` after normalisation: an empty
   * basename or `.` is the data directory itself and `..` is `testdata`.
   */
  function DataFilePath(safeName: string, name: string): (p: seq<string>)
    ensures IsPlainComponent(Basename(name)) ==> p == DataDir(safeName) + [Basename(name)]
    ensures !IsPlainComponent(Basename(name)) ==> p == DataDir(safeName) || p == ["testdata"]
  {
    var b := Basename(name);
    if b == "" || b == "." then DataDir(safeName)
    else if b == ".." then ["testdata"]
    else DataDir(safeName) + [b]
  }

  /** The data file's path names a directory the staging creates, so writing it fails. */
  predicate LandsOnDirectory(t: SafeTest)
    requires HasDataFile(t)
  {
    !IsPlainComponent(Basename(t.test.dataFileName.value))
  }

  /** The writes issued for one test. */
  function TestWrites(t: SafeTest): seq<Effect> {
    [WriteFile(["tests", t.safeName + ".in"], t.test.input)]
    + if HasDataFile(t) then
        [MakeDir(DataDir(t.safeName)),
         WriteFile(DataFilePath(t.safeName, t.test.dataFileName.value), t.test.dataFileContent.value)]
      else []
  }

  function AllTestWrites(ps: seq<SafeTest>): seq<Effect> {
    if ps == [] then [] else TestWrites(ps[0]) + AllTestWrites(ps[1..])
  }

  /** The two directories the handler creates, one after the other, before issuing any write. */
  const StagingDirs: seq<Effect> := [MakeDir(["tests"]), MakeDir(["outs"])]

  /** The `writeOps` the handler issues together once both directories exist: the source, then each test's writes. */
  function WritePlan(ps: seq<SafeTest>, code: string): seq<Effect> {
    [WriteFile(["main.cpp"], code)] + AllTestWrites(ps)
  }

  /** Some data file of `ps` lands on a directory. */
  predicate SomeWriteLandsOnDirectory(ps: seq<SafeTest>) {
    exists i :: 0 <= i < |ps| && HasDataFile(ps[i]) && LandsOnDirectory(ps[i])
  }

  /** A file write whose path starts in `testdata`. */
  predicate IsDataWrite(e: Effect) {
    e.WriteFile? && |e.path| >= 1 && e.path[0] == "testdata"
  }

  /** Each file one test writes is its input file or, when it has one, its data file. */
  lemma TestWritesCases(t: SafeTest)
    ensures forall e :: e in TestWrites(t) && e.WriteFile? ==>
      e == WriteFile(["tests", t.safeName + ".in"], t.test.input)
      || (HasDataFile(t) && e == WriteFile(DataFilePath(t.safeName, t.test.dataFileName.value), t.test.dataFileContent.value))
    ensures HasDataFile(t) ==>
      WriteFile(DataFilePath(t.safeName, t.test.dataFileName.value), t.test.dataFileContent.value) in TestWrites(t)
  {
    var input := WriteFile(["tests", t.safeName + ".in"], t.test.input);
    if HasDataFile(t) {
      var data := WriteFile(DataFilePath(t.safeName, t.test.dataFileName.value), t.test.dataFileContent.value);
      assert TestWrites(t) == [input, MakeDir(DataDir(t.safeName)), data];
    } else {
      assert TestWrites(t) == [input];
    }
  }

  /**
   * A data file is written exactly when its name and content are both
   * non-empty, inside that test's data directory (or, for a name whose
   * basename is `..`, onto `testdata` itself).
   */
  lemma DataFileWrittenIff(t: SafeTest)
    ensures (exists e :: e in TestWrites(t) && IsDataWrite(e)) <==> HasDataFile(t)
    ensures forall e :: e in TestWrites(t) && IsDataWrite(e) ==>
      e.path == ["testdata"] || (|e.path| >= 2 && e.path[..2] == DataDir(t.safeName))
    ensures HasDataFile(t) ==> forall e :: e in TestWrites(t) && IsDataWrite(e) && |e.path| == 3 ==>
      e.path == DataDir(t.safeName) + [Basename(t.test.dataFileName.value)]
      && IsPlainComponent(e.path[2])
  {
    TestWritesCases(t);
    if HasDataFile(t) {
      DataWriteOfDataFile(t);
    }
  }

  /** The data file's write, the only one of a test that starts in `testdata`. */
  lemma DataWriteOfDataFile(t: SafeTest)
    requires HasDataFile(t)
    ensures var e := WriteFile(DataFilePath(t.safeName, t.test.dataFileName.value), t.test.dataFileContent.value);
      && IsDataWrite(e)
      && (e.path == ["testdata"] || e.path[..2] == DataDir(t.safeName))
      && (|e.path| == 3 ==> e.path == DataDir(t.safeName) + [Basename(t.test.dataFileName.value)]
                             && IsPlainComponent(e.path[2]))
  {
    var b := Basename(t.test.dataFileName.value);
    var p := DataFilePath(t.safeName, t.test.dataFileName.value);
    if IsPlainComponent(b) {
      assert p == ["testdata", t.safeName, b];
    } else {
      assert p == ["testdata", t.safeName] || p == ["testdata"];
    }
  }

  /** One test's writes, as `AllTestWrites` lists them. */
  lemma {:induction false} AllTestWritesHas(ps: seq<SafeTest>, i: nat, e: Effect)
    requires i < |ps| && e in TestWrites(ps[i])
    ensures e in AllTestWrites(ps)
    decreases i
  {
    if i > 0 {
      assert ps[1..][i - 1] == ps[i];
      AllTestWritesHas(ps[1..], i - 1, e);
    }
  }

  /** Every effect of `AllTestWrites` comes from one of the tests. */
  lemma {:induction false} AllTestWritesFrom(ps: seq<SafeTest>, e: Effect)
    requires e in AllTestWrites(ps)
    ensures exists i :: 0 <= i < |ps| && e in TestWrites(ps[i])
    decreases |ps|
  {
    if e !in TestWrites(ps[0]) {
      AllTestWritesFrom(ps[1..], e);
      var i :| 0 <= i < |ps[1..]| && e in TestWrites(ps[1..][i]);
      assert ps[1..][i] == ps[i + 1];
    }
  }

  /**
   * With distinct safe names, no two tests write the same file: writes with
   * a path of two or more components are confined to the test's own
   * `tests/<safeName>.in` and `testdata/<safeName>/`.
   */
  lemma WritesDisjoint(s: SafeTest, t: SafeTest, e: Effect, f: Effect)
    requires IsSafeName(s.safeName) && IsSafeName(t.safeName) && s.safeName != t.safeName
    requires e in TestWrites(s) && f in TestWrites(t) && e.WriteFile? && f.WriteFile?
    requires |e.path| >= 2 && |f.path| >= 2
    ensures e.path != f.path
  {
    TestWritesCases(s);
    TestWritesCases(t);
    if e.path[0] == "tests" && f.path[0] == "tests" {
      assert e.path[1] == s.safeName + ".in" && f.path[1] == t.safeName + ".in";
      if s.safeName + ".in" == t.safeName + ".in" {
        AppendCancel(s.safeName, t.safeName, ".in");
      }
    } else if e.path[0] != "tests" && f.path[0] != "tests" {
      assert e.path[1] == s.safeName && f.path[1] == t.safeName;
    }
  }

  lemma AppendCancel(a: string, b: string, c: string)
    requires a + c == b + c
    ensures a == b
  {
    assert a == (a + c)[..|a|];
    assert b == (b + c)[..|b|];
  }

  /** The `writeOps` loop: the source file first, then each test's writes in order. */
  method Stage(ps: seq<SafeTest>, code: string) returns (ops: seq<Effect>)
    ensures ops == WritePlan(ps, code)
  {
    ops := [WriteFile(["main.cpp"], code)];
    var i := 0;
    while i < |ps|
      invariant 0 <= i <= |ps|
      invariant ops + AllTestWrites(ps[i..]) == WritePlan(ps, code)
    {
      var t := ps[i];
      ghost var before := ops;
      AllTestWritesStep(ps, i);
      AppendAssoc(ops, TestWrites(t), AllTestWrites(ps[i + 1..]));
      var input := WriteFile(["tests", t.safeName + ".in"], t.test.input);
      ops := ops + [input];
      if t.test.dataFileName.Some? && t.test.dataFileName.value != ""
         && t.test.dataFileContent.Some? && t.test.dataFileContent.value != "" {
        var dir := DataDir(t.safeName);
        var data := WriteFile(DataFilePath(t.safeName, t.test.dataFileName.value), t.test.dataFileContent.value);
        AppendAssoc(before, [input], [MakeDir(dir), data]);
        ops := ops + [MakeDir(dir), data];
      }
      assert ops == before + TestWrites(t);
      i := i + 1;
    }
    assert ps[i..] == [];
  }

  lemma AllTestWritesStep(ps: seq<SafeTest>, i: nat)
    requires i < |ps|
    ensures AllTestWrites(ps[i..]) == TestWrites(ps[i]) + AllTestWrites(ps[i + 1..])
  {
    assert ps[i..][1..] == ps[i + 1..];
  }
}
