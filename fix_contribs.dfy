/**
 * The repair script: for every contribution folder, ensure `tests/`, then run six
 * check-then-create tasks in a fixed order. Three of the creators are called without
 * the `name` they require, so reaching any of them raises a TypeError that ends the run.
 */
module FixContribs {
  import opened Files
  import opened Utils

  /** `contrib/<n>`. */
  function Folder(n: string): Path
  {
    ContribDir + [n]
  }

  /** The conftest check, whose definition the helpers do not provide: a `conftest.py` in the folder. */
  predicate ConftestExists(s: Snapshot, dir: Path)
  {
    Exists(s, dir + ["conftest.py"])
  }

  /** The folder lacks one of the files whose creator is called without `name`. */
  predicate Incomplete(s: Snapshot, n: string)
  {
    !PyprojectExists(s, Folder(n)) || !ReadmeExists(s, Folder(n)) || !InitPyExists(s, Folder(n))
  }

  /** Where `create_test_file` writes. */
  function TestsFile(n: string): Path
  {
    Folder(n) + ["tests", "test_" + n + ".py"]
  }

  /**
   * The tasks of one folder, after `tests/` is made: the pyproject, README and `__init__`
   * tasks raise when their file is absent; the main-module, test-file and conftest tasks
   * create their file when the check fails.
   */
  function FixFolder(s: Snapshot, n: string, conftest: string): (Snapshot, bool)
  {
    var dir := Folder(n);
    var t := MadeDirs(s, dir + ["tests"]);
    if Incomplete(t, n) then (t, true)
    else
      var t1 := if MainPyExists(t, dir, n) then t else Written(t, dir + [n + ".py"], MainPyText(n));
      var t2 := if TestFileExists(t1, dir, n) then t1 else Written(t1, TestsFile(n), TestFileText(n));
      var t3 := if ConftestExists(t2, dir) then t2 else Written(t2, dir + ["conftest.py"], conftest);
      (t3, false)
  }

  /** `for subdir in list_subdirs(CONTRIB_DIR)`, visiting the folders in `order`, until a task raises. */
  function FixAll(s: Snapshot, order: seq<string>, conftest: string): (Snapshot, bool)
  {
    if order == [] then (s, false)
    else
      var (t, raised) := FixAll(s, order[..|order| - 1], conftest);
      if raised then (t, true) else FixFolder(t, order[|order| - 1], conftest)
  }

  predicate Distinct(order: seq<string>)
  {
    forall i, j :: 0 <= i < j < |order| ==> order[i] != order[j]
  }

  /** One folder's tasks. */
  method FixFolderTasks(fs: FileSystem, n: string, conftest: string) returns (raised: bool)
    modifies fs
    ensures (fs.State(), raised) == FixFolder(old(fs.State()), n, conftest)
  {
    var dir := Folder(n);
    CreateTestsDirectory(fs, dir);
    if !PyprojectExists(fs.State(), dir) {
      return true;
    }
    if !ReadmeExists(fs.State(), dir) {
      return true;
    }
    if !InitPyExists(fs.State(), dir) {
      return true;
    }
    if !MainPyExists(fs.State(), dir, n) {
      CreateMainPy(fs, dir, n);
    }
    if !TestFileExists(fs.State(), dir, n) {
      CreateTestFile(fs, dir, n);
    }
    if !ConftestExists(fs.State(), dir) {
      fs.WriteFile(dir + ["conftest.py"], conftest);
    }
    return false;
  }

  /**
   * `create_files_for_contribs()`: nothing when `contrib` is absent; otherwise the tasks of
   * every folder, in the order the set of folders yields them (`order`), until one raises.
   */
  method CreateFilesForContribs(fs: FileSystem, listing: seq<string>, conftest: string)
    returns (raised: bool, ghost order: seq<string>)
    modifies fs
    ensures var subdirs := ListDirectories(old(fs.State()), ContribDir, listing);
            && Distinct(order)
            && (forall n :: n in order ==> n in subdirs)
            && (!raised ==> forall n :: n in subdirs ==> n in order)
            && (fs.State(), raised) == FixAll(old(fs.State()), order, conftest)
  {
    order := [];
    if !(ContribDir in fs.dirs || ContribDir in fs.files) {
      return false, order;
    }
    ghost var s0 := fs.State();
    var subdirs := ListDirectories(fs.State(), ContribDir, listing);
    var todo := subdirs;
    raised := false;
    while todo != {}
      invariant todo <= subdirs
      invariant Distinct(order)
      invariant forall n :: n in order <==> n in subdirs && n !in todo
      invariant (fs.State(), false) == FixAll(s0, order, conftest)
      decreases todo
    {
      var n :| n in todo;
      raised := FixFolderTasks(fs, n, conftest);
      FixAllStep(s0, order, n, conftest);
      DistinctStep(order, n);
      order := order + [n];
      todo := todo - {n};
      if raised {
        return raised, order;
      }
    }
  }

  /** Visiting one more folder after a run that has not raised runs that folder's tasks. */
  lemma FixAllStep(s: Snapshot, order: seq<string>, n: string, conftest: string)
    requires !FixAll(s, order, conftest).1
    ensures FixAll(s, order + [n], conftest) == FixFolder(FixAll(s, order, conftest).0, n, conftest)
  {
    assert (order + [n])[..|order|] == order;
  }

  lemma DistinctStep(order: seq<string>, n: string)
    requires Distinct(order) && n !in order
    ensures Distinct(order + [n])
  {
  }

  // What a folder's tasks touch.

  /** The folder's tasks change nothing outside the folder, whatever they do inside it. */
  lemma FixFolderFrame(s: Snapshot, n: string, conftest: string, p: Path)
    requires |p| >= 2 && p[1] != n
    ensures var r := FixFolder(s, n, conftest).0;
            && (p in r.dirs <==> p in s.dirs)
            && (p in r.files <==> p in s.files)
            && (p in s.files ==> r.files[p] == s.files[p])
  {
    var made := Folder(n) + ["tests"];
    forall k | 1 <= k <= |made| ensures p != made[..k] {
      if k >= 2 { assert made[..k][1] == n; }
    }
    assert (Folder(n) + [n + ".py"])[1] == n;
    assert TestsFile(n)[1] == n;
    assert (Folder(n) + ["conftest.py"])[1] == n;
  }

  /** Making `tests/` changes no other entry of the folder. */
  lemma TestsDirKeeps(s: Snapshot, n: string, f: string)
    requires f != "tests"
    ensures var t := MadeDirs(s, Folder(n) + ["tests"]);
            Exists(t, Folder(n) + [f]) <==> Exists(s, Folder(n) + [f])
  {
    var made := Folder(n) + ["tests"];
    assert made[..3] == made;
    assert (Folder(n) + [f])[2] == f;
  }

  /** Making `tests/` does not change what the three checks that raise find. */
  lemma TestsDirKeepsChecks(s: Snapshot, n: string)
    ensures Incomplete(MadeDirs(s, Folder(n) + ["tests"]), n) == Incomplete(s, n)
  {
    assert |"tests"| == 5;
    TestsDirKeeps(s, n, "pyproject.toml");
    TestsDirKeeps(s, n, "README.md");
    TestsDirKeeps(s, n, "__init__.py");
  }

  /** The folder's tasks raise exactly when it lacks its `pyproject.toml`, `README.md` or `__init__.py`. */
  lemma FixFolderRaises(s: Snapshot, n: string, conftest: string)
    ensures FixFolder(s, n, conftest).1 <==> Incomplete(s, n)
  {
    TestsDirKeepsChecks(s, n);
  }

  /** Every file that existed is unchanged afterwards, except the test module under `tests/`. */
  lemma FixFolderKeeps(s: Snapshot, n: string, conftest: string)
    ensures var r := FixFolder(s, n, conftest).0;
            forall p :: p in s.files && p != TestsFile(n) ==> p in r.files && r.files[p] == s.files[p]
  {
    var dir := Folder(n);
    var t := MadeDirs(s, dir + ["tests"]);
    assert t.files == s.files;
    if !Incomplete(t, n) {
      var t1 := if MainPyExists(t, dir, n) then t else Written(t, dir + [n + ".py"], MainPyText(n));
      var t2 := if TestFileExists(t1, dir, n) then t1 else Written(t1, TestsFile(n), TestFileText(n));
      var t3 := if ConftestExists(t2, dir) then t2 else Written(t2, dir + ["conftest.py"], conftest);
      assert FixFolder(s, n, conftest).0 == t3;
      forall p | p in s.files && p != TestsFile(n) ensures p in t3.files && t3.files[p] == s.files[p] {
        assert p in t1.files && t1.files[p] == s.files[p];
        assert p in t2.files && t2.files[p] == s.files[p];
      }
    }
  }

  /** Without an exception the folder ends with `tests/`, its main module and its conftest. */
  lemma FixFolderCompletes(s: Snapshot, n: string, conftest: string)
    requires !FixFolder(s, n, conftest).1
    ensures var r := FixFolder(s, n, conftest).0;
            && Folder(n) + ["tests"] in r.dirs
            && Exists(r, Folder(n) + [n + ".py"])
            && Exists(r, Folder(n) + ["conftest.py"])
  {
    var made := Folder(n) + ["tests"];
    assert made == made[..|made|];
  }

  /**
   * The test check looks for `test_<n>.py` in the folder, not in `tests/`: without the
   * former, the module under `tests/` is written afresh, whatever it held.
   */
  lemma FixFolderRewritesTest(s: Snapshot, n: string, conftest: string)
    requires !FixFolder(s, n, conftest).1
    requires !Exists(s, Folder(n) + ["test_" + n + ".py"])
    ensures var r := FixFolder(s, n, conftest).0;
            TestsFile(n) in r.files && r.files[TestsFile(n)] == TestFileText(n)
  {
    var dir := Folder(n);
    var made := dir + ["tests"];
    var rootTest := dir + ["test_" + n + ".py"];
    var mainFile := dir + [n + ".py"];
    assert mainFile != rootTest by {
      assert |mainFile[2]| != |rootTest[2]|;
    }
    forall k | 1 <= k <= |made| ensures rootTest != made[..k] {
      if k == 3 {
        assert made[..k][2] == "tests";
        assert |"tests"| != |rootTest[2]|;
      }
    }
    var t := MadeDirs(s, made);
    assert !Exists(t, rootTest);
    var t1 := if MainPyExists(t, dir, n) then t else Written(t, mainFile, MainPyText(n));
    assert !TestFileExists(t1, dir, n);
    var t2 := Written(t1, TestsFile(n), TestFileText(n));
    var t3 := if ConftestExists(t2, dir) then t2 else Written(t2, dir + ["conftest.py"], conftest);
    assert |dir + ["conftest.py"]| != |TestsFile(n)|;
    assert FixFolder(s, n, conftest).0 == t3;
  }

  // The whole run.

  /** No file or directory ever disappears. */
  lemma {:induction false} FixAllGrows(s: Snapshot, order: seq<string>, conftest: string)
    ensures var r := FixAll(s, order, conftest).0;
            s.dirs <= r.dirs && s.files.Keys <= r.files.Keys
  {
    if order != [] {
      FixAllGrows(s, order[..|order| - 1], conftest);
    }
  }

  /** Paths outside the folders visited are untouched. */
  lemma {:induction false} FixAllFrame(s: Snapshot, order: seq<string>, conftest: string, p: Path)
    requires |p| >= 2 && p[1] !in order
    ensures var r := FixAll(s, order, conftest).0;
            && (p in r.dirs <==> p in s.dirs)
            && (p in r.files <==> p in s.files)
            && (p in s.files ==> r.files[p] == s.files[p])
  {
    if order != [] {
      var init := order[..|order| - 1];
      assert p[1] !in init;
      FixAllFrame(s, init, conftest, p);
      var (t, raised) := FixAll(s, init, conftest);
      if !raised {
        FixFolderFrame(t, order[|order| - 1], conftest, p);
      }
    }
  }

  /**
   * With each folder visited once, the run raises exactly when some visited folder lacks
   * its `pyproject.toml`, `README.md` or `__init__.py` at the start.
   */
  lemma {:induction false} FixAllRaises(s: Snapshot, order: seq<string>, conftest: string)
    requires Distinct(order)
    ensures FixAll(s, order, conftest).1 <==> exists i :: 0 <= i < |order| && Incomplete(s, order[i])
  {
    if order != [] {
      var init := order[..|order| - 1];
      var n := order[|order| - 1];
      FixAllRaises(s, init, conftest);
      var (t, raised) := FixAll(s, init, conftest);
      assert n !in init;
      FixAllKeepsChecks(s, init, conftest, n);
      FixFolderRaises(t, n, conftest);
      if exists i :: 0 <= i < |order| && Incomplete(s, order[i]) {
        var i :| 0 <= i < |order| && Incomplete(s, order[i]);
        if i < |init| { assert init[i] == order[i]; }
      }
    }
  }

  /** The checks that raise see, in a folder not yet visited, what they would have seen at the start. */
  lemma FixAllKeepsChecks(s: Snapshot, order: seq<string>, conftest: string, n: string)
    requires n !in order
    ensures Incomplete(FixAll(s, order, conftest).0, n) == Incomplete(s, n)
  {
    FixAllFrame(s, order, conftest, Folder(n) + ["pyproject.toml"]);
    FixAllFrame(s, order, conftest, Folder(n) + ["README.md"]);
    FixAllFrame(s, order, conftest, Folder(n) + ["__init__.py"]);
  }

  /**
   * A run with no exception leaves in every folder visited a `tests/` directory, its main
   * module and its conftest, and changes no file that existed except the modules under `tests/`.
   */
  lemma {:induction false} FixAllCompletes(s: Snapshot, order: seq<string>, conftest: string)
    requires !FixAll(s, order, conftest).1
    ensures var r := FixAll(s, order, conftest).0;
            && (forall n :: n in order ==>
                  Folder(n) + ["tests"] in r.dirs && Exists(r, Folder(n) + [n + ".py"]) && Exists(r, Folder(n) + ["conftest.py"]))
            && (forall p :: p in s.files && (forall n :: n in order ==> p != TestsFile(n)) ==>
                  p in r.files && r.files[p] == s.files[p])
  {
    if order != [] {
      var init := order[..|order| - 1];
      var n := order[|order| - 1];
      var t := FixAll(s, init, conftest).0;
      FixAllCompletes(s, init, conftest);
      FixFolderKeeps(t, n, conftest);
      FixFolderCompletes(t, n, conftest);
      var r := FixFolder(t, n, conftest).0;
      assert t.dirs <= r.dirs && t.files.Keys <= r.files.Keys by {
        assert FixAll(t, [n], conftest).0 == r;
        FixAllGrows(t, [n], conftest);
      }
      forall p | p in s.files && (forall m :: m in order ==> p != TestsFile(m))
        ensures p in r.files && r.files[p] == s.files[p]
      {
        assert forall m :: m in init ==> m in order;
      }
    }
  }
}
