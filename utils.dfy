/**
 * The helpers of the scaffolding scripts: existence checks and file creators for
 * the parts of a contribution folder, the `pyproject.toml` renderer, the reader and
 * validator of its `[project]` table, and the docs synchroniser without index.
 */
module Utils {
  import opened Wrappers
  import opened Text
  import opened Values
  import opened Files
  import opened Validation

  const DefaultAuthorName := "Contributor Name"
  const DefaultAuthorEmail := "contributor1@example.com"
  const DefaultLicense := "CeCILL-C FREE SOFTWARE LICENSE AGREEMENT"
  const DefaultVersion := "1.0.0"

  const ContribDir: Path := ["contrib"]
  const DocsContribDir: Path := ["docs", "contrib"]

  /** The required fields of the `[project]` table (no `date`). */
  const FiveFields: seq<string> := ["name", "description", "contact", "version", "license"]

  // Existence checks, each `os.path.exists` of one path of a contribution folder.

  predicate ReadmeExists(s: Snapshot, dir: Path) { Exists(s, dir + ["README.md"]) }
  predicate InitPyExists(s: Snapshot, dir: Path) { Exists(s, dir + ["__init__.py"]) }
  predicate MainPyExists(s: Snapshot, dir: Path, name: string) { Exists(s, dir + [name + ".py"]) }
  /** Looks for the test module in the folder itself, not in its `tests/` subfolder. */
  predicate TestFileExists(s: Snapshot, dir: Path, name: string) { Exists(s, dir + ["test_" + name + ".py"]) }
  predicate PyprojectExists(s: Snapshot, dir: Path) { Exists(s, dir + ["pyproject.toml"]) }

  // File contents.

  /** `# {name}` on its own line, then the description, if any, with no newline after it. */
  function ReadmeText(name: string, description: string): string
  {
    "# " + name + "\n" + (if description != "" then description else "")
  }

  // The docstring stubs: an opening, the name, a closing and a newline.
  const InitOpen: string := "\"\"\" "
  const InitClose: string := " \"\"\""
  const MainOpen: string := "\"\"\"ocean4dvarnet contribution "
  const TestOpen: string := "\"\"\"tests for contribution "
  const Quotes: string := "\"\"\""

  function InitPyText(name: string): string { InitOpen + name + InitClose + "\n" }
  function MainPyText(name: string): string { MainOpen + name + Quotes + "\n" }
  function TestFileText(name: string): string { TestOpen + name + Quotes + "\n" }

  /** The title of a README: its first line without the `# ` marker. */
  function ReadmeTitle(text: string): string
  {
    var k := LineEnd(text);
    if k >= 2 then text[2..k] else ""
  }

  /** What follows the first line of a README. */
  function ReadmeBody(text: string): string
  {
    var k := LineEnd(text);
    if k < |text| then text[k + 1..] else ""
  }

  /** A README written for `name` and `description` gives both back. */
  lemma ReadmeRoundTrip(name: string, description: string)
    requires SingleLine(name)
    ensures ReadmeTitle(ReadmeText(name, description)) == name
    ensures ReadmeBody(ReadmeText(name, description)) == description
  {
    var text := ReadmeText(name, description);
    assert text == ("# " + name) + "\n" + description;
    LineEndAfter("# " + name, description);
    assert text[..|name| + 2] == "# " + name;
  }

  lemma {:induction false} SubstringOfMiddle(a: string, b: string, c: string)
    ensures Substring(b, a + b + c)
  {
    if a != [] {
      assert (a + b + c)[1..] == a[1..] + b + c;
      SubstringOfMiddle(a[1..], b, c);
    } else {
      assert (a + b + c)[..|b|] == b;
    }
  }

  /** Each stub is a single docstring line that names the contribution. */
  lemma StubsAreOneLine(name: string)
    requires SingleLine(name)
    ensures |Lines(InitPyText(name))| == 1 && Substring(name, InitPyText(name))
    ensures |Lines(MainPyText(name))| == 1 && Substring(name, MainPyText(name))
    ensures |Lines(TestFileText(name))| == 1 && Substring(name, TestFileText(name))
  {
    InitPartsSingle();
    DocstringLine(InitOpen, name, InitClose);
    MainOpenSingle();
    QuotesSingle();
    DocstringLine(MainOpen, name, Quotes);
    TestOpenSingle();
    DocstringLine(TestOpen, name, Quotes);
  }

  lemma InitPartsSingle() ensures SingleLine(InitOpen) && SingleLine(InitClose) {}
  lemma MainOpenSingle() ensures SingleLine(MainOpen) {}
  lemma TestOpenSingle() ensures SingleLine(TestOpen) {}
  lemma QuotesSingle() ensures SingleLine(Quotes) {}

  /** `pre + name + post` and a newline is one line that contains `name`. */
  lemma DocstringLine(pre: string, name: string, post: string)
    requires SingleLine(pre) && SingleLine(name) && SingleLine(post)
    ensures |Lines(pre + name + post + "\n")| == 1 && Substring(name, pre + name + post + "\n")
  {
    Joined3(pre, name, post);
    var l := pre + name + post;
    assert l + "\n" == Unlines([l]);
    LinesOfUnlines([l]);
    assert l + "\n" == pre + name + (post + "\n");
    SubstringOfMiddle(pre, name, post + "\n");
  }

  /**
   * The test module is created under `tests/`, but its check looks in the folder itself:
   * creating it never makes the check true, and a later run creates it again.
   */
  lemma TestFileCheckMissesCreatedFile(s: Snapshot, dir: Path, name: string)
    ensures TestFileExists(Written(s, dir + ["tests", "test_" + name + ".py"], TestFileText(name)), dir, name)
            == TestFileExists(s, dir, name)
  {
    var created := dir + ["tests", "test_" + name + ".py"];
    assert created != dir + ["test_" + name + ".py"] by {
      assert created[|dir|] == "tests";
      assert (dir + ["test_" + name + ".py"])[|dir|] == "test_" + name + ".py";
      assert "tests"[4] != ("test_" + name + ".py")[4];
    }
  }

  /** The other creators make their own check true. */
  lemma CreatorsSatisfyChecks(s: Snapshot, dir: Path, name: string, description: string, pyproject: string)
    ensures ReadmeExists(Written(s, dir + ["README.md"], ReadmeText(name, description)), dir)
    ensures InitPyExists(Written(s, dir + ["__init__.py"], InitPyText(name)), dir)
    ensures MainPyExists(Written(s, dir + [name + ".py"], MainPyText(name)), dir, name)
    ensures PyprojectExists(Written(s, dir + ["pyproject.toml"], pyproject), dir)
  {
  }

  // pyproject.toml

  /** The optional keys of the `metadata` dict; an absent key takes its default. */
  datatype PyprojectOptions = PyprojectOptions(
    description: Option<string>,
    version: Option<string>,
    license: Option<string>,
    authorName: Option<string>,
    authorEmail: Option<string>,
    dependencies: Option<seq<string>>)

  /** `metadata=None` (or an empty dict): every key takes its default. */
  const NoOptions := PyprojectOptions(None, None, None, None, None, None)

  function QuotedDeps(deps: seq<string>): (r: seq<string>)
    ensures |r| == |deps|
    ensures forall i :: 0 <= i < |deps| ==> r[i] == "\"" + deps[i] + "\","
  {
    seq(|deps|, i requires 0 <= i < |deps| => "\"" + deps[i] + "\",")
  }

  function DepsSection(deps: seq<string>): string
  {
    if |deps| > 0 then " [\n" + Join("\n", QuotedDeps(deps)) + "\n]" else " []"
  }

  /** The six fixed lines of the `[project]` table, with the defaults filled in. */
  function HeaderLines(name: string, o: PyprojectOptions): seq<string>
  {
    [ "[project]",
      "name = \"" + name + "\"",
      "description = \"" + o.description.GetOr(name) + "\"",
      "version = \"" + o.version.GetOr("1.0.0") + "\"",
      "license = \"" + o.license.GetOr("CeCILL-C FREE SOFTWARE LICENSE AGREEMENT") + "\"",
      "authors = [{ name = \"" + o.authorName.GetOr("Contributor Name")
        + "\", email = \"" + o.authorEmail.GetOr("contributor1@example.com") + "\" }]" ]
  }

  /** The text `write_pyproject_file` writes: the template's fixed lines, then `dependencies = ` and the section. */
  function PyprojectText(name: string, o: PyprojectOptions): string
  {
    Unlines(HeaderLines(name, o)) + "dependencies = " + DepsSection(o.dependencies.GetOr([])) + "\n"
  }

  /** The lines of the dependencies entry: inline when empty, else one quoted line per dependency. */
  function DepsLines(deps: seq<string>): seq<string>
  {
    if deps == [] then ["dependencies =  []"] else ["dependencies =  ["] + QuotedDeps(deps) + ["]"]
  }

  predicate PlainOptions(name: string, o: PyprojectOptions)
  {
    && SingleLine(name)
    && SingleLine(o.description.GetOr(name))
    && SingleLine(o.version.GetOr(DefaultVersion))
    && SingleLine(o.license.GetOr(DefaultLicense))
    && SingleLine(o.authorName.GetOr(DefaultAuthorName))
    && SingleLine(o.authorEmail.GetOr(DefaultAuthorEmail))
    && AllSingleLine(o.dependencies.GetOr([]))
  }

  /** The dependencies entry, as written, is the lines `DepsLines` each followed by a newline. */
  lemma DepsText(deps: seq<string>)
    ensures "dependencies = " + DepsSection(deps) + "\n" == Unlines(DepsLines(deps))
  {
    var open := "dependencies =  [";
    if deps == [] {
      var line := "dependencies =  []";
      assert DepsLines(deps) == [line];
      assert Unlines([line]) == line + "\n" + Unlines([]);
      assert "dependencies = " + " []" == line;
    } else {
      var q := QuotedDeps(deps);
      var j := Join("\n", q);
      assert DepsSection(deps) == " [\n" + j + "\n]";
      JoinThenNewline(q);
      UnlinesAppend(q, ["]"]);
      assert Unlines(["]"]) == "]" + "\n" + Unlines([]);
      assert Unlines(q + ["]"]) == j + "\n" + "]\n";
      assert DepsLines(deps) == [open] + (q + ["]"]);
      assert Unlines([open] + (q + ["]"])) == open + "\n" + Unlines(q + ["]"]);
      assert "dependencies = " + " [\n" == open + "\n";
      calc {
        "dependencies = " + DepsSection(deps) + "\n";
        "dependencies = " + (" [\n" + j + "\n]") + "\n";
        ("dependencies = " + " [\n") + j + "\n]" + "\n";
        open + "\n" + j + "\n]" + "\n";
        open + "\n" + (j + "\n" + "]\n");
      }
    }
  }

  /**
   * The file is the `[project]` header, then name, description, version, license and
   * authors, one line each with the defaults filled in, then the dependencies.
   */
  lemma PyprojectLayout(name: string, o: PyprojectOptions)
    requires PlainOptions(name, o)
    ensures Lines(PyprojectText(name, o)) ==
      [ "[project]",
        "name = \"" + name + "\"",
        "description = \"" + o.description.GetOr(name) + "\"",
        "version = \"" + o.version.GetOr(DefaultVersion) + "\"",
        "license = \"" + o.license.GetOr(DefaultLicense) + "\"",
        "authors = [{ name = \"" + o.authorName.GetOr(DefaultAuthorName)
          + "\", email = \"" + o.authorEmail.GetOr(DefaultAuthorEmail) + "\" }]" ]
      + DepsLines(o.dependencies.GetOr([]))
  {
    var deps := o.dependencies.GetOr([]);
    var head := HeaderLines(name, o);
    HeaderSingleLines(name, o);
    DepsText(deps);
    UnlinesAppend(head, DepsLines(deps));
    assert PyprojectText(name, o) == Unlines(head) + ("dependencies = " + DepsSection(deps) + "\n");
    forall i | 0 <= i < |deps| ensures SingleLine(QuotedDeps(deps)[i]) {
      assert SingleLine(deps[i]);
    }
    assert AllSingleLine(DepsLines(deps));
    LinesOfUnlines(head + DepsLines(deps));
  }

  lemma Joined3(a: string, b: string, c: string)
    requires SingleLine(a) && SingleLine(b) && SingleLine(c)
    ensures SingleLine(a + b + c)
  {
  }

  lemma HeaderSingleLines(name: string, o: PyprojectOptions)
    requires PlainOptions(name, o)
    ensures AllSingleLine(HeaderLines(name, o))
  {
    HeaderKeysSingle();
    AuthorsPartsSingle();
    Joined3("name = \"", name, "\"");
    Joined3("description = \"", o.description.GetOr(name), "\"");
    Joined3("version = \"", o.version.GetOr(DefaultVersion), "\"");
    Joined3("license = \"", o.license.GetOr(DefaultLicense), "\"");
    Joined3("authors = [{ name = \"", o.authorName.GetOr(DefaultAuthorName), "\", email = \"");
    Joined3("authors = [{ name = \"" + o.authorName.GetOr(DefaultAuthorName) + "\", email = \"",
            o.authorEmail.GetOr(DefaultAuthorEmail), "\" }]");
  }

  lemma HeaderKeysSingle()
    ensures SingleLine("[project]") && SingleLine("\"") && SingleLine("name = \"")
    ensures SingleLine("description = \"") && SingleLine("version = \"") && SingleLine("license = \"")
  {}

  lemma AuthorsPartsSingle()
    ensures SingleLine("authors = [{ name = \"") && SingleLine("\", email = \"") && SingleLine("\" }]")
  {}

  // Creators: each writes one file of a contribution folder, overwriting it.

  method CreateReadme(fs: FileSystem, dir: Path, name: string, description: string)
    modifies fs
    ensures fs.State() == Written(old(fs.State()), dir + ["README.md"], ReadmeText(name, description))
  {
    fs.WriteFile(dir + ["README.md"], ReadmeText(name, description));
  }

  method CreateInitPy(fs: FileSystem, dir: Path, name: string)
    modifies fs
    ensures fs.State() == Written(old(fs.State()), dir + ["__init__.py"], InitPyText(name))
  {
    fs.WriteFile(dir + ["__init__.py"], InitPyText(name));
  }

  method CreateMainPy(fs: FileSystem, dir: Path, name: string)
    modifies fs
    ensures fs.State() == Written(old(fs.State()), dir + [name + ".py"], MainPyText(name))
  {
    fs.WriteFile(dir + [name + ".py"], MainPyText(name));
  }

  /** `tests/` exists afterwards, whether or not it did before. */
  method CreateTestsDirectory(fs: FileSystem, dir: Path)
    modifies fs
    ensures fs.State() == MadeDirs(old(fs.State()), dir + ["tests"])
  {
    fs.MakeDirs(dir + ["tests"]);
  }

  /** The test module goes to `tests/test_<name>.py`. */
  method CreateTestFile(fs: FileSystem, dir: Path, name: string)
    modifies fs
    ensures fs.State() == Written(old(fs.State()), dir + ["tests", "test_" + name + ".py"], TestFileText(name))
  {
    fs.WriteFile(dir + ["tests", "test_" + name + ".py"], TestFileText(name));
  }

  method WritePyprojectFile(fs: FileSystem, dir: Path, name: string, o: PyprojectOptions)
    modifies fs
    ensures fs.State() == Written(old(fs.State()), dir + ["pyproject.toml"], PyprojectText(name, o))
  {
    fs.WriteFile(dir + ["pyproject.toml"], PyprojectText(name, o));
  }

  // Reading and validating the [project] table.

  /** `read_pyproject_metadata`: no file, a TOML error that escapes, or `data.get("project")`. */
  datatype ProjectRead = NoProject | Project(table: Value) | TomlRaised

  function ReadPyprojectMetadata(s: Snapshot, p: Path, toml: string -> Parse): (r: ProjectRead)
    ensures !Exists(s, p) ==> r == NoProject
    ensures r.TomlRaised? <==> (p in s.files && toml(s.files[p]).SyntaxError?) || (p !in s.files && p in s.dirs)
    ensures r.Project? <==> p in s.files && toml(s.files[p]).Loaded? && toml(s.files[p]).doc.Mapping?
                            && "project" in Keys(toml(s.files[p]).doc.entries)
    ensures r.Project? ==> Lookup(toml(s.files[p]).doc.entries, "project") == Some(r.table)
  {
    if p in s.files then
      match toml(s.files[p])
      case SyntaxError => TomlRaised
      case Loaded(doc) =>
        if doc.Mapping? then
          match Lookup(doc.entries, "project")
          case Some(t) => Project(t)
          case None => NoProject
        else NoProject
    else if p in s.dirs then TomlRaised
    else NoProject
  }

  /** `validate_contrib_metadata`: the `[project]` table of `contrib/<name>/pyproject.toml` against the five fields. */
  function ValidateContribMetadata(s: Snapshot, name: string, toml: string -> Parse): (v: Verdict)
    ensures ReadPyprojectMetadata(s, ContribDir + [name, "pyproject.toml"], toml).NoProject? ==> v == NoFile
    ensures v.Ok() <==>
              var r := ReadPyprojectMetadata(s, ContribDir + [name, "pyproject.toml"], toml);
              r.Project? && Searchable(r.table) && forall i :: 0 <= i < |FiveFields| ==> Has(r.table, FiveFields[i])
    ensures v.Missing? ==> Subsequence(v.fields, FiveFields) && v.fields != []
  {
    match ReadPyprojectMetadata(s, ContribDir + [name, "pyproject.toml"], toml)
    case NoProject => NoFile
    case TomlRaised => Crash
    case Project(t) => Check(FiveFields, Parsed(t))
  }

  /** The keys of the table `write_pyproject_file` writes, in order. */
  const WrittenKeys: seq<string> := ["name", "description", "version", "license", "authors", "dependencies"]

  /**
   * A `[project]` table with exactly the keys `write_pyproject_file` writes lacks `contact`,
   * so the validator rejects it and reports that one field.
   */
  lemma WrittenTableLacksContact(entries: seq<(string, Value)>)
    requires Keys(entries) == WrittenKeys
    ensures Check(FiveFields, Parsed(Mapping(entries))) == Missing(["contact"])
  {
    var doc := Mapping(entries);
    WrittenKeysPresent(entries);
    assert MissingFields(FiveFields, doc) == ["contact"] by {
      assert MissingFields(["license"], doc) == [];
      assert MissingFields(["version", "license"], doc) == [];
      assert MissingFields(["contact", "version", "license"], doc) == ["contact"];
      assert MissingFields(["description", "contact", "version", "license"], doc) == ["contact"];
    }
  }

  lemma WrittenKeysPresent(entries: seq<(string, Value)>)
    requires Keys(entries) == WrittenKeys
    ensures var doc := Mapping(entries);
            Has(doc, "name") && Has(doc, "description") && !Has(doc, "contact")
            && Has(doc, "version") && Has(doc, "license")
  {
    assert "contact" !in WrittenKeys;
  }

  // Synchronising docs/contrib with contrib.

  /** Remove the subtree `root + [n]` of every `n` in `orphans`, in any order. */
  method RemoveOrphans(fs: FileSystem, root: Path, orphans: set<string>)
    requires forall n :: n in orphans ==> root + [n] in fs.dirs
    modifies fs
    ensures fs.State() == Pruned(old(fs.State()), root, orphans)
  {
    ghost var s0 := fs.State();
    ghost var done: set<string> := {};
    PrunedNothing(s0, root);
    var todo := orphans;
    while todo != {}
      invariant todo !! done && todo + done == orphans
      invariant fs.State() == Pruned(s0, root, done)
      decreases todo
    {
      var d :| d in todo;
      assert (root + [d])[|root|] == d && (root + [d])[..|root|] == root;
      fs.RemoveTree(root + [d]);
      PrunedStep(s0, root, done, d);
      done := done + {d};
      todo := todo - {d};
    }
  }

  /**
   * `sync_contrib_docs` of the helpers: delete every doc directory without a contribution
   * and return the contributions without a doc directory; nothing else changes.
   */
  method SyncContribDocs(fs: FileSystem, contribListing: seq<string>, docsListing: seq<string>)
    returns (missing: set<string>)
    modifies fs
    ensures var contrib := ListDirectories(old(fs.State()), ContribDir, contribListing);
            var docs := ListDirectories(old(fs.State()), DocsContribDir, docsListing);
            missing == contrib - docs && fs.State() == Pruned(old(fs.State()), DocsContribDir, docs - contrib)
  {
    var contrib := ListDirectories(fs.State(), ContribDir, contribListing);
    var docs := ListDirectories(fs.State(), DocsContribDir, docsListing);
    RemoveOrphans(fs, DocsContribDir, docs - contrib);
    missing := contrib - docs;
  }

  /**
   * After the orphans are removed, the doc directories left are exactly the names present in
   * both trees, and no contribution missing from the docs gets a doc directory.
   */
  lemma SyncLeavesCommonNames(s: Snapshot, contribListing: seq<string>, docsListing: seq<string>)
    requires Tree(s) && Lists(s, DocsContribDir, docsListing)
    ensures var contrib := ListDirectories(s, ContribDir, contribListing);
            var docs := ListDirectories(s, DocsContribDir, docsListing);
            var after := Pruned(s, DocsContribDir, docs - contrib);
            forall n :: DocsContribDir + [n] in after.dirs <==> n in docs && n in contrib
  {
    var contrib := ListDirectories(s, ContribDir, contribListing);
    var docs := ListDirectories(s, DocsContribDir, docsListing);
    ListDirectoriesExact(s, DocsContribDir, docsListing);
    forall n ensures BelowAny(DocsContribDir, docs - contrib, DocsContribDir + [n]) <==> n in docs - contrib {
      assert (DocsContribDir + [n])[..2] == DocsContribDir;
      assert (DocsContribDir + [n])[2] == n;
    }
  }
}
