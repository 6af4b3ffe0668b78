/**
 * The documentation generator of the scaffolding scripts: for `contrib/<name>` it writes
 * one Markdown page per Python module into `docs/contrib/<name>` and a README with
 * badges, the `[project]` table of `pyproject.toml` and links to the pages.
 */
module GenerateContribDocs {
  import opened Wrappers
  import opened Text
  import opened Values
  import opened Files
  import opened Validation
  import opened Docs
  import Utils

  /** A `name` that `", ".join` accepts: a dict item's name must be a string when present. */
  predicate NameUsable(a: Value)
  {
    a.Mapping? ==> Lookup(a.entries, "name").None? || Lookup(a.entries, "name").value.Str?
  }

  /** The name of a dict item of the authors list: `a.get("name", "")`. */
  function AuthorName(a: Value): string
    requires a.Mapping? && NameUsable(a)
  {
    var v := Lookup(a.entries, "name");
    if v.None? then "" else v.value.s
  }

  /**
   * The names `", ".join` is given for an authors list: one per dict item, in order, the
   * other items skipped; `None` when some dict's name is not a string (a `TypeError`).
   */
  function AuthorNames(items: seq<Value>): (r: Option<seq<string>>)
    ensures r.Some? <==> forall i :: 0 <= i < |items| ==> NameUsable(items[i])
    ensures r.Some? ==> |r.value| <= |items|
    ensures r.Some? ==> forall i :: 0 <= i < |items| && items[i].Mapping? ==> AuthorName(items[i]) in r.value
    ensures r.Some? ==> forall x :: x in r.value ==> exists i :: 0 <= i < |items| && items[i].Mapping? && AuthorName(items[i]) == x
  {
    if items == [] then Some([])
    else
      var a := items[0];
      var rest := AuthorNames(items[1..]);
      assert forall i :: 1 <= i < |items| ==> items[i] == items[1..][i - 1];
      if !NameUsable(a) || rest.None? then None
      else if a.Mapping? then Some([AuthorName(a)] + rest.value)
      else Some(rest.value)
  }

  /**
   * Adding an item at the end of the authors list adds its name at the end when it is a
   * dict, nothing when it is not, and a dict whose name is no string makes the join raise:
   * the names follow the list's order, repeats included.
   */
  lemma {:induction false} AuthorNamesAppend(items: seq<Value>, a: Value)
    ensures AuthorNames([]) == Some([])
    ensures AuthorNames(items + [a])
            == if AuthorNames(items).None? || !NameUsable(a) then None
               else if a.Mapping? then Some(AuthorNames(items).value + [AuthorName(a)])
               else AuthorNames(items)
  {
    if items == [] {
      assert items + [a] == [a] && [a][1..] == [];
      assert AuthorNames([a][1..]) == Some([]);
      if NameUsable(a) && a.Mapping? {
        assert AuthorNames([a]) == Some([AuthorName(a)] + []);
        assert [AuthorName(a)] + [] == [AuthorName(a)] == [] + [AuthorName(a)];
      } else {
        assert AuthorNames([a]) == if NameUsable(a) then Some([]) else None;
      }
    } else {
      assert (items + [a])[0] == items[0];
      assert (items + [a])[1..] == items[1..] + [a];
      AuthorNamesAppend(items[1..], a);
      if NameUsable(items[0]) && AuthorNames(items[1..]).Some? && NameUsable(a) && a.Mapping? {
        var h := if items[0].Mapping? then [AuthorName(items[0])] else [];
        assert AuthorNames(items).value == h + AuthorNames(items[1..]).value;
        assert AuthorNames(items + [a]).value == h + (AuthorNames(items[1..]).value + [AuthorName(a)]);
        assert h + (AuthorNames(items[1..]).value + [AuthorName(a)]) == (h + AuthorNames(items[1..]).value) + [AuthorName(a)];
      }
    }
  }

  /** The cell of the metadata table for one entry, or `None` when formatting it raises. */
  function Cell(key: string, value: Value): Option<string>
  {
    if key == "authors" && value.List? then
      match AuthorNames(value.items)
      case None => None
      case Some(names) => Some(Join(", ", names))
    else Some(Show(value))
  }

  /** The rows of the table, up to the entry whose cell raises. */
  function Rows(entries: seq<(string, Value)>): (o: Output)
    ensures o.raised <==> exists i :: 0 <= i < |entries| && Cell(entries[i].0, entries[i].1).None?
  {
    if entries == [] then Output("", false)
    else
      var cell := Cell(entries[0].0, entries[0].1);
      var rest := Rows(entries[1..]);
      assert forall i :: 1 <= i < |entries| ==> entries[i] == entries[1..][i - 1];
      if cell.None? then Output("", true)
      else Output(Row(entries[0].0, cell.value) + rest.text, rest.raised)
  }

  /**
   * Adding an entry at the end of the table adds its row at the end, unless an earlier
   * cell raised already or this one raises: one row per entry, in the dict's order.
   */
  lemma {:induction false} RowsAppend(entries: seq<(string, Value)>, key: string, value: Value)
    ensures Rows([]) == Output("", false)
    ensures var prev := Rows(entries);
            var cell := Cell(key, value);
            Rows(entries + [(key, value)])
            == if prev.raised then prev
               else if cell.None? then Output(prev.text, true)
               else Output(prev.text + Row(key, cell.value), false)
  {
    var all := entries + [(key, value)];
    if entries == [] {
      assert all == [(key, value)] && all[1..] == [];
    } else {
      assert all[0] == entries[0];
      assert all[1..] == entries[1..] + [(key, value)];
      RowsAppend(entries[1..], key, value);
      var first := Cell(entries[0].0, entries[0].1);
      var tail := Rows(entries[1..]);
      RowsFirst(entries);
      RowsFirst(all);
      if first.Some? && !tail.raised && Cell(key, value).Some? {
        var r := Row(entries[0].0, first.value);
        assert r + (tail.text + Row(key, Cell(key, value).value)) == (r + tail.text) + Row(key, Cell(key, value).value);
      }
    }
  }

  /** The first row, then the rest of the table. */
  lemma RowsFirst(entries: seq<(string, Value)>)
    requires entries != []
    ensures var first := Cell(entries[0].0, entries[0].1);
            Rows(entries) == if first.None? then Output("", true)
                             else Output(Row(entries[0].0, first.value) + Rows(entries[1..]).text, Rows(entries[1..]).raised)
  {
  }

  /** `os.path.join` of the components of a relative path. */
  function PathText(p: Path): string
  {
    Join("/", p)
  }

  /** The line written without a `[project]` table, naming the contribution's folder. */
  function Fallback(subdir: string): string
  {
    "No pyproject.toml or [project] section found in " + subdir + ".\n"
  }

  /** With the default `contrib_dir`, the fallback names `contrib/<contrib>`. */
  lemma DefaultFallback(contrib: string)
    ensures Fallback(PathText(Utils.ContribDir + [contrib]))
            == "No pyproject.toml or [project] section found in contrib/" + contrib + ".\n"
  {
    var p := Utils.ContribDir + [contrib];
    assert p == ["contrib", contrib] && p[1..] == [contrib];
    assert Join("/", p) == "contrib" + "/" + contrib;
  }

  /** The rule and the links that close a README. */
  function Closing(pyFiles: seq<string>): string
  {
    "\n" + Rule + "\n" + Unlines(Links(pyFiles))
  }

  /**
   * `write_readme`: title and badges; the table of a truthy `[project]` value or the
   * fallback line; the rule; a link per module. A truthy value that is not a table, or
   * an authors list whose dict has a non-string name, raises after what was written so far.
   */
  function ReadmeOutput(contrib: string, subdir: string, metadata: Option<Value>, pyFiles: seq<string>): (o: Output)
    ensures o.raised <==>
              && metadata.Some? && Truthy(metadata.value)
              && (!metadata.value.Mapping? || Rows(metadata.value.entries).raised)
    ensures !o.raised ==> EndsWith(o.text, Closing(pyFiles))
  {
    var head := Title(contrib);
    if metadata.Some? && Truthy(metadata.value) then
      if !metadata.value.Mapping? then Output(head + TableHead, true)
      else
        var rows := Rows(metadata.value.entries);
        if rows.raised then Output(head + TableHead + rows.text, true)
        else Output(head + TableHead + rows.text + Closing(pyFiles), false)
    else Output(head + Fallback(subdir) + Closing(pyFiles), false)
  }

  /**
   * With a truthy `[project]` table, the README is the title and badges, the table head and
   * the rows written before a cell raised, then, when none raised, the rule and the links;
   * a truthy value that is not a table leaves the title and the table head only.
   */
  lemma ReadmeTable(contrib: string, subdir: string, metadata: Option<Value>, pyFiles: seq<string>)
    requires metadata.Some? && Truthy(metadata.value)
    ensures var o := ReadmeOutput(contrib, subdir, metadata, pyFiles);
            && (metadata.value.Mapping? ==>
                  var rows := Rows(metadata.value.entries);
                  o.text == Title(contrib) + TableHead + rows.text + (if rows.raised then "" else Closing(pyFiles)))
            && (!metadata.value.Mapping? ==> o.text == Title(contrib) + TableHead)
  {
  }

  /**
   * Every README opens with the title and badges, and without a truthy `[project]` value
   * the fallback line takes the place of the table.
   */
  lemma ReadmeShape(contrib: string, subdir: string, metadata: Option<Value>, pyFiles: seq<string>)
    ensures var o := ReadmeOutput(contrib, subdir, metadata, pyFiles);
            && |Title(contrib)| <= |o.text| && o.text[..|Title(contrib)|] == Title(contrib)
            && ((metadata.None? || !Truthy(metadata.value)) ==> o.text == Title(contrib) + Fallback(subdir) + Closing(pyFiles))
  {
    ReadmeOpensWithTitle(contrib, subdir, metadata, pyFiles);
    if metadata.None? || !Truthy(metadata.value) {
      assert ReadmeOutput(contrib, subdir, metadata, pyFiles).text == Title(contrib) + Fallback(subdir) + Closing(pyFiles);
    }
  }

  /** The title and badges open every README. */
  lemma ReadmeOpensWithTitle(contrib: string, subdir: string, metadata: Option<Value>, pyFiles: seq<string>)
    ensures var o := ReadmeOutput(contrib, subdir, metadata, pyFiles);
            |Title(contrib)| <= |o.text| && o.text[..|Title(contrib)|] == Title(contrib)
  {
    var head := Title(contrib);
    if metadata.Some? && Truthy(metadata.value) {
      if !metadata.value.Mapping? {
        OpensWith(head, TableHead, "", "");
      } else {
        var rows := Rows(metadata.value.entries);
        OpensWith(head, TableHead, rows.text, if rows.raised then "" else Closing(pyFiles));
      }
    } else {
      OpensWith(head, Fallback(subdir), Closing(pyFiles), "");
    }
  }

  /** A text joined from parts opens with its first part. */
  lemma OpensWith(a: string, b: string, c: string, d: string)
    ensures |a| <= |a + b + c + d| && (a + b + c + d)[..|a|] == a
    ensures a + b == a + b + "" + "" && a + b + c == a + b + c + ""
  {
    assert a + b + c + d == a + (b + c + d);
  }

  /** `generate_python_file_docs`: one page per module file, in listing order. */
  method GeneratePythonFileDocs(fs: FileSystem, contrib: string, docdir: Path, listing: seq<string>)
    returns (entries: seq<string>)
    modifies fs
    ensures entries == ModuleNames(listing)
    ensures fs.State() == WritePages(old(fs.State()), docdir, contrib, entries)
  {
    ghost var s0 := fs.State();
    entries := [];
    var i := 0;
    while i < |listing|
      invariant 0 <= i <= |listing|
      invariant entries == ModuleNames(listing[..i])
      invariant fs.State() == WritePages(s0, docdir, contrib, entries)
    {
      var f := listing[i];
      assert listing[..i + 1] == listing[..i] + [f];
      ModuleNamesAppend(listing[..i], f);
      if IsModuleFile(f) {
        var name := ModuleName(f);
        WritePagesAppend(s0, docdir, contrib, entries, name);
        entries := entries + [name];
        fs.WriteFile(PagePath(docdir, name), PageText(contrib, name));
      }
      i := i + 1;
    }
    assert listing[..i] == listing;
  }

  /** The `[project]` table as `write_readme` receives it. */
  function Metadata(r: Utils.ProjectRead): Option<Value>
  {
    if r.Project? then Some(r.table) else None
  }

  /**
   * The whole effect of `generate_markdown_for_contrib(contrib, contribDir, docsDir)` on a
   * filesystem, given the listing of `<contribDir>/<contrib>`: the final state and whether an
   * exception escaped.
   */
  function Generated(s: Snapshot, contribDir: Path, docsDir: Path, contrib: string, listing: seq<string>,
                     toml: string -> Parse): (Snapshot, bool)
  {
    var subdir := contribDir + [contrib];
    var docdir := docsDir + [contrib];
    if subdir !in s.dirs then (s, false)
    else
      var made := MadeDirs(s, docdir);
      var read := Utils.ReadPyprojectMetadata(made, subdir + ["pyproject.toml"], toml);
      if read.TomlRaised? then (made, true)
      else
        var names := ModuleNames(listing);
        var out := ReadmeOutput(contrib, PathText(subdir), Metadata(read), names);
        (Written(WritePages(made, docdir, contrib, names), docdir + ["README.md"], out.text), out.raised)
  }

  /** `generate_markdown_for_contrib`. */
  method GenerateMarkdownForContrib(fs: FileSystem, contribDir: Path, docsDir: Path, contrib: string,
                                    listing: seq<string>, toml: string -> Parse)
    returns (raised: bool)
    modifies fs
    ensures (fs.State(), raised) == Generated(old(fs.State()), contribDir, docsDir, contrib, listing, toml)
  {
    var subdir := contribDir + [contrib];
    var docdir := docsDir + [contrib];
    if subdir !in fs.dirs {
      return false;
    }
    fs.MakeDirs(docdir);
    var read := Utils.ReadPyprojectMetadata(fs.State(), subdir + ["pyproject.toml"], toml);
    if read.TomlRaised? {
      return true;
    }
    var pyFiles := GeneratePythonFileDocs(fs, contrib, docdir, listing);
    var out := ReadmeOutput(contrib, PathText(subdir), Metadata(read), pyFiles);
    fs.WriteFile(docdir + ["README.md"], out.text);
    raised := out.raised;
  }

  /**
   * The command: exactly one argument, else exit status 1 and no change; otherwise the
   * generation runs with the default `contrib` and `docs/contrib` folders, and an escaping
   * exception also ends with status 1.
   */
  method Run(fs: FileSystem, argv: seq<string>, listing: seq<string>, toml: string -> Parse) returns (status: int)
    modifies fs
    ensures |argv| != 2 ==> status == 1 && fs.State() == old(fs.State())
    ensures |argv| == 2 ==> var g := Generated(old(fs.State()), Utils.ContribDir, Utils.DocsContribDir, argv[1], listing, toml);
                            fs.State() == g.0 && status == (if g.1 then 1 else 0)
  {
    if |argv| != 2 {
      return 1;
    }
    var raised := GenerateMarkdownForContrib(fs, Utils.ContribDir, Utils.DocsContribDir, argv[1], listing, toml);
    status := if raised then 1 else 0;
  }

  /** A generation that completes wrote the pages, then the README over them. */
  lemma CompletedReadme(s: Snapshot, contribDir: Path, docsDir: Path, contrib: string, listing: seq<string>,
                        toml: string -> Parse) returns (text: string)
    requires contribDir + [contrib] in s.dirs
    requires !Generated(s, contribDir, docsDir, contrib, listing, toml).1
    ensures var docdir := docsDir + [contrib];
            var names := ModuleNames(listing);
            && Generated(s, contribDir, docsDir, contrib, listing, toml).0
               == Written(WritePages(MadeDirs(s, docdir), docdir, contrib, names), docdir + ["README.md"], text)
            && EndsWith(text, Closing(names))
  {
    var subdir := contribDir + [contrib];
    var read := Utils.ReadPyprojectMetadata(MadeDirs(s, docsDir + [contrib]), subdir + ["pyproject.toml"], toml);
    text := ReadmeOutput(contrib, PathText(subdir), Metadata(read), ModuleNames(listing)).text;
  }

  /**
   * When the generation completes, every module file of the listing has its page, holding
   * that module's text (unless the module is called `README`, whose page the README replaces).
   */
  lemma EveryModuleHasPage(s: Snapshot, contribDir: Path, docsDir: Path, contrib: string, listing: seq<string>,
                           toml: string -> Parse, f: string)
    requires contribDir + [contrib] in s.dirs
    requires f in listing && IsModuleFile(f) && ModuleName(f) != "README"
    requires !Generated(s, contribDir, docsDir, contrib, listing, toml).1
    ensures var docdir := docsDir + [contrib];
            var r := Generated(s, contribDir, docsDir, contrib, listing, toml).0;
            PagePath(docdir, ModuleName(f)) in r.files && r.files[PagePath(docdir, ModuleName(f))] == PageText(contrib, ModuleName(f))
  {
    var docdir := docsDir + [contrib];
    var names := ModuleNames(listing);
    var n := ModuleName(f);
    var text := CompletedReadme(s, contribDir, docsDir, contrib, listing, toml);
    assert n in names by {
      var i :| 0 <= i < |listing| && listing[i] == f;
    }
    PageSurvivesReadme(MadeDirs(s, docdir), docdir, contrib, names, n, text);
  }

  /** Writing the README after the pages keeps every page other than one named `README`. */
  lemma PageSurvivesReadme(base: Snapshot, docdir: Path, contrib: string, names: seq<string>, n: string, text: string)
    requires n in names && n != "README"
    ensures var r := Written(WritePages(base, docdir, contrib, names), docdir + ["README.md"], text);
            PagePath(docdir, n) in r.files && r.files[PagePath(docdir, n)] == PageText(contrib, n)
  {
    WritePagesTexts(base, docdir, contrib, names);
    ReadmeNotAPage(docdir, n);
  }

  /** When the generation completes, the README ends with a link to every module page. */
  lemma ReadmeLinksEveryModule(s: Snapshot, contribDir: Path, docsDir: Path, contrib: string, listing: seq<string>,
                               toml: string -> Parse, f: string)
    requires contribDir + [contrib] in s.dirs
    requires f in listing && IsModuleFile(f)
    requires !Generated(s, contribDir, docsDir, contrib, listing, toml).1
    ensures var docdir := docsDir + [contrib];
            var r := Generated(s, contribDir, docsDir, contrib, listing, toml).0;
            && docdir + ["README.md"] in r.files
            && EndsWith(r.files[docdir + ["README.md"]], Closing(ModuleNames(listing)))
            && LinkTo(ModuleName(f)) in Links(ModuleNames(listing))
  {
    var names := ModuleNames(listing);
    var text := CompletedReadme(s, contribDir, docsDir, contrib, listing, toml);
    var i :| 0 <= i < |listing| && listing[i] == f;
    assert ModuleName(f) in names;
    LinksMatchPages(s, [], contrib, names, ModuleName(f));
  }
}
