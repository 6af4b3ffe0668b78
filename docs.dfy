/**
 * What both documentation generators share: which listing entries are Python modules,
 * the module name `os.path.splitext` gives each, the one-page-per-module Markdown
 * files, the README's title, badges, rule and link list.
 */
module Docs {
  import opened Text
  import opened Files

  /** The text written to a file before it is closed, and whether an exception escaped. */
  datatype Output = Output(text: string, raised: bool)

  /** `# <contrib>` then the pylint and coverage badges and a blank line. */
  function Title(contrib: string): string
  {
    "# " + contrib + "\n" + "![pylint](./badges/pylint.svg)" + "![pytest](./badges/coverage.svg)" + "\n\n"
  }

  /** `"-" * 40`. */
  const Rule: string := "----------------------------------------"

  const TableHead: string := "| Key | Value |\n|-----|-------|\n"

  /** One row of the metadata table. */
  function Row(key: string, cell: string): string
  {
    "| " + key + " | " + cell + " |\n"
  }

  /** Index of the last `c` in `s`, or -1: Python's `s.rfind(c)`. */
  function RFind(s: string, c: char): (k: int)
    ensures -1 <= k < |s|
    ensures k >= 0 ==> s[k] == c
    ensures forall j :: k < j < |s| ==> s[j] != c
  {
    if s == [] then -1
    else if s[|s| - 1] == c then |s| - 1
    else RFind(s[..|s| - 1], c)
  }

  predicate AllDots(s: string)
  {
    forall i :: 0 <= i < |s| ==> s[i] == '.'
  }

  /**
   * `os.path.splitext(name)` for a name without a separator: split at the last dot,
   * unless only dots precede it (a leading-dot name has no extension).
   */
  function SplitExt(name: string): (string, string)
  {
    var dot := RFind(name, '.');
    if dot >= 0 && !AllDots(name[..dot]) then (name[..dot], name[dot..]) else (name, "")
  }

  /** `file.endswith(".py") and file != "__init__.py"`. */
  predicate IsModuleFile(f: string)
  {
    EndsWith(f, ".py") && f != "__init__.py"
  }

  /** `os.path.splitext(file)[0]`. */
  function ModuleName(f: string): string
  {
    SplitExt(f).0
  }

  /**
   * On a `.py` file the module name drops the `.py` suffix, except when only dots precede
   * it (`.py`, `..py`), where the whole name is kept.
   */
  lemma ModuleNameOfPy(f: string)
    requires EndsWith(f, ".py")
    ensures !AllDots(f[..|f| - 3]) ==> ModuleName(f) + ".py" == f
    ensures AllDots(f[..|f| - 3]) ==> ModuleName(f) == f
  {
    assert f[|f| - 3] == '.' && f[|f| - 2] == 'p' && f[|f| - 1] == 'y';
    assert RFind(f, '.') == |f| - 3;
    assert f[..|f| - 3] + ".py" == f;
  }

  /** `.py` itself names a module called `.py`. */
  lemma DotPyKeepsItsName()
    ensures ModuleName(".py") == ".py"
  {
    ModuleNameOfPy(".py");
    assert AllDots(".py"[..0]);
  }

  /** The module names of a listing, in listing order (repetitions kept). */
  function ModuleNames(listing: seq<string>): (r: seq<string>)
    ensures |r| <= |listing|
    ensures forall n :: n in r <==> exists i :: 0 <= i < |listing| && IsModuleFile(listing[i]) && ModuleName(listing[i]) == n
  {
    if listing == [] then []
    else
      var init := listing[..|listing| - 1];
      var f := listing[|listing| - 1];
      var r := ModuleNames(init) + (if IsModuleFile(f) then [ModuleName(f)] else []);
      assert forall i :: 0 <= i < |init| ==> init[i] == listing[i];
      r
  }

  /** `__init__.py` never gets a page. */
  lemma InitHasNoPage(listing: seq<string>)
    ensures "__init__" !in ModuleNames(listing)
  {
    forall i | 0 <= i < |listing| && IsModuleFile(listing[i]) ensures ModuleName(listing[i]) != "__init__" {
      var f := listing[i];
      ModuleNameOfPy(f);
    }
  }

  /** The page for module `n` of contribution `contrib`: a title and the mkdocstrings directive. */
  function PageText(contrib: string, n: string): string
  {
    "# " + contrib + "." + n + "\n" + "::: contrib." + contrib + "." + n + "\n"
  }

  function PagePath(docdir: Path, n: string): Path
  {
    docdir + [n + ".md"]
  }

  /**
   * Write the page of each name in turn. Every page ends up with its module's text,
   * and nothing else changes.
   */
  function PagePaths(docdir: Path, names: seq<string>): set<Path>
  {
    set n | n in names :: PagePath(docdir, n)
  }

  /** Write the page of each name in turn. */
  function WritePages(s: Snapshot, docdir: Path, contrib: string, names: seq<string>): Snapshot
  {
    if names == [] then s
    else
      var n := names[|names| - 1];
      Written(WritePages(s, docdir, contrib, names[..|names| - 1]), PagePath(docdir, n), PageText(contrib, n))
  }

  /**
   * After the pages are written, every name has its page with its module's text, no
   * directory changed, and every other file is as it was.
   */
  lemma WritePagesEffect(s: Snapshot, docdir: Path, contrib: string, names: seq<string>)
    ensures var r := WritePages(s, docdir, contrib, names);
            && r.dirs == s.dirs
            && r.files.Keys == s.files.Keys + PagePaths(docdir, names)
            && (forall n :: n in names ==> r.files[PagePath(docdir, n)] == PageText(contrib, n))
            && (forall p :: p in s.files && p !in PagePaths(docdir, names) ==> r.files[p] == s.files[p])
  {
    WritePagesShape(s, docdir, contrib, names);
    WritePagesTexts(s, docdir, contrib, names);
  }

  /** The pages add their paths to the files and change no directory or other file. */
  lemma {:induction false} WritePagesShape(s: Snapshot, docdir: Path, contrib: string, names: seq<string>)
    ensures var r := WritePages(s, docdir, contrib, names);
            && r.dirs == s.dirs
            && r.files.Keys == s.files.Keys + PagePaths(docdir, names)
            && (forall p :: p in s.files && p !in PagePaths(docdir, names) ==> r.files[p] == s.files[p])
  {
    if names != [] {
      var init := names[..|names| - 1];
      var n := names[|names| - 1];
      WritePagesShape(s, docdir, contrib, init);
      assert names == init + [n];
      assert PagePaths(docdir, names) == PagePaths(docdir, init) + {PagePath(docdir, n)};
    }
  }

  /** Every name's page holds its text. */
  lemma {:induction false} WritePagesTexts(s: Snapshot, docdir: Path, contrib: string, names: seq<string>)
    ensures var r := WritePages(s, docdir, contrib, names);
            forall n :: n in names ==> PagePath(docdir, n) in r.files && r.files[PagePath(docdir, n)] == PageText(contrib, n)
  {
    if names != [] {
      var init := names[..|names| - 1];
      var n := names[|names| - 1];
      WritePagesTexts(s, docdir, contrib, init);
      assert names == init + [n];
      forall m | m in init && m != n ensures PagePath(docdir, m) != PagePath(docdir, n) {
        PagePathInjective(docdir, m, n);
      }
    }
  }

  /** Different modules get different pages. */
  lemma PagePathInjective(docdir: Path, a: string, b: string)
    ensures PagePath(docdir, a) == PagePath(docdir, b) <==> a == b
  {
    if PagePath(docdir, a) == PagePath(docdir, b) {
      assert PagePath(docdir, a)[|docdir|] == a + ".md";
      assert PagePath(docdir, b)[|docdir|] == b + ".md";
      assert (a + ".md")[..|a|] == a;
      assert (b + ".md")[..|b|] == b;
    }
  }

  /** Only a module named `README` has its page where the README goes. */
  lemma ReadmeNotAPage(docdir: Path, n: string)
    ensures PagePath(docdir, n) == docdir + ["README.md"] <==> n == "README"
  {
    PagePathInjective(docdir, n, "README");
    var x := "README" + ".md";
    assert |x| == 9;
    assert x[0] == 'R' && x[1] == 'E' && x[2] == 'A' && x[3] == 'D' && x[4] == 'M' && x[5] == 'E';
    assert x[6] == '.' && x[7] == 'm' && x[8] == 'd';
    assert x == "README.md";
  }

  /** A link to a module page. */
  function LinkTo(n: string): string
  {
    "- [" + n + "](./" + n + ".md)"
  }

  function Links(names: seq<string>): (r: seq<string>)
    ensures |r| == |names|
    ensures forall i :: 0 <= i < |names| ==> r[i] == LinkTo(names[i])
  {
    if names == [] then [] else [LinkTo(names[0])] + Links(names[1..])
  }

  lemma {:induction false} LinkToInjective(a: string, b: string)
    requires LinkTo(a) == LinkTo(b)
    ensures a == b
  {
    var la := LinkTo(a);
    var lb := LinkTo(b);
    assert |a| == |b| by {
      assert |la| == 2 * |a| + 11;
      assert |lb| == 2 * |b| + 11;
    }
    forall i | 0 <= i < |a| ensures a[i] == b[i] {
      assert la[3 + i] == a[i];
      assert lb[3 + i] == b[i];
    }
  }

  /**
   * The README links a module exactly when a page was written for it, and that page
   * holds the module's text.
   */
  lemma LinksMatchPages(s: Snapshot, docdir: Path, contrib: string, names: seq<string>, n: string)
    ensures LinkTo(n) in Links(names) <==> n in names
    ensures n in names ==> var r := WritePages(s, docdir, contrib, names);
                           PagePath(docdir, n) in r.files && r.files[PagePath(docdir, n)] == PageText(contrib, n)
  {
    if LinkTo(n) in Links(names) {
      var i :| 0 <= i < |names| && Links(names)[i] == LinkTo(n);
      LinkToInjective(names[i], n);
    }
    if n in names {
      var i :| 0 <= i < |names| && names[i] == n;
      assert Links(names)[i] == LinkTo(n);
      WritePagesEffect(s, docdir, contrib, names);
    }
  }

  /** Writing the pages of one more name is writing that page last. */
  lemma WritePagesAppend(s: Snapshot, docdir: Path, contrib: string, names: seq<string>, n: string)
    ensures WritePages(s, docdir, contrib, names + [n])
            == Written(WritePages(s, docdir, contrib, names), PagePath(docdir, n), PageText(contrib, n))
  {
    assert (names + [n])[..|names|] == names;
  }

  lemma ModuleNamesAppend(listing: seq<string>, f: string)
    ensures ModuleNames(listing + [f]) == ModuleNames(listing) + (if IsModuleFile(f) then [ModuleName(f)] else [])
  {
    assert (listing + [f])[..|listing|] == listing;
  }

  lemma LinksAppend(names: seq<string>, n: string)
    ensures Links(names + [n]) == Links(names) + [LinkTo(n)]
  {
    assert |Links(names + [n])| == |names| + 1;
  }
}
