/**
 * The documentation generator kept under `contrib/scripts`: the same pages as the other
 * generator, but the README's table comes from `metadatas.yml` and the links are written
 * while the pages are.
 */
module ContribGenerateDocs {
  import opened Text
  import opened Values
  import opened Files
  import opened Validation
  import opened Docs
  import Utils
  import GenerateContribDocs

  /** `| {key} | {value} |` for every entry, in order. */
  function PlainRows(entries: seq<(string, Value)>): string
  {
    if entries == [] then "" else Row(entries[0].0, Show(entries[0].1)) + PlainRows(entries[1..])
  }

  /** Adding an entry at the end of the dict adds its row at the end. */
  lemma {:induction false} PlainRowsAppend(entries: seq<(string, Value)>, key: string, value: Value)
    ensures PlainRows([]) == ""
    ensures PlainRows(entries + [(key, value)]) == PlainRows(entries) + Row(key, Show(value))
  {
    if entries != [] {
      assert (entries + [(key, value)])[1..] == entries[1..] + [(key, value)];
      PlainRowsAppend(entries[1..], key, value);
    }
  }

  /**
   * Without an `authors` list, both generators write the same rows for a dict: the other
   * generator's table differs from this one only in how it joins the authors.
   */
  lemma {:induction false} SameRowsWithoutAuthors(entries: seq<(string, Value)>)
    requires forall i :: 0 <= i < |entries| ==> !(entries[i].0 == "authors" && entries[i].1.List?)
    ensures GenerateContribDocs.Rows(entries) == Output(PlainRows(entries), false)
  {
    if entries != [] {
      SameRowsWithoutAuthors(entries[1..]);
    }
  }

  function Missing(contrib: string): string
  {
    "No metadatas.yml found in contrib/" + contrib + ".\n"
  }

  const InvalidFormat: string := "Invalid metadata format. Expected a dictionary.\n"

  /**
   * What follows the badges, up to the rule: the table of a mapping, the invalid-format
   * line, or the missing-file line (the first two followed by a blank line); an unreadable
   * or unparsable file raises before anything is written.
   */
  function Section(contrib: string, meta: MetadataFile): (o: Output)
    ensures o.raised <==> meta.Unreadable? || meta.Unparsable?
    ensures o.raised ==> o.text == ""
    ensures meta.Absent? ==> o.text == Missing(contrib)
    ensures meta.Parsed? && meta.doc.Mapping? ==> o.text == TableHead + PlainRows(meta.doc.entries) + "\n"
    ensures meta.Parsed? && !meta.doc.Mapping? ==> o.text == InvalidFormat + "\n"
  {
    match meta
    case Absent => Output(Missing(contrib), false)
    case Unreadable => Output("", true)
    case Unparsable => Output("", true)
    case Parsed(doc) =>
      if doc.Mapping? then Output(TableHead + PlainRows(doc.entries) + "\n", false)
      else Output(InvalidFormat + "\n", false)
  }

  /** The rule, then a link per module. */
  function Tail(names: seq<string>): string
  {
    Rule + "\n" + Unlines(Links(names))
  }

  /**
   * The effect of `generate_markdown_for_contrib(contrib)` given the listing of
   * `contrib/<contrib>`: the final state and whether an exception escaped.
   */
  function Generated(s: Snapshot, contrib: string, listing: seq<string>, parse: string -> Parse): (Snapshot, bool)
  {
    var subdir := Utils.ContribDir + [contrib];
    var docdir := Utils.DocsContribDir + [contrib];
    if subdir !in s.dirs then (s, false)
    else
      var made := MadeDirs(s, docdir);
      var section := Section(contrib, LoadMetadata(s, subdir + ["metadatas.yml"], parse));
      if section.raised then (Written(made, docdir + ["README.md"], Title(contrib)), true)
      else
        var names := ModuleNames(listing);
        (Written(WritePages(made, docdir, contrib, names), docdir + ["README.md"],
                 Title(contrib) + section.text + Tail(names)), false)
  }

  /** `generate_markdown_for_contrib`. */
  method GenerateMarkdownForContrib(fs: FileSystem, contrib: string, listing: seq<string>, parse: string -> Parse)
    returns (raised: bool)
    modifies fs
    ensures (fs.State(), raised) == Generated(old(fs.State()), contrib, listing, parse)
  {
    var subdir := Utils.ContribDir + [contrib];
    var docdir := Utils.DocsContribDir + [contrib];
    if subdir !in fs.dirs {
      return false;
    }
    ghost var s0 := fs.State();
    fs.MakeDirs(docdir);
    var metadataFile := subdir + ["metadatas.yml"];
    MadeDirsElsewhere(s0, docdir, metadataFile);
    assert fs.State().files == s0.files;
    var section := Section(contrib, LoadMetadata(fs.State(), metadataFile, parse));
    assert section == Section(contrib, LoadMetadata(s0, metadataFile, parse));
    if section.raised {
      fs.WriteFile(docdir + ["README.md"], Title(contrib));
      return true;
    }
    var links := WritePagesAndLinks(fs, docdir, contrib, listing);
    fs.WriteFile(docdir + ["README.md"], Title(contrib) + section.text + (Rule + "\n" + Unlines(links)));
    raised := false;
  }

  /**
   * The command: exactly one argument, else exit status 1 and no change; otherwise the
   * generation runs, and an escaping exception also ends with status 1.
   */
  method Run(fs: FileSystem, argv: seq<string>, listing: seq<string>, parse: string -> Parse) returns (status: int)
    modifies fs
    ensures |argv| != 2 ==> status == 1 && fs.State() == old(fs.State())
    ensures |argv| == 2 ==> var g := Generated(old(fs.State()), argv[1], listing, parse);
                            fs.State() == g.0 && status == (if g.1 then 1 else 0)
  {
    if |argv| != 2 {
      return 1;
    }
    var raised := GenerateMarkdownForContrib(fs, argv[1], listing, parse);
    status := if raised then 1 else 0;
  }

  /**
   * The loop over the listing: write the page of every module file in turn and collect
   * the link to each.
   */
  method WritePagesAndLinks(fs: FileSystem, docdir: Path, contrib: string, listing: seq<string>)
    returns (links: seq<string>)
    modifies fs
    ensures links == Links(ModuleNames(listing))
    ensures fs.State() == WritePages(old(fs.State()), docdir, contrib, ModuleNames(listing))
  {
    ghost var s0 := fs.State();
    links := [];
    ghost var names: seq<string> := [];
    var i := 0;
    while i < |listing|
      invariant 0 <= i <= |listing|
      invariant names == ModuleNames(listing[..i])
      invariant links == Links(names)
      invariant fs.State() == WritePages(s0, docdir, contrib, names)
    {
      var f := listing[i];
      ModuleNamesStep(listing, i);
      if IsModuleFile(f) {
        var name := ModuleName(f);
        LinksAppend(names, name);
        WritePagesAppend(s0, docdir, contrib, names, name);
        links := links + [LinkTo(name)];
        names := names + [name];
        fs.WriteFile(PagePath(docdir, name), PageText(contrib, name));
      }
      i := i + 1;
    }
    assert listing[..i] == listing;
  }

  /** The module names of one more listing entry. */
  lemma ModuleNamesStep(listing: seq<string>, i: int)
    requires 0 <= i < |listing|
    ensures ModuleNames(listing[..i + 1])
            == if IsModuleFile(listing[i]) then ModuleNames(listing[..i]) + [ModuleName(listing[i])]
               else ModuleNames(listing[..i])
  {
    assert listing[..i + 1] == listing[..i] + [listing[i]];
    ModuleNamesAppend(listing[..i], listing[i]);
    assert ModuleNames(listing[..i]) + [] == ModuleNames(listing[..i]);
  }

  /**
   * The generation raises exactly when the contribution exists and its `metadatas.yml`
   * exists but cannot be read or parsed; the README then holds only the title and badges.
   */
  lemma RaisesOnBadMetadata(s: Snapshot, contrib: string, listing: seq<string>, parse: string -> Parse)
    ensures var subdir := Utils.ContribDir + [contrib];
            var meta := LoadMetadata(s, subdir + ["metadatas.yml"], parse);
            var readme := Utils.DocsContribDir + [contrib] + ["README.md"];
            && (Generated(s, contrib, listing, parse).1 <==>
                  subdir in s.dirs && (meta.Unreadable? || meta.Unparsable?))
            && (Generated(s, contrib, listing, parse).1 ==>
                  readme in Generated(s, contrib, listing, parse).0.files
                  && Generated(s, contrib, listing, parse).0.files[readme] == Title(contrib))
  {
  }

  /**
   * A completed generation writes every module page and then a README that ends with
   * the links to exactly those pages.
   */
  lemma CompletedWritesPagesThenReadme(s: Snapshot, contrib: string, listing: seq<string>, parse: string -> Parse)
    requires Utils.ContribDir + [contrib] in s.dirs
    requires !Generated(s, contrib, listing, parse).1
    ensures var docdir := Utils.DocsContribDir + [contrib];
            var names := ModuleNames(listing);
            var meta := LoadMetadata(s, Utils.ContribDir + [contrib, "metadatas.yml"], parse);
            Generated(s, contrib, listing, parse).0
            == Written(WritePages(MadeDirs(s, docdir), docdir, contrib, names), docdir + ["README.md"],
                       Title(contrib) + Section(contrib, meta).text + Tail(names))
  {
    assert Utils.ContribDir + [contrib] + ["metadatas.yml"] == Utils.ContribDir + [contrib, "metadatas.yml"];
  }
}
