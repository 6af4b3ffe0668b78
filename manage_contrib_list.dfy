/**
 * The standalone docs synchroniser: prune `docs/contrib` to the contributions that
 * still exist, then write `docs/contrib/index.md` linking, in sorted order, the
 * README of every contribution documented in both trees.
 */
module ManageContribList {
  import opened Text
  import opened Files
  import Utils

  const IndexPath: Path := Utils.DocsContribDir + ["index.md"]

  /** The title line and the blank line that open the index. */
  const IndexHead: seq<string> := ["# Index of Contributions", ""]

  /** One index entry: a Markdown link to the contribution's README. */
  function LinkLine(d: string): string
  {
    "- [" + d + "](./" + d + "/README.md)"
  }

  function LinkLines(entries: seq<string>): (r: seq<string>)
    ensures |r| == |entries|
    ensures forall i :: 0 <= i < |entries| ==> r[i] == LinkLine(entries[i])
  {
    if entries == [] then [] else [LinkLine(entries[0])] + LinkLines(entries[1..])
  }

  /** The header line, a blank line, then one link line per entry. */
  function IndexText(entries: seq<string>): string
  {
    Unlines(IndexHead + LinkLines(entries))
  }

  function ReadmeOf(d: string): Path
  {
    Utils.DocsContribDir + [d, "README.md"]
  }

  /** The names, in their order, whose `docs/contrib/<d>/README.md` exists. */
  function IndexEntries(s: Snapshot, names: seq<string>): (r: seq<string>)
    ensures forall d :: d in r <==> d in names && Exists(s, ReadmeOf(d))
    ensures Ascending(names) ==> Ascending(r)
  {
    if names == [] then []
    else
      var rest := IndexEntries(s, names[1..]);
      assert Ascending(names) ==> forall x :: x in rest ==> Below(names[0], x);
      (if Exists(s, ReadmeOf(names[0])) then [names[0]] else []) + rest
  }

  /** The link line names the directory it links to: different names give different lines. */
  lemma {:induction false} LinkLineInjective(a: string, b: string)
    requires LinkLine(a) == LinkLine(b)
    ensures a == b
  {
    var la := LinkLine(a);
    var lb := LinkLine(b);
    assert |a| == |b| by {
      assert |la| == 2 * |a| + 18;
      assert |lb| == 2 * |b| + 18;
    }
    forall i | 0 <= i < |a| ensures a[i] == b[i] {
      assert la[3 + i] == a[i];
      assert lb[3 + i] == b[i];
    }
  }

  /** Link `d` is a line of the index exactly when `d` is one of its entries. */
  lemma LinkListed(entries: seq<string>, d: string)
    ensures LinkLine(d) in LinkLines(entries) <==> d in entries
  {
    if LinkLine(d) in LinkLines(entries) {
      var i :| 0 <= i < |entries| && LinkLines(entries)[i] == LinkLine(d);
      LinkLineInjective(entries[i], d);
    }
    if d in entries {
      var i :| 0 <= i < |entries| && entries[i] == d;
      assert LinkLines(entries)[i] == LinkLine(d);
    }
  }

  /** With single-line names the index reads back as its header and its link lines. */
  lemma IndexLines(entries: seq<string>)
    requires forall i :: 0 <= i < |entries| ==> SingleLine(entries[i])
    ensures Lines(IndexText(entries)) == IndexHead + LinkLines(entries)
  {
    HeadSingle();
    HeadedLines(IndexHead, entries);
  }

  lemma HeadSingle()
    ensures AllSingleLine(IndexHead)
  {
  }

  lemma HeadedLines(head: seq<string>, entries: seq<string>)
    requires AllSingleLine(head)
    requires forall i :: 0 <= i < |entries| ==> SingleLine(entries[i])
    ensures Lines(Unlines(head + LinkLines(entries))) == head + LinkLines(entries)
  {
    var links := LinkLines(entries);
    var ls := head + links;
    forall i | 0 <= i < |links| ensures SingleLine(links[i]) {
      LinkLineSingle(entries[i]);
    }
    assert AllSingleLine(ls) by {
      forall i | 0 <= i < |ls| ensures SingleLine(ls[i]) {
        if i >= |head| { assert ls[i] == links[i - |head|]; }
      }
    }
    LinesOfUnlines(ls);
  }

  lemma LinkLineSingle(d: string)
    requires SingleLine(d)
    ensures SingleLine(LinkLine(d))
  {
    var l := LinkLine(d);
    forall k | 0 <= k < |l| ensures l[k] != '\n' {
      if 3 <= k < 3 + |d| {
        assert l[k] == d[k - 3];
      } else if 3 + |d| + 4 <= k < 3 + 2 * |d| + 4 {
        assert l[k] == d[k - 7 - |d|];
      }
    }
  }

  /** The state the index is written over: orphans gone, `docs/contrib` present. */
  function Prepared(s: Snapshot, contrib: set<string>, docs: set<string>): Snapshot
  {
    MadeDirs(Pruned(s, Utils.DocsContribDir, docs - contrib), Utils.DocsContribDir)
  }

  /**
   * `sync_contrib_docs`: prune orphans, report the undocumented contributions, ensure
   * `docs/contrib`, and write the index of the sorted common names whose README exists.
   */
  method SyncContribDocs(fs: FileSystem, contribListing: seq<string>, docsListing: seq<string>)
    returns (missing: set<string>)
    modifies fs
    ensures var s0 := old(fs.State());
            var contrib := ListDirectories(s0, Utils.ContribDir, contribListing);
            var docs := ListDirectories(s0, Utils.DocsContribDir, docsListing);
            var ready := Prepared(s0, contrib, docs);
            && missing == contrib - docs
            && fs.State() == Written(ready, IndexPath, IndexText(IndexEntries(ready, Sorted(docs * contrib))))
  {
    var contrib := ListDirectories(fs.State(), Utils.ContribDir, contribListing);
    var docs := ListDirectories(fs.State(), Utils.DocsContribDir, docsListing);
    Utils.RemoveOrphans(fs, Utils.DocsContribDir, docs - contrib);
    missing := contrib - docs;
    fs.MakeDirs(Utils.DocsContribDir);
    var names := SortNames(docs * contrib);
    AscendingUnique(names, Sorted(docs * contrib));
    WriteIndex(fs, names);
  }

  /** Write `index.md`: the header, then a link for each of `names` whose README exists. */
  method WriteIndex(fs: FileSystem, names: seq<string>)
    modifies fs
    ensures fs.State() == Written(old(fs.State()), IndexPath, IndexText(IndexEntries(old(fs.State()), names)))
  {
    ghost var s := fs.State();
    var links: seq<string> := [];
    var i := 0;
    while i < |names|
      invariant 0 <= i <= |names|
      invariant fs.State() == s
      invariant links == LinkLines(IndexEntries(s, names[..i]))
    {
      assert names[..i + 1] == names[..i] + [names[i]];
      IndexEntriesAppend(s, names[..i], names[i]);
      if Exists(fs.State(), ReadmeOf(names[i])) {
        LinkLinesAppend(IndexEntries(s, names[..i]), names[i]);
        links := links + [LinkLine(names[i])];
      }
      i := i + 1;
    }
    assert names[..i] == names;
    assert Unlines(IndexHead + links) == IndexText(IndexEntries(s, names));
    fs.WriteFile(IndexPath, Unlines(IndexHead + links));
  }

  lemma {:induction false} IndexEntriesAppend(s: Snapshot, names: seq<string>, d: string)
    ensures IndexEntries(s, names + [d]) == IndexEntries(s, names) + (if Exists(s, ReadmeOf(d)) then [d] else [])
  {
    if names == [] {
      assert IndexEntries(s, []) == [];
      assert ([] + [d])[1..] == [];
    } else {
      assert (names + [d])[1..] == names[1..] + [d];
      IndexEntriesAppend(s, names[1..], d);
    }
  }

  lemma {:induction false} LinkLinesAppend(entries: seq<string>, d: string)
    ensures LinkLines(entries + [d]) == LinkLines(entries) + [LinkLine(d)]
  {
    assert |LinkLines(entries + [d])| == |entries| + 1;
  }

  /**
   * On a well-formed tree with true listings, a contribution is linked from the index
   * exactly when it has a directory in both `contrib` and `docs/contrib` and the latter
   * holds a README; the links come in ascending order, each once.
   */
  lemma IndexLinksCommonDocumented(s: Snapshot, contribListing: seq<string>, docsListing: seq<string>, d: string)
    requires Tree(s)
    requires Lists(s, Utils.ContribDir, contribListing) && Lists(s, Utils.DocsContribDir, docsListing)
    ensures var contrib := ListDirectories(s, Utils.ContribDir, contribListing);
            var docs := ListDirectories(s, Utils.DocsContribDir, docsListing);
            var ready := Prepared(s, contrib, docs);
            var entries := IndexEntries(ready, Sorted(docs * contrib));
            && Ascending(entries)
            && (LinkLine(d) in LinkLines(entries) <==>
                  Utils.ContribDir + [d] in s.dirs && Utils.DocsContribDir + [d] in s.dirs && Exists(s, ReadmeOf(d)))
  {
    var contrib := ListDirectories(s, Utils.ContribDir, contribListing);
    var docs := ListDirectories(s, Utils.DocsContribDir, docsListing);
    var ready := Prepared(s, contrib, docs);
    var entries := IndexEntries(ready, Sorted(docs * contrib));
    ListDirectoriesExact(s, Utils.ContribDir, contribListing);
    ListDirectoriesExact(s, Utils.DocsContribDir, docsListing);
    LinkListed(entries, d);
    var r := ReadmeOf(d);
    assert r[..2] == Utils.DocsContribDir && r[2] == d && |r| == 4;
    if d in contrib {
      assert Exists(ready, r) <==> Exists(s, r);
    }
  }

  /** Without contributions the index is its header alone. */
  lemma EmptyIndex(s: Snapshot)
    ensures IndexText(IndexEntries(s, Sorted({}))) == "# Index of Contributions\n\n"
  {
    assert Sorted({}) == [];
    assert LinkLines([]) == [];
    assert IndexHead + [] == IndexHead;
    assert Unlines([""]) == "\n";
  }
}
