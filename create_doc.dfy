/**
 * The contributions list: `contributions-list.md` opens with a title, then holds one
 * section per contribution folder, in listing order, built from its `metadatas.yml`.
 * Any missing file, key or unjoinable dependency list raises, leaving the text
 * written so far.
 */
module CreateDoc {
  import opened Wrappers
  import opened Text
  import opened Values
  import opened Files
  import opened Validation
  import opened Docs
  import Utils

  const OutputPath: Path := ["contributions-list.md"]

  const Header: string := "# Contributions\n\n"

  /** The characters of a string, each as a string of its own. */
  function Chars(s: string): (r: seq<string>)
    ensures |r| == |s| && forall i :: 0 <= i < |s| ==> r[i] == [s[i]]
  {
    seq(|s|, i requires 0 <= i < |s| => [s[i]])
  }

  /** The strings of a list whose every element is a string. */
  function Strings(items: seq<Value>): (r: Option<seq<string>>)
    ensures r.Some? <==> forall i :: 0 <= i < |items| ==> items[i].Str?
    ensures r.Some? ==> |r.value| == |items| && forall i :: 0 <= i < |items| ==> r.value[i] == items[i].s
  {
    if items == [] then Some([])
    else if !items[0].Str? then None
    else
      match Strings(items[1..])
      case None => None
      case Some(rest) => Some([items[0].s] + rest)
  }

  /**
   * `', '.join(value)`: the characters of a string, the elements of a list of strings,
   * the keys of a dict; anything else raises a TypeError (`None`).
   */
  function JoinDependencies(v: Value): (r: Option<string>)
    ensures r.None? <==> !(v.Str? || v.Mapping? || (v.List? && forall i :: 0 <= i < |v.items| ==> v.items[i].Str?))
  {
    match v
    case Str(s) => Some(Join(", ", Chars(s)))
    case List(items) =>
      (match Strings(items)
       case None => None
       case Some(parts) => Some(Join(", ", parts)))
    case Mapping(entries) => Some(Join(", ", Keys(entries)))
    case _ => None
  }

  /** `## {name} ({version})` and a blank line. */
  function TitleLine(name: Value, version: Value): string
  {
    "## " + Show(name) + " (" + Show(version) + ")\n\n"
  }

  /** `**{caption}**: {text}` and a blank line. */
  function Labeled(caption: string, text: string): string
  {
    "**" + caption + "**: " + text + "\n\n"
  }

  const RulerText: string := "---\n\n"

  /** The title write; subscripting a missing `name` or `version` raises (`None`). */
  function TitleWrite(e: seq<(string, Value)>): (r: Option<string>)
    ensures r.None? <==> "name" !in Keys(e) || "version" !in Keys(e)
  {
    match (Lookup(e, "name"), Lookup(e, "version"))
    case (Some(name), Some(version)) => Some(TitleLine(name, version))
    case _ => None
  }

  /** The write of one `**{caption}**: {data[key]}` line; a missing key raises. */
  function FieldWrite(e: seq<(string, Value)>, caption: string, key: string): (r: Option<string>)
    ensures r.None? <==> key !in Keys(e)
  {
    match Lookup(e, key)
    case Some(v) => Some(Labeled(caption, Show(v)))
    case None => None
  }

  /** The dependencies write: a missing key or a value `str.join` rejects raises. */
  function DependenciesWrite(e: seq<(string, Value)>): (r: Option<string>)
    ensures r.None? <==> "dependencies" !in Keys(e) || JoinDependencies(Lookup(e, "dependencies").GetOr(Str(""))).None?
  {
    match Lookup(e, "dependencies")
    case Some(v) =>
      (match JoinDependencies(v)
       case Some(joined) => Some(Labeled("Dependencies", joined))
       case None => None)
    case None => None
  }

  /** The writes of a section, in order; `None` where building the text raises. */
  function SectionWrites(e: seq<(string, Value)>): seq<Option<string>>
  {
    [TitleWrite(e),
     FieldWrite(e, "Description", SectionKeys[2]),
     FieldWrite(e, "Date", SectionKeys[3]),
     FieldWrite(e, "Contact", SectionKeys[4]),
     FieldWrite(e, "License", SectionKeys[5]),
     DependenciesWrite(e),
     Some(RulerText)]
  }

  /** The writes in turn, stopping at the first that raises. */
  function Render(ws: seq<Option<string>>): Output
  {
    if ws == [] then Output("", false)
    else
      match ws[0]
      case None => Output("", true)
      case Some(t) =>
        var rest := Render(ws[1..]);
        Output(t + rest.text, rest.raised)
  }

  /** The section of one loaded metadata document; subscripting anything but a dict raises. */
  function Section(data: Value): Output
  {
    if data.Mapping? then Render(SectionWrites(data.entries)) else Output("", true)
  }

  /** The texts of the writes, concatenated. */
  function Concat(ws: seq<Option<string>>): string
    requires forall i :: 0 <= i < |ws| ==> ws[i].Some?
  {
    if ws == [] then "" else ws[0].value + Concat(ws[1..])
  }

  /**
   * The rendering raises exactly when some write does; the text is then that of the
   * writes before the first failing one, and otherwise that of all the writes.
   */
  lemma {:induction false} RenderMeaning(ws: seq<Option<string>>)
    ensures Render(ws).raised <==> exists i :: 0 <= i < |ws| && ws[i].None?
    ensures Render(ws).raised ==>
              exists k :: 0 <= k < |ws| && ws[k].None?
                          && (forall i :: 0 <= i < k ==> ws[i].Some?)
                          && Render(ws).text == Concat(ws[..k])
    ensures !Render(ws).raised ==>
              (forall i :: 0 <= i < |ws| ==> ws[i].Some?) && Render(ws).text == Concat(ws)
  {
    if ws != [] {
      RenderMeaning(ws[1..]);
      if ws[0].None? {
        assert ws[..0] == [];
      } else {
        forall i | 1 <= i < |ws| ensures ws[i] == ws[1..][i - 1] {}
        if Render(ws).raised {
          var k :| 0 <= k < |ws[1..]| && ws[1..][k].None?
                   && (forall i :: 0 <= i < k ==> ws[1..][i].Some?)
                   && Render(ws[1..]).text == Concat(ws[1..][..k]);
          assert ws[..k + 1][1..] == ws[1..][..k];
          assert ws[k + 1].None?;
        }
      }
    }
  }

  /** The seven keys a section reads, in the order it reads them. */
  const SectionKeys: seq<string> := ["name", "version", "description", "date", "contact", "license", "dependencies"]

  /** The document lacks one of the seven keys a section reads. */
  predicate LacksKey(e: seq<(string, Value)>)
  {
    exists i :: 0 <= i < |SectionKeys| && SectionKeys[i] !in Keys(e)
  }

  /** A missing key makes some write fail. */
  lemma MissingKeyFails(e: seq<(string, Value)>)
    requires LacksKey(e)
    ensures exists j :: 0 <= j < |SectionWrites(e)| && SectionWrites(e)[j].None?
  {
    var ws := SectionWrites(e);
    var i :| 0 <= i < |SectionKeys| && SectionKeys[i] !in Keys(e);
    var j := if i == 0 then 0 else i - 1;
    assert ws[j].None?;
  }

  /** A failing write has a missing key or unjoinable dependencies as its cause. */
  lemma FailureHasCause(e: seq<(string, Value)>, j: int)
    requires 0 <= j < |SectionWrites(e)| && SectionWrites(e)[j].None?
    ensures LacksKey(e) || JoinDependencies(Lookup(e, "dependencies").GetOr(Str(""))).None?
  {
    var ws := SectionWrites(e);
    if j == 0 {
      if "name" !in Keys(e) {
        assert SectionKeys[0] !in Keys(e);
      } else {
        assert SectionKeys[1] !in Keys(e);
      }
    } else if j == 1 {
      assert ws[1] == FieldWrite(e, "Description", SectionKeys[2]);
      assert SectionKeys[2] !in Keys(e);
    } else if j == 2 {
      assert ws[2] == FieldWrite(e, "Date", SectionKeys[3]);
      assert SectionKeys[3] !in Keys(e);
    } else if j == 3 {
      assert ws[3] == FieldWrite(e, "Contact", SectionKeys[4]);
      assert SectionKeys[4] !in Keys(e);
    } else if j == 4 {
      assert ws[4] == FieldWrite(e, "License", SectionKeys[5]);
      assert SectionKeys[5] !in Keys(e);
    } else if "dependencies" !in Keys(e) {
      assert SectionKeys[6] !in Keys(e);
    }
  }

  /**
   * A section raises exactly when the document is not a dict, lacks one of the seven keys
   * it reads, or holds a `dependencies` value that `str.join` rejects.
   */
  lemma SectionRaises(data: Value)
    ensures Section(data).raised <==>
              || !data.Mapping?
              || LacksKey(data.entries)
              || JoinDependencies(Lookup(data.entries, "dependencies").GetOr(Str(""))).None?
  {
    if data.Mapping? {
      var e := data.entries;
      var ws := SectionWrites(e);
      RenderMeaning(ws);
      if LacksKey(e) {
        MissingKeyFails(e);
      }
      if JoinDependencies(Lookup(e, "dependencies").GetOr(Str(""))).None? {
        assert ws[5].None?;
      }
      if Render(ws).raised {
        var j :| 0 <= j < |ws| && ws[j].None?;
        FailureHasCause(e, j);
      }
    }
  }

  /** Rendering a write that succeeds puts its text before the rest. */
  lemma RenderStep(ws: seq<Option<string>>, t: string)
    requires ws != [] && ws[0] == Some(t)
    ensures Render(ws) == Output(t + Render(ws[1..]).text, Render(ws[1..]).raised)
  {
  }

  /**
   * With every key present and joinable dependencies, the section is the title line, the
   * description, date, contact, license and dependencies lines, then the rule, each
   * followed by a blank line.
   */
  lemma SectionLayout(entries: seq<(string, Value)>, name: Value, version: Value, description: Value,
                      date: Value, contact: Value, license: Value, dependencies: string)
    requires Lookup(entries, "name") == Some(name) && Lookup(entries, "version") == Some(version)
    requires Lookup(entries, "description") == Some(description) && Lookup(entries, "date") == Some(date)
    requires Lookup(entries, "contact") == Some(contact) && Lookup(entries, "license") == Some(license)
    requires Lookup(entries, "dependencies").Some?
    requires JoinDependencies(Lookup(entries, "dependencies").value) == Some(dependencies)
    ensures Section(Mapping(entries)) == Output(
              TitleLine(name, version)
              + (Labeled("Description", Show(description))
              + (Labeled("Date", Show(date))
              + (Labeled("Contact", Show(contact))
              + (Labeled("License", Show(license))
              + (Labeled("Dependencies", dependencies)
              + RulerText))))), false)
  {
    assert SectionWrites(entries) == [Some(TitleLine(name, version)),
      Some(Labeled("Description", Show(description))), Some(Labeled("Date", Show(date))),
      Some(Labeled("Contact", Show(contact))), Some(Labeled("License", Show(license))),
      Some(Labeled("Dependencies", dependencies)), Some(RulerText)];
    RenderSeven(TitleLine(name, version), Labeled("Description", Show(description)),
      Labeled("Date", Show(date)), Labeled("Contact", Show(contact)), Labeled("License", Show(license)),
      Labeled("Dependencies", dependencies), RulerText);
  }

  /** Seven writes that all succeed render as their texts, in order. */
  lemma RenderSeven(t0: string, t1: string, t2: string, t3: string, t4: string, t5: string, t6: string)
    ensures Render([Some(t0), Some(t1), Some(t2), Some(t3), Some(t4), Some(t5), Some(t6)])
            == Output(t0 + (t1 + (t2 + (t3 + (t4 + (t5 + t6))))), false)
  {
    var w := [Some(t0), Some(t1), Some(t2), Some(t3), Some(t4), Some(t5), Some(t6)];
    assert w[6..][1..] == [];
    RenderStep(w[6..], t6);
    assert w[5..][1..] == w[6..];
    RenderStep(w[5..], t5);
    assert w[4..][1..] == w[5..];
    RenderStep(w[4..], t4);
    assert w[3..][1..] == w[4..];
    RenderStep(w[3..], t3);
    assert w[2..][1..] == w[3..];
    RenderStep(w[2..], t2);
    assert w[1..][1..] == w[2..];
    RenderStep(w[1..], t1);
    RenderStep(w, t0);
  }

  /** A list of dependency names renders as the names joined by `, `, in order. */
  lemma DependencyListJoin(names: seq<string>)
    ensures JoinDependencies(List(seq(|names|, i requires 0 <= i < |names| => Str(names[i]))))
            == Some(Join(", ", names))
  {
    var items := seq(|names|, i requires 0 <= i < |names| => Str(names[i]));
    assert Strings(items).value == names;
  }

  /** Joining one-character parts puts `, ` between consecutive characters. */
  lemma {:induction false} JoinSingles(parts: seq<string>)
    requires forall i :: 0 <= i < |parts| ==> |parts[i]| == 1
    ensures var r := Join(", ", parts);
            && |r| == (if parts == [] then 0 else 3 * |parts| - 2)
            && (forall k :: 0 <= k < |parts| ==> r[3 * k] == parts[k][0])
            && (forall k :: 0 <= k < |parts| - 1 ==> r[3 * k + 1] == ',' && r[3 * k + 2] == ' ')
  {
    if |parts| >= 2 {
      var rest := parts[1..];
      JoinSingles(rest);
      var j := Join(", ", rest);
      var r := Join(", ", parts);
      assert r == parts[0] + ", " + j;
      forall k | 1 <= k < |parts| ensures r[3 * k] == parts[k][0] {
        assert r[3 * k] == j[3 * (k - 1)];
        assert rest[k - 1] == parts[k];
      }
      forall k | 1 <= k < |parts| - 1 ensures r[3 * k + 1] == ',' && r[3 * k + 2] == ' ' {
        assert r[3 * k + 1] == j[3 * (k - 1) + 1];
        assert r[3 * k + 2] == j[3 * (k - 1) + 2];
      }
    }
  }

  /**
   * A string given as the dependencies renders character by character: each character in
   * turn, with `, ` between consecutive ones, and nothing for an empty string.
   */
  lemma DependencyStringJoin(t: string)
    ensures JoinDependencies(Str(t)).Some?
    ensures var r := JoinDependencies(Str(t)).value;
            && |r| == (if t == [] then 0 else 3 * |t| - 2)
            && (forall k :: 0 <= k < |t| ==> r[3 * k] == t[k])
            && (forall k :: 0 <= k < |t| - 1 ==> r[3 * k + 1] == ',' && r[3 * k + 2] == ' ')
  {
    JoinSingles(Chars(t));
  }

  /** The test's example: a list of two names renders comma-separated. */
  lemma DependencyListExample()
    ensures JoinDependencies(List([Str("dependency1"), Str("dependency2")])) == Some("dependency1, dependency2")
  {
    var a := "dependency1";
    var b := "dependency2";
    var last := [Str(b)];
    var items := [Str(a)] + last;
    assert last[1..] == [];
    assert Strings(last[1..]) == Some([]);
    assert [last[0].s] + [] == [b];
    assert Strings(last) == Some([b]);
    assert items[1..] == last;
    assert [items[0].s] + [b] == [a, b];
    assert Strings(items) == Some([a, b]);
    assert [a, b][1..] == [b];
    assert Join(", ", [b]) == b;
    assert Join(", ", [a, b]) == a + ", " + b;
    assert items == [Str("dependency1"), Str("dependency2")];
    var x := a + ", " + b;
    assert |x| == 24;
    forall i | 0 <= i < 24 ensures x[i] == "dependency1, dependency2"[i] {
      if i < 11 { assert x[i] == a[i]; }
      else if i < 13 { assert x[i] == ", "[i - 11]; }
      else { assert x[i] == b[i - 13]; }
    }
    assert x == "dependency1, dependency2";
    assert JoinDependencies(List(items)) == Some(x);
  }

  /** Two examples of a string joined character by character: `""` and `"ab"`. */
  lemma DependencyStringExample()
    ensures JoinDependencies(Str("")) == Some("")
    ensures JoinDependencies(Str("ab")) == Some("a, b")
  {
    assert Chars("") == [];
    var chars := Chars("ab");
    assert chars == ["a", "b"];
    assert chars[1..] == ["b"];
    assert Join(", ", chars[1..]) == "b";
    var x := "a" + ", " + "b";
    assert Join(", ", chars) == x;
    assert |x| == 4;
    assert x[0] == 'a' && x[1] == ',' && x[2] == ' ' && x[3] == 'b';
    assert x == "a, b";
  }

  // The whole list.

  /** The section of folder `contrib/<n>`: opening a missing or unreadable `metadatas.yml` raises, as does a YAML error. */
  function FolderSection(s: Snapshot, n: string, parse: string -> Parse): Output
  {
    match LoadMetadata(s, Utils.ContribDir + [n, "metadatas.yml"], parse)
    case Parsed(doc) => Section(doc)
    case _ => Output("", true)
  }

  /** The header, then the section of each folder of `names` in turn, until one raises. */
  function Emit(s: Snapshot, names: seq<string>, parse: string -> Parse): Output
  {
    if names == [] then Output(Header, false)
    else
      var prev := Emit(s, names[..|names| - 1], parse);
      if prev.raised then prev
      else
        var section := FolderSection(s, names[|names| - 1], parse);
        Output(prev.text + section.text, section.raised)
  }

  /**
   * `generate_contrib_docs()`'s output: the sections of the directory entries of the
   * listing; listing a `contrib` that is not a directory raises after the header.
   */
  function Contributions(s: Snapshot, listing: seq<string>, parse: string -> Parse): Output
  {
    if Utils.ContribDir !in s.dirs then Output(Header, true)
    else Emit(s, DirEntries(s, Utils.ContribDir, listing), parse)
  }

  /** `generate_contrib_docs()`: the file holds what was written before the run ended. */
  method GenerateContribDocs(fs: FileSystem, listing: seq<string>, parse: string -> Parse) returns (raised: bool)
    modifies fs
    ensures var out := Contributions(old(fs.State()), listing, parse);
            fs.State() == Written(old(fs.State()), OutputPath, out.text) && raised == out.raised
  {
    var doc := Header;
    if Utils.ContribDir !in fs.dirs {
      raised := true;
    } else {
      doc, raised := EmitSections(fs, listing, parse);
    }
    fs.WriteFile(OutputPath, doc);
  }

  /** The loop over the listing of `contrib/`: append each directory's section until one raises. */
  method EmitSections(fs: FileSystem, listing: seq<string>, parse: string -> Parse) returns (doc: string, raised: bool)
    ensures Output(doc, raised) == Emit(fs.State(), DirEntries(fs.State(), Utils.ContribDir, listing), parse)
  {
    ghost var s := fs.State();
    ghost var folders: seq<string> := [];
    doc := Header;
    raised := false;
    var i := 0;
    while i < |listing|
      invariant 0 <= i <= |listing|
      invariant folders == DirEntries(s, Utils.ContribDir, listing[..i])
      invariant Emit(s, folders, parse) == Output(doc, raised)
      invariant !raised
    {
      var n := listing[i];
      EntriesStep(s, listing, i);
      if Utils.ContribDir + [n] in fs.dirs {
        var section := FolderSection(fs.State(), n, parse);
        EmitAppend(s, folders, n, parse);
        folders := folders + [n];
        doc := doc + section.text;
        if section.raised {
          raised := true;
          RaiseEnds(s, listing, i, parse);
          return;
        }
      }
      i := i + 1;
    }
    assert listing[..i] == listing;
  }

  /** The directory entries of one more listing entry. */
  lemma EntriesStep(s: Snapshot, listing: seq<string>, i: int)
    requires 0 <= i < |listing|
    ensures DirEntries(s, Utils.ContribDir, listing[..i + 1])
            == DirEntries(s, Utils.ContribDir, listing[..i])
               + (if Utils.ContribDir + [listing[i]] in s.dirs then [listing[i]] else [])
  {
    assert listing[..i + 1] == listing[..i] + [listing[i]];
    DirEntriesAppend(s, Utils.ContribDir, listing[..i], [listing[i]]);
  }

  /** A section that raised at entry `i` ends the run: the entries after it change nothing. */
  lemma {:induction false} RaiseEnds(s: Snapshot, listing: seq<string>, i: int, parse: string -> Parse)
    requires 0 <= i < |listing|
    requires Emit(s, DirEntries(s, Utils.ContribDir, listing[..i + 1]), parse).raised
    ensures Emit(s, DirEntries(s, Utils.ContribDir, listing), parse)
            == Emit(s, DirEntries(s, Utils.ContribDir, listing[..i + 1]), parse)
  {
    var head := listing[..i + 1];
    var tail := listing[i + 1..];
    var a := DirEntries(s, Utils.ContribDir, head);
    var b := DirEntries(s, Utils.ContribDir, tail);
    assert DirEntries(s, Utils.ContribDir, listing) == a + b by {
      assert head + tail == listing;
      DirEntriesAppend(s, Utils.ContribDir, head, tail);
    }
    StopsAfterRaise(s, a, b, parse);
  }

  /** One more folder after a run that has not raised adds its section. */
  lemma EmitAppend(s: Snapshot, names: seq<string>, n: string, parse: string -> Parse)
    requires !Emit(s, names, parse).raised
    ensures var section := FolderSection(s, n, parse);
            Emit(s, names + [n], parse) == Output(Emit(s, names, parse).text + section.text, section.raised)
  {
    assert (names + [n])[..|names|] == names;
  }

  /** Once a folder raised, the folders after it change nothing. */
  lemma {:induction false} StopsAfterRaise(s: Snapshot, names: seq<string>, more: seq<string>, parse: string -> Parse)
    requires Emit(s, names, parse).raised
    ensures Emit(s, names + more, parse) == Emit(s, names, parse)
  {
    if more == [] {
      assert names + more == names;
    } else {
      var init := more[..|more| - 1];
      StopsAfterRaise(s, names, init, parse);
      assert (names + more)[..|names + more| - 1] == names + init;
    }
  }

  /** The sections of `names`, concatenated. */
  function Sections(s: Snapshot, names: seq<string>, parse: string -> Parse): string
  {
    if names == [] then "" else Sections(s, names[..|names| - 1], parse) + FolderSection(s, names[|names| - 1], parse).text
  }

  /** Whatever happens to the folders, the file written opens with the header. */
  lemma {:induction false} EmitKeepsHeader(s: Snapshot, names: seq<string>, parse: string -> Parse)
    ensures Header <= Emit(s, names, parse).text
  {
    if names != [] {
      EmitKeepsHeader(s, names[..|names| - 1], parse);
      var prev := Emit(s, names[..|names| - 1], parse);
      if !prev.raised {
        PrefixExtends(Header, prev.text, FolderSection(s, names[|names| - 1], parse).text);
      }
    }
  }

  lemma PrefixExtends(h: string, a: string, b: string)
    requires h <= a
    ensures h <= a + b
  {
    assert (a + b)[..|h|] == a[..|h|];
  }

  /**
   * The run raises exactly when the section of some folder does; without an exception the
   * file is the header and then every folder's section, in order.
   */
  lemma {:induction false} EmitMeaning(s: Snapshot, names: seq<string>, parse: string -> Parse)
    ensures Emit(s, names, parse).raised <==> exists i :: 0 <= i < |names| && FolderSection(s, names[i], parse).raised
    ensures !Emit(s, names, parse).raised ==> Emit(s, names, parse).text == Header + Sections(s, names, parse)
  {
    if names != [] {
      var init := names[..|names| - 1];
      EmitMeaning(s, init, parse);
      if exists i :: 0 <= i < |names| && FolderSection(s, names[i], parse).raised {
        var i :| 0 <= i < |names| && FolderSection(s, names[i], parse).raised;
        if i < |init| { assert init[i] == names[i]; }
      }
    }
  }

  /**
   * Non-directory entries are skipped: the list raises exactly when some directory entry's
   * section does, and otherwise holds the header and the directory entries' sections in
   * listing order.
   */
  lemma ContributionsMeaning(s: Snapshot, listing: seq<string>, parse: string -> Parse)
    requires Utils.ContribDir in s.dirs
    ensures var folders := DirEntries(s, Utils.ContribDir, listing);
            var out := Contributions(s, listing, parse);
            && (out.raised <==> exists n :: n in folders && FolderSection(s, n, parse).raised)
            && (!out.raised ==> out.text == Header + Sections(s, folders, parse))
  {
    EmitMeaning(s, DirEntries(s, Utils.ContribDir, listing), parse);
  }
}
