/**
 * Starting a new contribution: the name check, the command-line handling and the
 * folder it creates under `contrib/` (a title README, a complete `metadatas.yml` and
 * an `__init__.py`). The `metadatas.yml` template is shared with the scripts that fill
 * in missing metadata files.
 */
module InitContrib {
  import opened Text
  import opened Values
  import opened Files
  import opened Validation
  import Utils

  /** A character of the class `[a-z0-9_]`. */
  predicate NameChar(c: char)
  {
    ('a' <= c <= 'z') || ('0' <= c <= '9') || c == '_'
  }

  /** `re.fullmatch(r'[a-z0-9_]+', name) is not None`: one class character, then the rest again or nothing. */
  function IsValidContributionName(name: string): (ok: bool)
    ensures ok <==> name != [] && forall i :: 0 <= i < |name| ==> NameChar(name[i])
  {
    if name == [] then false
    else NameChar(name[0]) && (|name| == 1 || IsValidContributionName(name[1..]))
  }

  /** The names the test suite accepts. */
  lemma AcceptedNames()
    ensures IsValidContributionName("valid_name123")
    ensures IsValidContributionName("valid_name")
  {
    var a := "valid_name123";
    forall i | 0 <= i < |a| ensures NameChar(a[i]) {}
    var b := "valid_name";
    forall i | 0 <= i < |b| ensures NameChar(b[i]) {}
  }

  /** The names the test suite rejects: a capital and a hyphen, a space. */
  lemma RejectedNames()
    ensures !IsValidContributionName("Invalid-Name")
    ensures !IsValidContributionName("invalid name")
  {
    var a := "Invalid-Name";
    assert !NameChar(a[0]);
    var b := "invalid name";
    assert !NameChar(b[7]);
  }

  /** What `str.isspace()` accepts, and so what `str.strip()` removes. */
  predicate Whitespace(c: char)
  {
    ('\U{0009}' <= c <= '\U{000D}') || ('\U{001C}' <= c <= '\U{0020}')
    || c == '\U{0085}' || c == '\U{00A0}' || c == '\U{1680}'
    || ('\U{2000}' <= c <= '\U{200A}') || c == '\U{2028}' || c == '\U{2029}'
    || c == '\U{202F}' || c == '\U{205F}' || c == '\U{3000}'
  }

  /** `s` without its leading whitespace. */
  function StripStart(s: string): (r: string)
    ensures |r| <= |s| && r == s[|s| - |r|..]
    ensures forall k :: 0 <= k < |s| - |r| ==> Whitespace(s[k])
    ensures r != [] ==> !Whitespace(r[0])
  {
    if s != [] && Whitespace(s[0]) then StripStart(s[1..]) else s
  }

  /** `s` without its trailing whitespace. */
  function StripEnd(s: string): (r: string)
    ensures |r| <= |s| && r == s[..|r|]
    ensures forall k :: |r| <= k < |s| ==> Whitespace(s[k])
    ensures r != [] ==> !Whitespace(r[|r| - 1])
  {
    if s != [] && Whitespace(s[|s| - 1]) then StripEnd(s[..|s| - 1]) else s
  }

  /** Python's `s.strip()`. */
  function Strip(s: string): string
  {
    StripEnd(StripStart(s))
  }

  /**
   * The stripped string is a slice of the original with only whitespace cut on either
   * side, and it neither starts nor ends with whitespace.
   */
  lemma StripSlice(s: string)
    ensures var r := Strip(s);
            exists i, j :: 0 <= i <= j <= |s| && r == s[i..j]
                           && (forall k :: 0 <= k < i ==> Whitespace(s[k]))
                           && (forall k :: j <= k < |s| ==> Whitespace(s[k]))
    ensures var r := Strip(s); r != [] ==> !Whitespace(r[0]) && !Whitespace(r[|r| - 1])
  {
    var i, j := StripBounds(s);
    var r := Strip(s);
    if r != [] {
      assert r[0] == StripStart(s)[0];
    }
  }

  /** The bounds of the slice `strip()` keeps. */
  lemma StripBounds(s: string) returns (i: int, j: int)
    ensures 0 <= i <= j <= |s| && Strip(s) == s[i..j]
    ensures forall k :: 0 <= k < i ==> Whitespace(s[k])
    ensures forall k :: j <= k < |s| ==> Whitespace(s[k])
  {
    var t := StripStart(s);
    var r := StripEnd(t);
    i := |s| - |t|;
    j := i + |r|;
    assert t == s[i..];
    assert r == s[i..][..|r|];
    forall k | j <= k < |s| ensures Whitespace(s[k]) {
      assert s[k] == t[k - i];
    }
  }

  /** A string that neither starts nor ends with whitespace is its own strip; in particular stripping twice changes nothing. */
  lemma StripFixed(s: string)
    ensures (s == [] || (!Whitespace(s[0]) && !Whitespace(s[|s| - 1]))) ==> Strip(s) == s
    ensures Strip(Strip(s)) == Strip(s)
  {
    StripSlice(s);
    var r := Strip(s);
    if r != [] {
      assert StripStart(r) == r;
      assert StripEnd(r) == r;
    }
  }

  /** A valid name has no whitespace, so the command line may pad it. */
  lemma ValidNameUnstripped(name: string)
    requires IsValidContributionName(name)
    ensures Strip(name) == name
  {
    assert !Whitespace(name[0]) && !Whitespace(name[|name| - 1]);
    StripFixed(name);
  }

  // The metadata template.

  /** `key: "value"` on one line. */
  function QuotedLine(key: string, value: string): string
  {
    key + ": \"" + value + "\""
  }

  /** The YAML text of `key: "value"` lines, each newline-terminated. */
  function YamlText(pairs: seq<(string, string)>): string
  {
    if pairs == [] then "" else QuotedLine(pairs[0].0, pairs[0].1) + "\n" + YamlText(pairs[1..])
  }

  /** What a YAML loader makes of those lines: a mapping from each key to its string. */
  function YamlDoc(pairs: seq<(string, string)>): (d: Value)
    ensures d.Mapping? && Keys(d.entries) == seq(|pairs|, i requires 0 <= i < |pairs| => pairs[i].0)
  {
    Mapping(seq(|pairs|, i requires 0 <= i < |pairs| => (pairs[i].0, Str(pairs[i].1))))
  }

  /** The fields of a new `metadatas.yml`: the folder name twice, the date, then fixed values. */
  function MetadataPairs(name: string, date: string): seq<(string, string)>
  {
    [("name", name), ("description", name), ("date", date), ("contact", Utils.DefaultAuthorEmail),
     ("version", Utils.DefaultVersion), ("license", Utils.DefaultLicense), ("dependencies", "")]
  }

  function MetadataYaml(name: string, date: string): string
  {
    YamlText(MetadataPairs(name, date))
  }

  /** A loader that reads the template's lines as the strings they quote. */
  ghost predicate ReadsQuoted(parse: string -> Parse, pairs: seq<(string, string)>)
  {
    parse(YamlText(pairs)) == Loaded(YamlDoc(pairs))
  }

  /** The template holds all six fields the YAML validators require, whatever the name and date. */
  lemma MetadataComplete(name: string, date: string)
    ensures Check(SixFields, Parsed(YamlDoc(MetadataPairs(name, date)))) == Pass
  {
    var keys := Keys(YamlDoc(MetadataPairs(name, date)).entries);
    assert keys == ["name", "description", "date", "contact", "version", "license", "dependencies"];
    forall i | 0 <= i < |SixFields| ensures SixFields[i] in keys {
      assert SixFields[i] == keys[i];
    }
  }

  // Creating the contribution.

  /** `# {name}` and a newline: the README and the `__init__.py` of a new contribution. */
  function Heading(name: string): string
  {
    "# " + name + "\n"
  }

  /** `contrib/<name>/<file>`. */
  function ContribFile(name: string, file: string): Path
  {
    Utils.ContribDir + [name, file]
  }

  /** `create_contribution(name)`: make the folder, then write the README, the metadata and `__init__.py`. */
  function Created(s: Snapshot, name: string, date: string): Snapshot
  {
    Placed(s, name, MetadataYaml(name, date))
  }

  /** The folder made and its three files written, with `metadata` as the text of `metadatas.yml`. */
  function Placed(s: Snapshot, name: string, metadata: string): Snapshot
  {
    var made := MadeDirs(s, Utils.ContribDir + [name]);
    var withReadme := Written(made, ContribFile(name, "README.md"), Heading(name));
    var withMetadata := Written(withReadme, ContribFile(name, "metadatas.yml"), metadata);
    Written(withMetadata, ContribFile(name, "__init__.py"), Heading(name))
  }

  method CreateContribution(fs: FileSystem, name: string, date: string)
    modifies fs
    ensures fs.State() == Created(old(fs.State()), name, date)
  {
    fs.MakeDirs(Utils.ContribDir + [name]);
    fs.WriteFile(ContribFile(name, "README.md"), Heading(name));
    fs.WriteFile(ContribFile(name, "metadatas.yml"), MetadataYaml(name, date));
    fs.WriteFile(ContribFile(name, "__init__.py"), Heading(name));
  }

  /** The three files of a new contribution. */
  function NewFiles(name: string): set<Path>
  {
    {ContribFile(name, "README.md"), ContribFile(name, "metadatas.yml"), ContribFile(name, "__init__.py")}
  }

  /**
   * After `create_contribution(name)` the folder exists and holds the three files with
   * their templates, and every other file is as it was.
   */
  lemma CreatedLayout(s: Snapshot, name: string, date: string)
    ensures var r := Created(s, name, date);
            && Utils.ContribDir + [name] in r.dirs
            && r.files.Keys == s.files.Keys + NewFiles(name)
            && r.files[ContribFile(name, "README.md")] == Heading(name)
            && r.files[ContribFile(name, "metadatas.yml")] == MetadataYaml(name, date)
            && r.files[ContribFile(name, "__init__.py")] == Heading(name)
            && (forall p :: p in s.files && p !in NewFiles(name) ==> r.files[p] == s.files[p])
  {
    PlacedLayout(s, name, MetadataYaml(name, date));
  }

  lemma PlacedLayout(s: Snapshot, name: string, metadata: string)
    ensures var r := Placed(s, name, metadata);
            && Utils.ContribDir + [name] in r.dirs
            && r.files.Keys == s.files.Keys + NewFiles(name)
            && r.files[ContribFile(name, "README.md")] == Heading(name)
            && r.files[ContribFile(name, "metadatas.yml")] == metadata
            && r.files[ContribFile(name, "__init__.py")] == Heading(name)
            && (forall p :: p in s.files && p !in NewFiles(name) ==> r.files[p] == s.files[p])
  {
    var dir := Utils.ContribDir + [name];
    assert dir == dir[..|dir|];
    NewFilesDistinct(name);
  }

  /** The three files of a new contribution have three different paths. */
  lemma NewFilesDistinct(name: string)
    ensures ContribFile(name, "README.md") != ContribFile(name, "metadatas.yml")
    ensures ContribFile(name, "README.md") != ContribFile(name, "__init__.py")
    ensures ContribFile(name, "metadatas.yml") != ContribFile(name, "__init__.py")
  {
    assert ContribFile(name, "README.md")[2][0] == 'R';
    assert ContribFile(name, "metadatas.yml")[2][0] == 'm';
    assert ContribFile(name, "__init__.py")[2][0] == '_';
  }

  /** The metadata of a new contribution passes validation when the loader reads the quoted values back. */
  lemma CreatedValidates(s: Snapshot, name: string, date: string, parse: string -> Parse)
    requires ReadsQuoted(parse, MetadataPairs(name, date))
    ensures FolderVerdict(Created(s, name, date), Utils.ContribDir, name, "metadatas.yml", parse) == Pass
  {
    CreatedLayout(s, name, date);
    MetadataComplete(name, date);
  }

  // The command line.

  /** What `main()` leaves behind and its exit status. */
  function Initialized(s: Snapshot, argv: seq<string>, date: string): (Snapshot, int)
  {
    if |argv| != 2 then (s, 1)
    else
      var name := Strip(argv[1]);
      if !IsValidContributionName(name) then (s, 1)
      else (Created(s, name, date), 0)
  }

  /** `main()`: one argument, stripped and checked before anything is created. */
  method InitMain(fs: FileSystem, argv: seq<string>, date: string) returns (status: int)
    modifies fs
    ensures (fs.State(), status) == Initialized(old(fs.State()), argv, date)
  {
    if |argv| != 2 {
      return 1;
    }
    var name := Strip(argv[1]);
    if !IsValidContributionName(name) {
      return 1;
    }
    CreateContribution(fs, name, date);
    return 0;
  }

  /**
   * The run succeeds exactly when there is one argument whose stripped form is a valid
   * name; a failing run changes nothing, and a valid name is used as given.
   */
  lemma InitOutcome(s: Snapshot, argv: seq<string>, date: string)
    ensures var (r, status) := Initialized(s, argv, date);
            && (status == 0 <==> |argv| == 2 && IsValidContributionName(Strip(argv[1])))
            && (status != 0 ==> status == 1 && r == s)
            && (status == 0 ==> Utils.ContribDir + [Strip(argv[1])] in r.dirs)
    ensures |argv| == 2 && IsValidContributionName(argv[1]) ==>
              Initialized(s, argv, date) == (Created(s, argv[1], date), 0)
  {
    if |argv| == 2 && IsValidContributionName(argv[1]) {
      ValidNameUnstripped(argv[1]);
    }
    if |argv| == 2 {
      var dir := Utils.ContribDir + [Strip(argv[1])];
      assert dir == dir[..|dir|];
    }
  }
}
