/**
 * The scaffolders that give every contribution folder a `metadatas.yml` or a
 * `README.md` when it has none. Both walk the listing of `contrib/` and write only
 * where the file is absent; they differ in the file and its template.
 */
module CreateFiles {
  import opened Files
  import opened Validation
  import opened InitContrib
  import Utils

  /** The date written by the scaffolder instead of a real one. */
  const PlaceholderDate: string := "yyyy-mm-dd"

  /** Which file a scaffolder creates. */
  datatype Stub = MetadataStub | ReadmeStub

  function FileName(k: Stub): string
  {
    match k
    case MetadataStub => "metadatas.yml"
    case ReadmeStub => "README.md"
  }

  /** The template written into folder `n`. */
  function StubText(k: Stub, n: string): string
  {
    match k
    case MetadataStub => MetadataYaml(n, PlaceholderDate)
    case ReadmeStub => Heading(n)
  }

  /** The folder entry `n` lacks the file: it is a directory and nothing exists at the file's path. */
  predicate Lacks(s: Snapshot, k: Stub, n: string)
  {
    Utils.ContribDir + [n] in s.dirs && !Exists(s, ContribFile(n, FileName(k)))
  }

  /** The loop over the listing: for each directory entry, write the file unless something is already there. */
  function Filled(s: Snapshot, k: Stub, listing: seq<string>): Snapshot
  {
    if listing == [] then s
    else
      var t := Filled(s, k, listing[..|listing| - 1]);
      var n := listing[|listing| - 1];
      if Lacks(t, k, n) then Written(t, ContribFile(n, FileName(k)), StubText(k, n)) else t
  }

  /** The files a run creates: one per directory entry that lacks it. */
  function Targets(s: Snapshot, k: Stub, listing: seq<string>): set<Path>
  {
    set n | n in listing && Lacks(s, k, n) :: ContribFile(n, FileName(k))
  }

  lemma ContribFileInjective(a: string, b: string, file: string)
    ensures ContribFile(a, file) == ContribFile(b, file) <==> a == b
  {
    if ContribFile(a, file) == ContribFile(b, file) {
      assert ContribFile(a, file)[1] == a;
      assert ContribFile(b, file)[1] == b;
    }
  }

  /** A run creates no directory and removes none. */
  lemma {:induction false} FilledDirs(s: Snapshot, k: Stub, listing: seq<string>)
    ensures Filled(s, k, listing).dirs == s.dirs
  {
    if listing != [] {
      FilledDirs(s, k, listing[..|listing| - 1]);
    }
  }

  /** A run creates exactly the targets. */
  lemma {:induction false} FilledKeys(s: Snapshot, k: Stub, listing: seq<string>)
    ensures Filled(s, k, listing).files.Keys == s.files.Keys + Targets(s, k, listing)
  {
    if listing != [] {
      var init := listing[..|listing| - 1];
      var n := listing[|listing| - 1];
      var t := Filled(s, k, init);
      FilledKeys(s, k, init);
      FilledDirs(s, k, init);
      assert listing == init + [n];
      var p := ContribFile(n, FileName(k));
      assert Targets(s, k, listing) == Targets(s, k, init) + (if Lacks(s, k, n) then {p} else {});
    }
  }

  /** A run never changes a file that existed. */
  lemma {:induction false} FilledKeeps(s: Snapshot, k: Stub, listing: seq<string>)
    ensures forall p :: p in s.files ==> p in Filled(s, k, listing).files && Filled(s, k, listing).files[p] == s.files[p]
  {
    if listing != [] {
      var init := listing[..|listing| - 1];
      var n := listing[|listing| - 1];
      FilledKeeps(s, k, init);
    }
  }

  /** Every folder that lacked the file ends up with its template. */
  lemma {:induction false} FilledWrites(s: Snapshot, k: Stub, listing: seq<string>)
    ensures forall n :: n in listing && Lacks(s, k, n) ==>
              var p := ContribFile(n, FileName(k));
              p in Filled(s, k, listing).files && Filled(s, k, listing).files[p] == StubText(k, n)
  {
    if listing != [] {
      var init := listing[..|listing| - 1];
      var n := listing[|listing| - 1];
      var t := Filled(s, k, init);
      var p := ContribFile(n, FileName(k));
      FilledWrites(s, k, init);
      FilledKeys(s, k, init);
      FilledDirs(s, k, init);
      assert listing == init + [n];
      forall m | m in listing && Lacks(s, k, m)
        ensures ContribFile(m, FileName(k)) in Filled(s, k, listing).files
        ensures Filled(s, k, listing).files[ContribFile(m, FileName(k))] == StubText(k, m)
      {
        var q := ContribFile(m, FileName(k));
        ContribFileInjective(m, n, FileName(k));
        if m !in init {
          assert m == n;
          if p in Targets(s, k, init) {
            var m' :| m' in init && Lacks(s, k, m') && ContribFile(m', FileName(k)) == p;
            ContribFileInjective(m', n, FileName(k));
          }
        }
      }
    }
  }

  /** After a run every directory entry has the file. */
  lemma FilledCovers(s: Snapshot, k: Stub, listing: seq<string>, n: string)
    requires n in listing && Utils.ContribDir + [n] in s.dirs
    ensures Exists(Filled(s, k, listing), ContribFile(n, FileName(k)))
  {
    FilledKeys(s, k, listing);
    FilledDirs(s, k, listing);
    if !Exists(s, ContribFile(n, FileName(k))) {
      assert ContribFile(n, FileName(k)) in Targets(s, k, listing);
    }
  }

  /** A run over folders that all have the file writes nothing. */
  lemma {:induction false} FilledNothingToDo(s: Snapshot, k: Stub, listing: seq<string>)
    requires forall n :: n in listing ==> !Lacks(s, k, n)
    ensures Filled(s, k, listing) == s
  {
    if listing != [] {
      var init := listing[..|listing| - 1];
      assert forall n :: n in init ==> n in listing;
      FilledNothingToDo(s, k, init);
    }
  }

  /** The scaffolders are idempotent: a second run over the same listing changes nothing. */
  lemma FilledIdempotent(s: Snapshot, k: Stub, listing: seq<string>)
    ensures Filled(Filled(s, k, listing), k, listing) == Filled(s, k, listing)
  {
    var r := Filled(s, k, listing);
    FilledDirs(s, k, listing);
    forall n | n in listing ensures !Lacks(r, k, n) {
      if Utils.ContribDir + [n] in r.dirs {
        FilledCovers(s, k, listing, n);
      }
    }
    FilledNothingToDo(r, k, listing);
  }

  /**
   * `for contrib_folder in os.listdir('./contrib')`: create the file where it is absent.
   * Listing a `contrib` that is not a directory raises before anything is written.
   */
  method FillMissing(fs: FileSystem, k: Stub, listing: seq<string>) returns (raised: bool)
    modifies fs
    ensures raised <==> Utils.ContribDir !in old(fs.State()).dirs
    ensures fs.State() == (if raised then old(fs.State()) else Filled(old(fs.State()), k, listing))
  {
    if Utils.ContribDir !in fs.dirs {
      return true;
    }
    ghost var s0 := fs.State();
    var i := 0;
    while i < |listing|
      invariant 0 <= i <= |listing|
      invariant fs.State() == Filled(s0, k, listing[..i])
    {
      var n := listing[i];
      assert listing[..i + 1][..i] == listing[..i];
      var path := ContribFile(n, FileName(k));
      if Utils.ContribDir + [n] in fs.dirs && !(path in fs.dirs || path in fs.files) {
        fs.WriteFile(path, StubText(k, n));
      }
      i := i + 1;
    }
    assert listing[..i] == listing;
    return false;
  }

  /** `create_metadata_files()`. */
  method CreateMetadataFiles(fs: FileSystem, listing: seq<string>) returns (raised: bool)
    modifies fs
    ensures raised <==> Utils.ContribDir !in old(fs.State()).dirs
    ensures fs.State() == (if raised then old(fs.State()) else Filled(old(fs.State()), MetadataStub, listing))
  {
    raised := FillMissing(fs, MetadataStub, listing);
  }

  /** `create_readme_files()`. */
  method CreateReadmeFiles(fs: FileSystem, listing: seq<string>) returns (raised: bool)
    modifies fs
    ensures raised <==> Utils.ContribDir !in old(fs.State()).dirs
    ensures fs.State() == (if raised then old(fs.State()) else Filled(old(fs.State()), ReadmeStub, listing))
  {
    raised := FillMissing(fs, ReadmeStub, listing);
  }

  /**
   * A folder that lacked `metadatas.yml` passes validation after the metadata scaffolder
   * ran, when the loader reads the quoted values back.
   */
  lemma CreatedMetadataValidates(s: Snapshot, listing: seq<string>, n: string, parse: string -> Parse)
    requires n in listing && Lacks(s, MetadataStub, n)
    requires ReadsQuoted(parse, MetadataPairs(n, PlaceholderDate))
    ensures FolderVerdict(Filled(s, MetadataStub, listing), Utils.ContribDir, n, "metadatas.yml", parse) == Pass
  {
    FilledWrites(s, MetadataStub, listing);
    MetadataComplete(n, PlaceholderDate);
  }

  /** A README created by the scaffolder is exactly `# <folder>` and a newline. */
  lemma CreatedReadmeIsHeading(s: Snapshot, listing: seq<string>, n: string)
    requires n in listing && Lacks(s, ReadmeStub, n)
    ensures var r := Filled(s, ReadmeStub, listing);
            ContribFile(n, "README.md") in r.files && r.files[ContribFile(n, "README.md")] == "# " + n + "\n"
  {
    FilledWrites(s, ReadmeStub, listing);
  }
}
