/** Validation of every contribution's `metadatas.yml`, one folder at a time and in batch. */
module ValidateContrib {
  import opened Files
  import opened Validation

  /** Validate `<folder>/metadatas.yml`. */
  function ValidateContribInfo(s: Snapshot, folder: Path, parse: string -> Parse): (v: Verdict)
    ensures !Exists(s, folder + ["metadatas.yml"]) ==> v == NoFile
    ensures LoadMetadata(s, folder + ["metadatas.yml"], parse).Unparsable? ==> v == BadSyntax
    ensures v.Missing? ==> v.fields != [] && Subsequence(v.fields, SixFields)
  {
    Check(SixFields, LoadMetadata(s, folder + ["metadatas.yml"], parse))
  }

  /** Validate every directory entry of `root`, in listing order, ANDing the results. */
  method ValidateAllContrib(s: Snapshot, root: Path, listing: seq<string>, parse: string -> Parse)
    returns (outcome: BatchOutcome, checked: seq<string>)
    ensures root !in s.dirs ==> outcome == Raised
    ensures root in s.dirs ==> outcome == BatchFrom(s, root, true, listing, "metadatas.yml", parse)
    ensures outcome.Finished? ==> checked == DirEntries(s, root, listing)
  {
    outcome, checked := ValidateAll(s, root, listing, "metadatas.yml", parse);
  }

  /**
   * A directory entry without a metadata file makes the batch fail, whatever the other
   * folders hold.
   */
  lemma FolderWithoutMetadataFailsBatch(s: Snapshot, root: Path, listing: seq<string>, parse: string -> Parse, n: string)
    requires n in listing && root + [n] in s.dirs
    requires !Exists(s, root + [n, "metadatas.yml"])
    ensures BatchFrom(s, root, true, listing, "metadatas.yml", parse) != Finished(true)
  {
    BatchMeaning(s, root, true, listing, "metadatas.yml", parse);
    assert n in DirEntries(s, root, listing);
    assert root + [n, "metadatas.yml"] == root + [n] + ["metadatas.yml"];
    assert FolderVerdict(s, root, n, "metadatas.yml", parse) == NoFile;
  }
}
