/** The older validator, which reads `contribution_info.yaml` in every contribution folder. */
module Validate {
  import opened Files
  import opened Validation

  const ContribRoot: Path := ["contrib"]

  /** Validate `<folder>/contribution_info.yaml`. */
  function ValidateContributionInfo(s: Snapshot, folder: Path, parse: string -> Parse): (v: Verdict)
    ensures !Exists(s, folder + ["contribution_info.yaml"]) ==> v == NoFile
    ensures LoadMetadata(s, folder + ["contribution_info.yaml"], parse).Unparsable? ==> v == BadSyntax
    ensures v.Missing? ==> v.fields != [] && Subsequence(v.fields, SixFields)
  {
    Check(SixFields, LoadMetadata(s, folder + ["contribution_info.yaml"], parse))
  }

  /** Validate every directory entry of `./contrib`, in listing order, ANDing the results. */
  method ValidateAllContributions(s: Snapshot, listing: seq<string>, parse: string -> Parse)
    returns (outcome: BatchOutcome, checked: seq<string>)
    ensures ContribRoot !in s.dirs ==> outcome == Raised
    ensures ContribRoot in s.dirs ==> outcome == BatchFrom(s, ContribRoot, true, listing, "contribution_info.yaml", parse)
    ensures outcome.Finished? ==> checked == DirEntries(s, ContribRoot, listing)
  {
    outcome, checked := ValidateAll(s, ContribRoot, listing, "contribution_info.yaml", parse);
  }

  /** The script's exit status: 0 exactly when every contribution folder validates. */
  function ExitStatus(s: Snapshot, listing: seq<string>, parse: string -> Parse): (status: int)
    ensures status == 0 || status == 1
    ensures status == 0 <==>
              ContribRoot in s.dirs &&
              forall n :: n in DirEntries(s, ContribRoot, listing) ==>
                FolderVerdict(s, ContribRoot, n, "contribution_info.yaml", parse).Ok()
  {
    BatchMeaning(s, ContribRoot, true, listing, "contribution_info.yaml", parse);
    if ContribRoot in s.dirs && BatchFrom(s, ContribRoot, true, listing, "contribution_info.yaml", parse) == Finished(true)
    then 0 else 1
  }
}
