/** The command-line validator of one contribution's `metadatas.yml`. */
module ValidateContribMetadatas {
  import opened Files
  import opened Validation

  const ContribDir: Path := ["contrib"]

  /** Validate `contrib/<name>/metadatas.yml` against the six required fields. */
  function ValidateContribMetadatas(s: Snapshot, name: string, parse: string -> Parse): (v: Verdict)
    ensures !Exists(s, ContribDir + [name, "metadatas.yml"]) ==> v == NoFile
    ensures v.Ok() ==> ContribDir + [name, "metadatas.yml"] in s.files
    ensures v.Ok() <==> LoadMetadata(s, ContribDir + [name, "metadatas.yml"], parse).Parsed? &&
                        var doc := LoadMetadata(s, ContribDir + [name, "metadatas.yml"], parse).doc;
                        Values.Searchable(doc) && forall i :: 0 <= i < |SixFields| ==> Values.Has(doc, SixFields[i])
  {
    Check(SixFields, LoadMetadata(s, ContribDir + [name, "metadatas.yml"], parse))
  }

  /**
   * The process exit status for the arguments `argv` (the script name first): a usage error
   * exits 1 before anything is read; otherwise 0 exactly when validation passes. An exception
   * escaping the validation also ends the interpreter with status 1.
   */
  function ExitStatus(argv: seq<string>, s: Snapshot, parse: string -> Parse): (status: int)
    ensures status == 0 || status == 1
    ensures |argv| != 2 ==> status == 1
    ensures status == 0 <==> |argv| == 2 && ValidateContribMetadatas(s, argv[1], parse) == Pass
  {
    if |argv| != 2 then 1
    else if ValidateContribMetadatas(s, argv[1], parse).Ok() then 0
    else 1
  }
}
