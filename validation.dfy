/**
 * The required-field check shared by every validator: load a metadata file,
 * then list, in declared order, the required fields the document lacks.
 */
module Validation {
  import opened Values
  import opened Files

  /** What the YAML or TOML loader does with a file's text. */
  datatype Parse = SyntaxError | Loaded(doc: Value)

  /** A metadata file as a validator finds it. `Unreadable` is a directory in its place. */
  datatype MetadataFile = Absent | Unreadable | Unparsable | Parsed(doc: Value)

  /**
   * A single validation. Every outcome but `Pass` makes the Python function return False,
   * except `Crash`, where an exception escapes it.
   */
  datatype Verdict = Pass | NoFile | BadSyntax | Missing(fields: seq<string>) | Crash
  {
    predicate Ok() { Pass? }
  }

  /** The required fields of the YAML validators. */
  const SixFields: seq<string> := ["name", "description", "date", "contact", "version", "license"]

  /** Open and load the file at `p`, as the validators do after `os.path.exists`. */
  function LoadMetadata(s: Snapshot, p: Path, parse: string -> Parse): (r: MetadataFile)
    ensures r.Absent? <==> !Exists(s, p)
  {
    if p in s.files then
      match parse(s.files[p])
      case SyntaxError => Unparsable
      case Loaded(doc) => Parsed(doc)
    else if p in s.dirs then Unreadable
    else Absent
  }

  /** `a` is `b` with some elements dropped, the rest in the same order. */
  predicate Subsequence(a: seq<string>, b: seq<string>)
  {
    if a == [] then true
    else if b == [] then false
    else if a[0] == b[0] then Subsequence(a[1..], b[1..])
    else Subsequence(a, b[1..])
  }

  /** `[field for field in required if field not in doc]`. */
  function MissingFields(required: seq<string>, doc: Value): (r: seq<string>)
    requires Searchable(doc)
    ensures forall f :: f in r <==> f in required && !Has(doc, f)
    ensures Subsequence(r, required)
  {
    if required == [] then []
    else if Has(doc, required[0]) then MissingFields(required[1..], doc)
    else [required[0]] + MissingFields(required[1..], doc)
  }

  /** Two documents that agree on every required field miss the same fields. */
  lemma {:induction false} MissingFieldsAgree(required: seq<string>, d1: Value, d2: Value)
    requires Searchable(d1) && Searchable(d2)
    requires forall i :: 0 <= i < |required| ==> (Has(d1, required[i]) <==> Has(d2, required[i]))
    ensures MissingFields(required, d1) == MissingFields(required, d2)
  {
    if required != [] {
      MissingFieldsAgree(required[1..], d1, d2);
    }
  }

  /** The validation of one loaded metadata file against `required`. */
  function Check(required: seq<string>, file: MetadataFile): (v: Verdict)
    ensures v.Ok() <==>
              file.Parsed? &&
              (required == [] || (Searchable(file.doc) && forall i :: 0 <= i < |required| ==> Has(file.doc, required[i])))
    ensures v.Missing? ==> file.Parsed? && Searchable(file.doc) && v.fields != []
                           && v.fields == MissingFields(required, file.doc)
    ensures v.NoFile? <==> file.Absent?
    ensures v.BadSyntax? <==> file.Unparsable?
    ensures v.Crash? <==> file.Unreadable? || (file.Parsed? && !Searchable(file.doc) && required != [])
  {
    match file
    case Absent => NoFile
    case Unreadable => Crash
    case Unparsable => BadSyntax
    case Parsed(doc) =>
      if !Searchable(doc) then (if required == [] then Pass else Crash)
      else
        var missing := MissingFields(required, doc);
        if missing == [] then Pass
        else
          assert missing[0] in required && !Has(doc, missing[0]);
          Missing(missing)
  }

  /** A key that is not required never changes a verdict. */
  lemma ExtraKeyIrrelevant(required: seq<string>, entries: seq<(string, Value)>, key: string, value: Value)
    requires key !in required
    ensures Check(required, Parsed(Mapping(entries + [(key, value)]))) == Check(required, Parsed(Mapping(entries)))
  {
    var d1 := Mapping(entries + [(key, value)]);
    var d2 := Mapping(entries);
    assert Keys(entries + [(key, value)]) == Keys(entries) + [key];
    forall i | 0 <= i < |required| ensures Has(d1, required[i]) <==> Has(d2, required[i]) {
      assert required[i] != key;
    }
    MissingFieldsAgree(required, d1, d2);
  }

  /** The result of a batch: the AND of the verdicts, unless an exception escaped. */
  datatype BatchOutcome = Finished(valid: bool) | Raised

  /** The directory entries of a listing, in listing order. */
  function DirEntries(s: Snapshot, root: Path, listing: seq<string>): (r: seq<string>)
    ensures forall n :: n in r <==> n in listing && root + [n] in s.dirs
    ensures |r| <= |listing|
  {
    if listing == [] then []
    else (if root + [listing[0]] in s.dirs then [listing[0]] else []) + DirEntries(s, root, listing[1..])
  }

  /** The verdict on folder `root + [n]`. */
  function FolderVerdict(s: Snapshot, root: Path, n: string, fileName: string, parse: string -> Parse): Verdict
  {
    Check(SixFields, LoadMetadata(s, root + [n, fileName], parse))
  }

  /**
   * `for contrib_folder in rest: if isdir: valid &= validate(...)`, started with `valid`;
   * an exception escaping one validation ends the loop.
   */
  function BatchFrom(s: Snapshot, root: Path, valid: bool, rest: seq<string>, fileName: string, parse: string -> Parse): BatchOutcome
  {
    if rest == [] then Finished(valid)
    else if root + [rest[0]] !in s.dirs then BatchFrom(s, root, valid, rest[1..], fileName, parse)
    else
      var v := FolderVerdict(s, root, rest[0], fileName, parse);
      if v.Crash? then Raised
      else BatchFrom(s, root, valid && v.Ok(), rest[1..], fileName, parse)
  }

  /**
   * The batch is True iff every directory entry validates, and it raises iff some validation
   * of a directory entry raised; the remaining entries are checked after a failure.
   */
  lemma {:induction false} BatchMeaning(s: Snapshot, root: Path, valid: bool, rest: seq<string>, fileName: string, parse: string -> Parse)
    ensures BatchFrom(s, root, valid, rest, fileName, parse) == Finished(true) <==>
              valid && forall n :: n in DirEntries(s, root, rest) ==> FolderVerdict(s, root, n, fileName, parse).Ok()
    ensures BatchFrom(s, root, valid, rest, fileName, parse).Raised? <==>
              exists n :: n in DirEntries(s, root, rest) && FolderVerdict(s, root, n, fileName, parse).Crash?
  {
    if rest != [] {
      var n := rest[0];
      assert DirEntries(s, root, rest) == (if root + [n] in s.dirs then [n] else []) + DirEntries(s, root, rest[1..]);
      if root + [n] !in s.dirs {
        BatchMeaning(s, root, valid, rest[1..], fileName, parse);
      } else {
        var v := FolderVerdict(s, root, n, fileName, parse);
        BatchMeaning(s, root, valid && v.Ok(), rest[1..], fileName, parse);
      }
    }
  }

  /**
   * Validate the `fileName` of every directory entry under `root`, without stopping at a failure.
   * `checked` lists the folders validated, in listing order.
   */
  method ValidateAll(s: Snapshot, root: Path, listing: seq<string>, fileName: string, parse: string -> Parse)
    returns (outcome: BatchOutcome, checked: seq<string>)
    ensures root !in s.dirs ==> outcome == Raised && checked == []
    ensures root in s.dirs ==> outcome == BatchFrom(s, root, true, listing, fileName, parse)
    ensures outcome.Finished? ==> checked == DirEntries(s, root, listing)
    ensures outcome.Raised? && checked != [] ==> FolderVerdict(s, root, checked[|checked| - 1], fileName, parse).Crash?
  {
    checked := [];
    if root !in s.dirs {
      return Raised, checked;
    }
    var valid := true;
    var i := 0;
    while i < |listing|
      invariant 0 <= i <= |listing|
      invariant checked == DirEntries(s, root, listing[..i])
      invariant BatchFrom(s, root, true, listing, fileName, parse) == BatchFrom(s, root, valid, listing[i..], fileName, parse)
    {
      var n := listing[i];
      assert listing[i..][1..] == listing[i + 1..];
      assert listing[..i + 1] == listing[..i] + [n];
      DirEntriesAppend(s, root, listing[..i], [n]);
      if root + [n] in s.dirs {
        var v := Check(SixFields, LoadMetadata(s, root + [n, fileName], parse));
        checked := checked + [n];
        if v.Crash? {
          return Raised, checked;
        }
        valid := valid && v.Ok();
      }
      i := i + 1;
    }
    assert listing[..i] == listing;
    return Finished(valid), checked;
  }

  lemma {:induction false} DirEntriesAppend(s: Snapshot, root: Path, a: seq<string>, b: seq<string>)
    ensures DirEntries(s, root, a + b) == DirEntries(s, root, a) + DirEntries(s, root, b)
  {
    if a == [] {
      assert a + b == b;
    } else {
      assert (a + b)[0] == a[0] && (a + b)[1..] == a[1..] + b;
      DirEntriesAppend(s, root, a[1..], b);
    }
  }
}
