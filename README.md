# ocean4dvarnet contribution scaffolding, modelled in Dafny

This project models the scripts that manage the `contrib/` folders of
ocean4dvarnet. Each contribution is a folder `contrib/<name>` holding a `README.md`,
a metadata file (`metadatas.yml`, `contribution_info.yaml` or a `pyproject.toml` with a
`[project]` table), an `__init__.py` and its Python modules. The scripts do the following:

- **Create** a contribution (`init_contrib.py`), with a checked name and a complete metadata template.
- **Scaffold** missing files:
  - `create_metadatas.py` and `create_readme.py`, together with their copies
    `create-metadatas.py` and `create-readme.py`, which run the same loop;
  - `fix_contribs.py`, which runs the check-then-create helpers of `utils.py`.
- **Validate** the required metadata fields, one folder at a time or in batch
  (`validate.py`, `validate_contrib.py`, `validate_contrib_metadatas.py`, `utils.py`).
- **Generate documentation**:
  - one Markdown page per module, plus a README with badges, a metadata table and links
    (`generate_contrib_docs.py`, in two versions);
  - a single `contributions-list.md` (`create-doc.py`).
- **Synchronise** `docs/contrib` with `contrib`: orphan documentation folders are removed, and
  `docs/contrib/index.md` links every documented contribution in sorted order
  (`manage_contrib_list.py`, `utils.py`).

The filesystem is a value `Files.Snapshot`: a set of directory paths and a map from file
path to content. A path is a sequence of components. The scripts change the filesystem
through `Files.FileSystem`, a class whose methods `MakeDirs`, `WriteFile` and
`RemoveTree` stand for `os.makedirs(exist_ok=True)`, `open(…, 'w').write` and
`shutil.rmtree`.

Each script that changes the filesystem step by step is a method that drives a
`FileSystem`. Its contract ties the new state to a specification function of the old
state: `Filled`, `Created`, `FixAll`, `Generated`, `Emit`, `Pruned` or `WritePages`.
Lemmas then prove what the scripts promise about those functions.

Some inputs are not computed by the model and are passed in instead:

- What `os.listdir` returns is a listing parameter.
- The YAML and TOML loaders are a function parameter `string -> Parse`.
- `datetime.now()` is a `date` parameter.

An exception that escapes a script is an explicit `raised` flag, or a `Crash` verdict,
next to the state or text left behind.

## Model

| member | source | states |
|---|---|---|
| Files.MadeDirs | scripts/utils.py:174-189 | after `os.makedirs(p, exist_ok=True)` exactly the old directories and every non-empty prefix of `p` are directories; files are untouched |
| Files.Removed | scripts/utils.py:351-354 | after `shutil.rmtree(p)` no directory or file lies at or below `p`; every other entry survives with its content |
| Files.Pruned | scripts/manage_contrib_list.py:71-74 | removing the subtree of each orphan name leaves exactly the entries not below any of them, contents unchanged |
| Files.PrunedStep | scripts/manage_contrib_list.py:71-74 | removing the subtrees one at a time, in any order, equals removing them all at once |
| Files.ListDirectories | scripts/utils.py:320-333 | a missing root gives the empty set; every name returned is a listing entry that is a directory |
| Files.ListDirectoriesExact | scripts/utils.py:62-75 | with a true listing of an existing root, a name is returned exactly when `root/name` is a directory |
| Files.FileSystem.MakeDirs | scripts/utils.py:188 | the new state is `MadeDirs` of the old one |
| Files.FileSystem.WriteFile | scripts/utils.py:103-105 | the new state is the old one with the file holding exactly the text written |
| Files.FileSystem.RemoveTree | scripts/utils.py:351-354 | on an existing directory, the new state is `Removed` of the old one |
| Text.LinesOfUnlines | scripts/manage_contrib_list.py:84-88 | text written as newline-terminated single lines splits back into exactly those lines |
| Text.JoinThenNewline | scripts/utils.py:278-282 | a non-empty `"\n".join(parts)` followed by one newline ends every part with a newline |
| Text.AscendingUnique | scripts/manage_contrib_list.py:85 | two strictly ascending sequences with the same elements are equal, so `sorted` has one answer |
| Text.SortNames | scripts/manage_contrib_list.py:85 | `sorted(names)` is strictly ascending in code-point order and holds exactly the names of the set |
| Text.Sorted | scripts/manage_contrib_list.py:85 | the sorted enumeration of a set exists, is ascending and has exactly the set's elements |
| Values.ReprRoundTrip | scripts/generate_contrib_docs.py:83 | a string's `repr`, as list and dict cells show it, opens and closes with the same quote and reads back as the string, so distinct strings show distinct literals |
| Values.UnescapeEscaped | contrib/scripts/generate_contrib_docs.py:60 | the escapes `repr` writes (backslash, the quote, tab, newline, carriage return, `\xhh`) read back as the characters escaped |
| Values.ReprApostrophe | scripts/generate_contrib_docs.py:83 | every string holding `'` and no `"` is quoted with `"`, and plain text then appears between the quotes unchanged |
| Values.ReprBothQuotes | scripts/generate_contrib_docs.py:83 | every string holding both quotes is quoted with `'`, and every `'` inside the literal follows a backslash |
| Values.PlainEscaped | contrib/scripts/generate_contrib_docs.py:60 | printable text without backslashes or the delimiting quote is written as it is |
| Values.QuotesEscaped | contrib/scripts/generate_contrib_docs.py:60 | inside a literal, every occurrence of its quote is escaped with a backslash |
| Validation.LoadMetadata | scripts/validate_contrib.py:26-35 | the file is reported absent exactly when nothing exists at its path |
| Validation.MissingFields | scripts/validate_contrib.py:37-41 | a field is reported missing iff it is required and `field in data` is false; the missing fields keep the declared order |
| Validation.MissingFieldsAgree | scripts/validate_contrib.py:37-41 | two documents that agree on every required field miss the same fields |
| Validation.Check | scripts/validate_contrib.py:11-44 | the verdict passes iff the file was parsed into a searchable document lacking no required field; no file and bad syntax are reported as such; a failure names a non-empty list of fields; an exception escapes iff the file is a directory or a document on which `in` is undefined is searched for a field |
| Validation.ExtraKeyIrrelevant | scripts/validate_contrib.py:37-41 | adding a key that is not required never changes the verdict |
| Validation.DirEntries | scripts/validate_contrib.py:63-66 | the folders validated are exactly the listing entries that are directories, in listing order |
| Validation.BatchMeaning | scripts/validate_contrib.py:47-70 | the batch is True iff every directory entry validates; it raises iff some validation raises; every entry is still checked after a failure |
| Validation.ValidateAll | scripts/validate_contrib.py:47-70 | the loop's outcome is the batch function's; a finished run validated exactly the directory entries, in order; a missing root raises before any folder is checked |
| Validate.ValidateContributionInfo | scripts/validate.py:7-28 | no `contribution_info.yaml` gives the no-file verdict, a YAML error gives bad syntax, and a failure lists fields of the six required ones |
| Validate.ValidateAllContributions | scripts/validate.py:30-41 | the batch over `./contrib` as `BatchFrom` defines it; a missing `./contrib` raises |
| Validate.ExitStatus | scripts/validate.py:43-46 | the exit status is 0 or 1, and 0 exactly when the batch finished True |
| ValidateContrib.ValidateContribInfo | scripts/validate_contrib.py:11-44 | the same verdicts, for `metadatas.yml` |
| ValidateContrib.ValidateAllContrib | scripts/validate_contrib.py:47-70 | the batch over `contrib_root` as `BatchFrom` defines it, over the directory entries in listing order |
| ValidateContrib.FolderWithoutMetadataFailsBatch | tests/test_validate_contrib.py:55-65 | one directory without `metadatas.yml` makes the whole batch fail, whatever the other folders hold |
| ValidateContribMetadatas.ValidateContribMetadatas | scripts/validate_contrib_metadatas.py:18-51 | passes iff `contrib/<name>/metadatas.yml` is a file that parses into a document with all six required fields |
| ValidateContribMetadatas.ExitStatus | scripts/validate_contrib_metadatas.py:53-69 | a wrong argument count exits 1; otherwise the status is 0 exactly when validation passes |
| Utils.ReadmeRoundTrip | scripts/utils.py:91-106 | the README written for a name and description reads back as `# name` with that description after it |
| Utils.StubsAreOneLine | scripts/utils.py:120-171 | the `__init__.py`, main-module and test stubs are each one line naming the contribution |
| Utils.TestFileCheckMissesCreatedFile | scripts/utils.py:192-210 | the test module is written under `tests/` but checked for in the folder itself, so creating it never satisfies the check |
| Utils.CreatorsSatisfyChecks | scripts/utils.py:79-171 | the README, `__init__.py`, main-module and pyproject creators each make their own existence check true |
| Utils.DepsText | scripts/utils.py:278-291 | the dependencies entry is inline `[]` when empty, else an opening line, one quoted line per dependency and `]` |
| Utils.PyprojectLayout | scripts/utils.py:226-295 | the written `pyproject.toml` is the `[project]` header, then name, description, version, license and authors lines with the defaults filled in, then the dependency lines |
| Utils.CreateReadme | scripts/utils.py:91-106 | writes `README.md` of the folder with the title and description |
| Utils.CreateInitPy | scripts/utils.py:120-138 | writes the `__init__.py` stub |
| Utils.CreateMainPy | scripts/utils.py:153-171 | writes `<name>.py` with its docstring |
| Utils.CreateTestsDirectory | scripts/utils.py:174-189 | `tests/` exists afterwards, and nothing else changes |
| Utils.CreateTestFile | scripts/utils.py:205-210 | writes `tests/test_<name>.py` |
| Utils.WritePyprojectFile | scripts/utils.py:226-295 | writes `pyproject.toml` with the text of `PyprojectText` |
| Utils.ReadPyprojectMetadata | scripts/utils.py:300-317 | no file gives `None`; the loader raises iff the file has a TOML syntax error or is a directory; a table is returned iff the file loads into a mapping with a `project` key, and it is that key's value |
| Utils.ValidateContribMetadata | scripts/utils.py:362-386 | no `[project]` table fails as a missing file; passes iff the table holds all five required fields; a failure lists fields of the five, in order |
| Utils.WrittenTableLacksContact | scripts/utils.py:57 | a table with exactly the keys `write_pyproject_file` writes is rejected, missing `contact` alone |
| Utils.RemoveOrphans | scripts/utils.py:351-354 | removing the orphan doc folders one by one leaves `Pruned` of the old state |
| Utils.SyncContribDocs | scripts/utils.py:336-359 | deletes exactly the doc folders with no contribution, returns the contributions with no doc folder, and changes nothing else |
| Utils.SyncLeavesCommonNames | scripts/utils.py:336-359 | afterwards the doc folders left are exactly the names present in both trees |
| Docs.RFind | scripts/generate_contrib_docs.py:41 | the index of the last occurrence of the character, or -1 when it does not occur |
| Docs.ModuleNameOfPy | scripts/generate_contrib_docs.py:40-41 | `os.path.splitext` of a `.py` file drops the suffix, unless only dots precede it |
| Docs.DotPyKeepsItsName | scripts/generate_contrib_docs.py:40-41 | a file called `.py` is a module named `.py` |
| Docs.ModuleNames | scripts/generate_contrib_docs.py:38-42 | the modules documented are the names of the `.py` entries other than `__init__.py`, in listing order |
| Docs.InitHasNoPage | scripts/generate_contrib_docs.py:40 | `__init__` never gets a page |
| Docs.WritePagesEffect | scripts/generate_contrib_docs.py:39-49 | every module gets its page with its own text; no directory and no other file changes |
| Docs.PagePathInjective | scripts/generate_contrib_docs.py:45 | different modules get different page paths |
| Docs.ReadmeNotAPage | scripts/generate_contrib_docs.py:45 | only a module named `README` has its page where the README goes |
| Docs.Links | scripts/generate_contrib_docs.py:90-91 | one link per module, in order |
| Docs.LinksMatchPages | scripts/generate_contrib_docs.py:90-91 | the README links a module exactly when its page was written, and that page holds the module's text |
| GenerateContribDocs.AuthorNames | scripts/generate_contrib_docs.py:79-81 | the join raises iff some dict item's name is not a string; every dict item's name is joined and nothing else |
| GenerateContribDocs.AuthorNamesAppend | scripts/generate_contrib_docs.py:79-81 | an item added at the end adds its name at the end if it is a dict and nothing otherwise: the names follow the list's order, repeats included |
| GenerateContribDocs.Rows | scripts/generate_contrib_docs.py:75-83 | the table raises iff some entry's cell cannot be formatted |
| GenerateContribDocs.RowsAppend | scripts/generate_contrib_docs.py:77-83 | an entry added at the end adds its key-and-value row at the end, unless a cell raised: one row per entry, in dict order, and on a raise the rows before it |
| GenerateContribDocs.ReadmeOutput | scripts/generate_contrib_docs.py:53-93 | raises iff the truthy `[project]` value is not a table or has a bad cell; otherwise the README ends with the rule and the module links |
| GenerateContribDocs.ReadmeTable | scripts/generate_contrib_docs.py:68-91 | with a truthy table the README is title, badges, table head and rows, then the rule and links unless a cell raised; a truthy non-table leaves title and table head only |
| GenerateContribDocs.ReadmeShape | scripts/generate_contrib_docs.py:53-93 | every README starts with the title and badges; without a truthy table the fallback line follows them |
| GenerateContribDocs.GeneratePythonFileDocs | scripts/generate_contrib_docs.py:26-50 | returns the module names in listing order and leaves `WritePages` of the old state |
| GenerateContribDocs.GenerateMarkdownForContrib | scripts/generate_contrib_docs.py:96-125 | for any `contrib_dir` and `docs_dir`, the state and the exception are those of `Generated`: nothing without the folder; otherwise makedirs, the pyproject read, the pages, then the README |
| GenerateContribDocs.DefaultFallback | scripts/generate_contrib_docs.py:85 | with the default `contrib_dir` the fallback line names `contrib/<name>` |
| GenerateContribDocs.Run | scripts/generate_contrib_docs.py:128-135 | a wrong argument count exits 1 and changes nothing; otherwise it generates with the default `contrib` and `docs/contrib` folders, with exit status 1 on an exception (as if the import at line 23 succeeded) |
| GenerateContribDocs.CompletedReadme | scripts/generate_contrib_docs.py:96-125 | a completed generation wrote the pages, then the README over them |
| GenerateContribDocs.EveryModuleHasPage | scripts/generate_contrib_docs.py:96-125 | after a completed generation, every module file other than `README.py` has its page with its text |
| GenerateContribDocs.ReadmeLinksEveryModule | scripts/generate_contrib_docs.py:90-91 | after a completed generation the README ends with a link to every module's page |
| ContribGenerateDocs.Section | contrib/scripts/generate_contrib_docs.py:50-66 | raises, having written nothing, exactly when `metadatas.yml` exists but cannot be read or parsed; otherwise the missing-file line, the table head and a row per entry, or the invalid-format line |
| ContribGenerateDocs.PlainRowsAppend | contrib/scripts/generate_contrib_docs.py:59-60 | an entry added at the end of the dict adds its row at the end |
| ContribGenerateDocs.SameRowsWithoutAuthors | contrib/scripts/generate_contrib_docs.py:59-60 | without an `authors` list both generators write the same rows, and none raises |
| ContribGenerateDocs.GenerateMarkdownForContrib | contrib/scripts/generate_contrib_docs.py:21-81 | the state and the exception are those of `Generated` |
| ContribGenerateDocs.Run | contrib/scripts/generate_contrib_docs.py:83-89 | a wrong argument count exits 1 and changes nothing; otherwise it generates, with exit status 1 on an exception |
| ContribGenerateDocs.WritePagesAndLinks | contrib/scripts/generate_contrib_docs.py:68-79 | the loop writes `WritePages` of the module names and collects exactly their links |
| ContribGenerateDocs.RaisesOnBadMetadata | contrib/scripts/generate_contrib_docs.py:32-66 | the run raises exactly when the contribution exists and its metadata cannot be read or parsed; the README then holds only the title |
| ContribGenerateDocs.CompletedWritesPagesThenReadme | contrib/scripts/generate_contrib_docs.py:42-81 | a completed run writes every module page, then a README holding the title and badges, the section, the rule and the links to exactly those pages |
| CreateDoc.Strings | scripts/create-doc.py:24 | a list joins only when every element is a string, and then element by element |
| CreateDoc.JoinDependencies | scripts/create-doc.py:24 | `', '.join` fails exactly on values other than a string, a dict or a list of strings |
| CreateDoc.TitleWrite | scripts/create-doc.py:19 | the title line raises iff `name` or `version` is missing |
| CreateDoc.FieldWrite | scripts/create-doc.py:20-23 | a field line raises iff its key is missing |
| CreateDoc.DependenciesWrite | scripts/create-doc.py:24 | the dependencies line raises iff the key is missing or its value cannot be joined |
| CreateDoc.RenderMeaning | scripts/create-doc.py:19-25 | the writes raise iff one raises; the text is then that of the writes before it, otherwise that of all of them |
| CreateDoc.MissingKeyFails | scripts/create-doc.py:19-24 | a missing key makes some write raise |
| CreateDoc.FailureHasCause | scripts/create-doc.py:19-24 | a write that raises has a missing key or unjoinable dependencies as its cause |
| CreateDoc.SectionRaises | scripts/create-doc.py:17-25 | a section raises iff the document is not a dict, lacks one of the seven keys, or has dependencies `join` rejects |
| CreateDoc.SectionLayout | scripts/create-doc.py:19-25 | a complete section is the title line, the description, date, contact, license and dependencies lines, and the rule, each followed by a blank line |
| CreateDoc.DependencyListJoin | scripts/create-doc.py:24 | every list of names is written as the names joined by `, `, in order |
| CreateDoc.DependencyStringJoin | scripts/create-doc.py:24 | every string is written character by character with `, ` between consecutive characters, and an empty one as nothing |
| CreateDoc.DependencyListExample | tests/test_generate_contrib_docs.py:80 | the test's example: `[dependency1, dependency2]` is written `dependency1, dependency2` |
| CreateDoc.DependencyStringExample | scripts/create-doc.py:24 | two examples: `""` is written as nothing and `"ab"` as `a, b` |
| CreateDoc.GenerateContribDocs | scripts/create-doc.py:4-25 | `contributions-list.md` holds the header, then whatever `Contributions` wrote before the run ended |
| CreateDoc.EmitSections | scripts/create-doc.py:11-25 | the loop appends each directory's section until one raises, as `Emit` defines it |
| CreateDoc.StopsAfterRaise | scripts/create-doc.py:11-25 | once a folder raised, the folders after it change nothing |
| CreateDoc.RaiseEnds | scripts/create-doc.py:11-25 | a raise at one listing entry fixes the output, whatever entries follow |
| CreateDoc.EmitKeepsHeader | scripts/create-doc.py:8-9 | whatever happens, the file opens with the header |
| CreateDoc.EmitMeaning | scripts/create-doc.py:11-25 | raises iff some folder's section does; otherwise the file is the header and every section, in order |
| CreateDoc.ContributionsMeaning | scripts/create-doc.py:11-14 | non-directory entries are skipped: the same holds over the directory entries in listing order |
| ManageContribList.LinkLines | scripts/manage_contrib_list.py:88 | one link line per entry, in order |
| ManageContribList.IndexEntries | scripts/manage_contrib_list.py:85-88 | the names linked are exactly those whose `README.md` exists, in order; an ascending input stays ascending |
| ManageContribList.LinkLineInjective | scripts/manage_contrib_list.py:88 | different names give different link lines |
| ManageContribList.LinkListed | scripts/manage_contrib_list.py:88 | a name's link is a line of the index exactly when the name is an entry |
| ManageContribList.IndexLines | scripts/manage_contrib_list.py:83-88 | the index reads back as its header, a blank line and the link lines |
| ManageContribList.SyncContribDocs | scripts/manage_contrib_list.py:56-90 | orphans pruned, the undocumented contributions reported, `docs/contrib` made, and the index written over the sorted common names |
| ManageContribList.WriteIndex | scripts/manage_contrib_list.py:83-88 | writes the header and a link for each name whose README exists |
| ManageContribList.IndexLinksCommonDocumented | scripts/manage_contrib_list.py:56-90 | a contribution is linked iff it has a folder in both trees and a README in docs; the links ascend, each once |
| ManageContribList.EmptyIndex | scripts/manage_contrib_list.py:84 | without contributions the index is its header alone |
| CreateFiles.FilledDirs | contrib/scripts/create_metadatas.py:38-57 | a run creates and removes no directory |
| CreateFiles.FilledKeys | contrib/scripts/create_metadatas.py:38-57 | a run creates exactly one file per directory entry that lacks it |
| CreateFiles.FilledKeeps | contrib/scripts/create_metadatas.py:43 | no existing file is changed |
| CreateFiles.FilledWrites | contrib/scripts/create_metadatas.py:44-53 | every folder that lacked the file gets the template for its name |
| CreateFiles.FilledCovers | contrib/scripts/create_readme.py:30-41 | afterwards every directory entry has the file |
| CreateFiles.FilledNothingToDo | contrib/scripts/create_readme.py:36 | a run over folders that all have the file changes nothing |
| CreateFiles.FilledIdempotent | contrib/scripts/create_metadatas.py:38-57 | a second run changes nothing |
| CreateFiles.FillMissing | contrib/scripts/create_metadatas.py:38-57 | raises iff `contrib` is not a directory, changing nothing; otherwise leaves `Filled` of the old state |
| CreateFiles.CreateMetadataFiles | contrib/scripts/create_metadatas.py:12-57 | the metadata scaffolder as `FillMissing` |
| CreateFiles.CreateReadmeFiles | contrib/scripts/create_readme.py:11-41 | the README scaffolder as `FillMissing` |
| CreateFiles.CreatedMetadataValidates | contrib/scripts/create_metadatas.py:44-53 | a folder given the template passes the YAML validators |
| CreateFiles.CreatedReadmeIsHeading | contrib/scripts/create_readme.py:38 | a created README is exactly `# <folder>` and a newline |
| FixContribs.FixFolderTasks | scripts/fix_contribs.py:69-89 | the state and the exception are those of `FixFolder` |
| FixContribs.CreateFilesForContribs | scripts/fix_contribs.py:43-89 | nothing without `contrib`; otherwise `FixAll` over the folders, in a set order that visits each one once |
| FixContribs.FixFolderFrame | scripts/fix_contribs.py:69-89 | a folder's tasks change nothing outside the folder |
| FixContribs.TestsDirKeeps | scripts/fix_contribs.py:72 | making `tests/` changes no other entry of the folder |
| FixContribs.TestsDirKeepsChecks | scripts/fix_contribs.py:72-82 | making `tests/` does not change what the checks that raise find |
| FixContribs.FixFolderRaises | scripts/fix_contribs.py:75-82 | a folder's tasks raise iff it lacks `pyproject.toml`, `README.md` or `__init__.py` |
| FixContribs.FixFolderKeeps | scripts/fix_contribs.py:69-89 | every existing file is unchanged except the test module under `tests/` |
| FixContribs.FixFolderCompletes | scripts/fix_contribs.py:69-89 | without an exception the folder has `tests/`, its main module and its conftest |
| FixContribs.FixFolderRewritesTest | scripts/fix_contribs.py:80 | without `test_<n>.py` in the folder, the module under `tests/` is written afresh |
| FixContribs.FixAllGrows | scripts/fix_contribs.py:68-89 | no file or directory disappears |
| FixContribs.FixAllFrame | scripts/fix_contribs.py:68-89 | paths outside the folders visited are untouched |
| FixContribs.FixAllRaises | scripts/fix_contribs.py:68-89 | the run raises iff some visited folder lacks one of the three files at the start |
| FixContribs.FixAllKeepsChecks | scripts/fix_contribs.py:68-89 | in a folder not yet visited, the checks see what they saw at the start |
| FixContribs.FixAllCompletes | scripts/fix_contribs.py:68-89 | a run without exception leaves every visited folder with `tests/`, its main module and conftest, and changes no existing file except the modules under `tests/` |
| InitContrib.IsValidContributionName | scripts/init_contrib.py:11-23 | valid iff non-empty and made only of `a-z`, `0-9` and `_` |
| InitContrib.AcceptedNames | tests/test_init.py:39-42 | `valid_name123` and `valid_name` are accepted |
| InitContrib.RejectedNames | tests/test_init.py:39-42 | `Invalid-Name` and `invalid name` are rejected |
| InitContrib.StripStart | scripts/init_contrib.py:79 | a suffix of the input with only whitespace cut, not starting with whitespace |
| InitContrib.StripEnd | scripts/init_contrib.py:79 | a prefix of the input with only whitespace cut, not ending with whitespace |
| InitContrib.StripSlice | scripts/init_contrib.py:79 | `strip()` is a slice with only whitespace cut on either side, and neither starts nor ends with whitespace |
| InitContrib.StripFixed | scripts/init_contrib.py:79 | a string without surrounding whitespace is its own strip; stripping twice changes nothing |
| InitContrib.ValidNameUnstripped | scripts/init_contrib.py:79-86 | a valid name is its own strip |
| InitContrib.YamlDoc | scripts/init_contrib.py:46-59 | the template loads into a mapping with the template's keys, in order |
| InitContrib.MetadataComplete | scripts/init_contrib.py:46-59 | the template holds all six required fields, whatever the name and date |
| InitContrib.CreateContribution | scripts/init_contrib.py:26-65 | the new state is `Created` of the old one |
| InitContrib.CreatedLayout | scripts/init_contrib.py:26-65 | the folder exists and holds the README, metadata and `__init__.py` templates; every other file is as it was |
| InitContrib.CreatedValidates | scripts/init_contrib.py:46-59 | the new contribution passes the YAML validators |
| InitContrib.InitMain | scripts/init_contrib.py:68-88 | the state and status are those of `Initialized` |
| InitContrib.InitOutcome | scripts/init_contrib.py:68-88 | succeeds iff there is one argument whose strip is a valid name; a failing run changes nothing; a valid name is used as given |

## Left out

- The YAML and TOML parsers are not part of this model. They are a parameter `string -> Parse`. `CreatedValidates` and `CreatedMetadataValidates` assume a loader that reads each `key: "value"` line of the template back as that string (`ReadsQuoted`).
- `print` output and the messages of the scripts are not modelled.
- `datetime.now()` is a `date` parameter, and `os.listdir` results are listing parameters. Whether a listing is true of the filesystem is stated by `Files.Lists`, where a property needs it.
- Files.ListDirectories: a root that exists as a file makes `os.listdir` raise. The model returns the listing's directory entries instead.
- Writes into a missing parent directory, or over a directory, raise in Python. `Files.Written` simply records the file. `MadeDirs` over an existing file is likewise not an error in the model.
- The text of a file is written once, as a whole. Interleavings with other processes, and the order of writes before the file is closed, are not modelled; a run that raises keeps what was written so far.
- Strings are sequences of code points. Python's `str.isspace` is the list of whitespace code points in `InitContrib.Whitespace`. File encodings and Unicode normalisation are not modelled.
- `repr` of keys that are not strings, and YAML dates and floats, are not modelled. Scalars are strings, integers, booleans and `None`.
- Names containing `/` are one path component in the model.
- The names `""`, `"."` and `".."` given on the command line are path aliases in Python (`contrib/`, `contrib` itself, the repository root), but each is a fresh component in the model. This affects GenerateContribDocs.GenerateMarkdownForContrib and GenerateContribDocs.Run, ContribGenerateDocs.GenerateMarkdownForContrib and ContribGenerateDocs.Run, ValidateContribMetadatas.ValidateContribMetadatas and ValidateContribMetadatas.ExitStatus, and Utils.ValidateContribMetadata. For these names their contracts describe a folder of that name, not the folder Python reaches. Listings never hold these names, so the loops over them are unaffected.
- Values.StrRepr: code points above U+00FF that `str.isprintable` rejects are written as they are, not as `\x`, `\u` or `\U` escapes, because the Unicode character database is not part of this model.
- GenerateContribDocs.Run: `scripts/generate_contrib_docs.py` imports `read_pyproject_metadata` from the `scripts` package (line 23), whose `__init__.py` does not define it, so importing or running the module as written raises `ImportError` before any argument is read. The model describes the run that the rest of the file intends, with the reader of `utils.py`.
- Docs.ReadmeNotAPage: a module named `README` has its page overwritten by the README. The model shows this but does not treat it as an error.
- fix_contribs.py imports `conftest_file_exists` and `create_conftest_file` from `utils.py`, which does not define them. The import itself fails. The model takes them as a check for `conftest.py` and a writer of a parameter text.
- The `main()` of `validate_contrib.py` (lines 73-82) calls `validate_all_contributions`, which that module does not define, so it always raises. It is not modelled.
- The test modules' fixtures and their imports of names the scripts do not define are not modelled. Only their assertions on name validation and batch validation are stated as lemmas.
