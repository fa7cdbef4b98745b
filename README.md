# cassie-git-module, modelled in Dafny

cassie-git-module is a C# library that drives the `git` command line and reads
what git prints back into records. This project models the part of it that
makes decisions, that is the parsers and the small data structures, and proves
what they guarantee.

- **Unified-diff parser** (`diff_parser.dfy`, `diff_parser_facts.dfy`, `diffs.dfy`).
  - `DiffParser` is a class over a `FileResult`, which holds the lines and a cursor. Its methods `Parse`, `parseFileHeader` and `parseSection` keep their loops.
  - Each method is proved equal to a function that describes its loop.
  - About those functions it is proved that the parsed diff is well formed:
    - section counts equal the numbers of added and deleted lines;
    - lines are numbered from the hunk header;
    - file counts are the sums over the sections;
    - there are never more than `maxFiles` files;
    - an incomplete file makes the diff incomplete;
    - the totals are the sums over the files whenever the text starts with a header.
  - `DiffSection.Line`, the lookup of an added or deleted line by number, is proved against an independent definition.
- **Plumbing parsers of Repository**:
  - `parseCommit` and `parseTag` (`object_parsing*.dfy`);
  - `parseTree` and the order `LsTree` gives its entries (`tree_parsing.dfy`, `tree_order.dfy`);
  - the handlers of the standard output of `git show --name-status`, `git count-objects -v`, `git show-ref`, `git ls-remote` and `git tag --list`, and `RefShortName` (`output_handlers*.dfy`).
- **Object ids and signatures** (`sha1.dfy`, `signatures.dfy`):
  - the 20-byte id and its 40-character lowercase hexadecimal form, with both round trips;
  - `Signature.ParseSignature` with its epoch and long-date branches.
- **Tree entries** (`tree_entry.dfy`, `entry_collection.dfy`):
  - the mode predicates and the comparator;
  - `EntryCollection` as a class over a sequence, keyed on `UniqueId`, and its index-cursor `EntryEnumerator`.
- **Commit records** (`commits.dfy`, `commit_record.dfy`):
  - the parent accessors and the summary;
  - the `.gitmodules` scanner of `GetSubmodules`, with `git rev-parse` as a function parameter.
- **Small builders and mappings**:
  - `Command`'s argument and environment builder (`command.dfy`);
  - the enum name mappings (`object_type.dfy`, `repo_options.dfy`, `hook_names.dfy`, `archive_format.dfy`);
  - `TrimSuffix` (`extensions.dfy`) and `EscapePath` (`utils.dfy`).
- `text.dfy` models the .NET string operations this code relies on, with ordinal semantics. Its details:
  - Whitespace, for `Trim` and for `Regex.Split` on `\s+`, is the Unicode set of `Char.IsWhiteSpace`.
  - `Convert.ToInt32` and `Convert.ToInt64` accept only the ASCII blanks around a number.
  - `String.Length`, where the code compares it with a bound, counts UTF-16 code units.
  - Int32 arithmetic wraps around (`Wrap32`) where it is modelled: the diff line numbers, the offsets, targets and run counts of `DiffSection.Line`, and the enumerator's position. The section and diff counters listed under "## Left out" do not wrap.
- `base.dfy` holds `Option` for `null` and `Result` for exceptions.

C# `null` is `None`. A thrown exception is an `Err` of the kind the code throws. A C# enum is an `int` newtype, because any integer can be stored in one.

## Model

| member | source | states |
|---|---|---|
| ArchiveFormats.ToTypeString | cassie.git.module/commits/ArchiveFormat.cs:12-23 | ArchiveZip gives "zip", ArchiveTarGz gives "tar.gz", and "" comes back exactly for values outside the enum |
| ArchiveFormats.ArchiveNamesDiffer | cassie.git.module/commits/ArchiveFormat.cs:16-19 | the two declared formats have different names |
| HookNames.ToTypeString | cassie.git.module/hook/HookNames.cs:14-27 | each of the three hooks maps to its file name ("pre-receive", "update", "post-receive"), and "" comes back exactly for undeclared values |
| HookNames.ToTypeStringInjective | cassie.git.module/hook/HookNames.cs:16-27 | different declared hooks have different names |
| ObjectTypes.ToObjectType | cassie.git.module/ObjectType.cs:21-35 | the lookup is case-sensitive: it gives a kind exactly for "commit", "tree", "blob" and "tag", that kind's name is the input, and any other text gives null |
| ObjectTypes.ToTypeString | cassie.git.module/ObjectType.cs:40-55 | "" comes back exactly for values that are not one of the four kinds |
| ObjectTypes.ObjectTypeRoundTrip | cassie.git.module/ObjectType.cs:21-55 | reading a kind's name back gives the kind |
| ObjectTypes.ToTypeStringInjective | cassie.git.module/ObjectType.cs:40-55 | different kinds have different names |
| RepoOptions.ToRawDiffFormat | cassie.git.module/repo/RepoOptions.cs:300-310 | "diff" and "patch" give the two formats, whose names are the input; any other text gives null |
| RepoOptions.ToTypeString | cassie.git.module/repo/RepoOptions.cs:315-326 | "" comes back exactly for undeclared values |
| RepoOptions.RawDiffFormatRoundTrip | cassie.git.module/repo/RepoOptions.cs:300-326 | reading a format's name back gives the format |
| RepoOptions.RawDiffNamesDiffer | cassie.git.module/repo/RepoOptions.cs:315-326 | the two formats have different names |
| RepoOptions.NameStatus.constructor | cassie.git.module/repo/RepoOptions.cs:128-133 | the added, removed and modified lists start empty |
| RepoOptions.FsckOptions.constructor | cassie.git.module/repo/RepoOptions.cs:182-185 | the argument list starts empty |
| RepoOptions.ShowRefOptions.constructor | cassie.git.module/repo/RepoOptions.cs:384-387 | the pattern list starts empty, and the flags and timeout hold their defaults |
| RepoOptions.CountObject.constructor | cassie.git.module/repo/RepoOptions.cs:153-163 | all eight counters start at 0 |
| Utils.EscapePath | cassie.git.module/Utils.cs:84-89 | null stays null; the result never starts with ':'; a changed path is the input with one '\' in front |
| Utils.EscapePathIdempotent | cassie.git.module/Utils.cs:84-89 | escaping twice is the same as escaping once |
| Utils.EscapePathChanges | cassie.git.module/Utils.cs:86-88 | a path is changed exactly when it starts with ':' |
| Extensions.TrimSuffix | cassie.git.module/Extensions.cs:6-16 | if s ends with the suffix, the result followed by the suffix is s; otherwise the result is s |
| Extensions.TrimSuffixPrefix | cassie.git.module/Extensions.cs:8-15 | the result is always a prefix of s |
| Extensions.TrimSuffixAppended | cassie.git.module/Extensions.cs:8-11 | trimming the suffix from t + suffix gives t |
| Extensions.TrimSuffixEmpty | cassie.git.module/Extensions.cs:8-11 | an empty suffix leaves s unchanged |
| Extensions.TrimSuffixOnce | cassie.git.module/Extensions.cs:10 | only one copy goes ("a.git.git" gives "a.git"), so trimming is not idempotent |
| PlainCommits.Commit.constructor | cassie.git.module/Commit.cs:29-33 | a new commit has no parents and no message |
| PlainCommits.Commit.ParentsCount | cassie.git.module/Commit.cs:41-46 | the number of parents, 0 exactly for a root commit |
| PlainCommits.Commit.Summary | cassie.git.module/Commit.cs:36-39 | with a message, the result is its prefix up to the first '\n' (the whole message when it has none); a missing message throws |
| PlainCommits.Commit.ParentID | cassie.git.module/Commit.cs:50-58 | it succeeds exactly for 0 <= n < ParentsCount() and then gives Parents[n]; n >= ParentsCount() fails with the source's message; a negative n fails on the list index |
| PlainCommits.SummaryOfMessage | cassie.git.module/Commit.cs:36-39 | a message made of one line, a '\n' and more text has that line as its summary |
| Commands.Command.constructor | cassie.git.module/Command.cs:16-21 | the name is "git", the arguments are the given ones in order, and there is no environment entry |
| Commands.Command.AddArgs | cassie.git.module/Command.cs:29-33 | the arguments are followed by the new ones, in order; an empty array adds nothing; nothing else changes |
| Commands.Command.String | cassie.git.module/Command.cs:23-27 | when no part holds a blank, the command line splits on blanks back into the name and the arguments |
| Commands.Command.GetArgs | cassie.git.module/Command.cs:52-54 | the arguments, those String() shows after the name |
| Commands.Command.GetEnvs | cassie.git.module/Command.cs:56-58 | the environment entries added so far |
| Commands.Command.AddEnv | cassie.git.module/Command.cs:35-39 | a null or empty key or value changes nothing; otherwise the pair is added as Dictionary.Add does, and a key already present throws |
| Commands.Command.AddEnvs | cassie.git.module/Command.cs:41-50 | the loop adds the pairs in order and stops at the first key already present, as AddPairs describes |
| Commands.CommandLineSplits | cassie.git.module/Command.cs:23-27 | when no argument holds a blank, String() splits on blanks back into "git" and the arguments |
| Commands.CommandLineFixtures | cassie.git.module.test/CommnadTests.cs:14-17 | no arguments give "git", and the argument "version" gives "git version" |
| Commands.AddPairsSucceeds | cassie.git.module/Command.cs:41-50 | adding a dictionary succeeds exactly when none of its keys is present, and then the environment gains exactly its pairs |
| Commands.AddPairsFails | cassie.git.module/Command.cs:45-48 | when adding fails, some key of the dictionary was present, and the environment keeps the pairs added before it |
| Commands.AddEnvsFixture | cassie.git.module.test/CommnadTests.cs:34-45 | adding HOME and GIT_EDITOR after GIT_DIR gives the three entries of the test |
| Commits.FirstLine | cassie.git.module/commits/Commit.cs:36-39 | the first piece of the message split on '\n': a prefix of the message without '\n', followed in the message by '\n' unless it is the whole message |
| Commits.IdText | cassie.git.module/commits/Commit.cs:175 | the commit id's hex text, 40 characters; a null id throws |
| Commits.SubmoduleRegistry.constructor | cassie.git.module/commits/Commit.cs:27 | the shared submodule map starts empty |
| Commits.Commit.constructor | cassie.git.module/commits/Commit.cs:29-33 | a new commit has no parents, and constructing it replaces the map every commit shares with an empty one |
| Commits.Commit.ParentsCount | cassie.git.module/commits/Commit.cs:41-46 | the number of parents, 0 exactly for a root commit |
| Commits.Commit.Summary | cassie.git.module/commits/Commit.cs:36-39 | with a message, the result is its first line; a missing message throws |
| Commits.Commit.ParentID | cassie.git.module/commits/Commit.cs:50-58 | it succeeds exactly for 0 <= n < ParentsCount() and then gives Parents[n]; n >= ParentsCount() fails with the source's message; a negative n fails on the list index |
| Commits.Commit.Ancestors | cassie.git.module/commits/Commit.cs:107-114 | a commit with no parents has no ancestors; otherwise the answer is what git log reports |
| Commits.Commit.GetSubmodules | cassie.git.module/commits/Commit.cs:144-182 | a non-empty shared map is returned unchanged; with no ".gitmodules" entry a new empty map comes back and the shared map is untouched; otherwise the loop leaves in the shared map, and returns, what the scan of the file's lines gives, and a failing line's exception comes back with the entries added before it |
| Commits.Commit.GetSubmodule | cassie.git.module/commits/Commit.cs:185-190 | the shared map ends as GetSubmodules leaves it, and the call fails exactly when that scan fails; after the scan, an empty path gives null, and any other path gives its entry in the shared map, or null when it has none |
| Commits.FirstLineOf | cassie.git.module/commits/Commit.cs:36-39 | a line without '\n' is its own first line, and stays so when '\n' and more text follow |
| Commits.ScanKeepsEntries | cassie.git.module/commits/Commit.cs:176 | the map only grows: a path already present keeps its first submodule, since TryAdd never replaces |
| Commits.ScanKeysAreNames | cassie.git.module/commits/Commit.cs:170-176 | every submodule the scan adds is stored under its own name |
| Commits.ScanOutsideSections | cassie.git.module/commits/Commit.cs:156-162 | outside a section, lines with no "[submodule" line among them change nothing |
| Commits.ScanUrl | cassie.git.module/commits/Commit.cs:169-178 | inside a section, "url=U" adds a submodule for the pending path when the path is new, with URL U and the commit rev-parse reports, and closes the section |
| Commits.ScanPath | cassie.git.module/commits/Commit.cs:166-168 | inside a section, "path=P" sets the pending path to P and changes nothing else |
| Commits.ScanOneSection | cassie.git.module/commits/Commit.cs:154-181 | a file with one section holding "path=P" and "url=U" yields exactly one submodule, under P, with URL U and the commit rev-parse reports |
| TreeEntries.TreeEntry.CompareTo | cassie.git.module/tree/TreeEntry.cs:64-77 | the answer is always 1 or -1, never 0 |
| TreeEntries.ExactlyOneMode | cassie.git.module/tree/TreeEntry.cs:22-46 | each declared mode satisfies exactly one of the five predicates TreeEntry.IsTree, IsBlob, IsExec, IsSymlink and IsCommit |
| TreeEntries.ModeOrder | cassie.git.module/tree/TreeEntry.cs:82-89 | the enum holds the decimal values 40000 < 100644 < 100755 < 120000 < 160000 |
| TreeEntries.CompareDirectoryFirst | cassie.git.module/tree/TreeEntry.cs:66-69 | a tree or submodule compared with an entry that is neither answers 1 |
| TreeEntries.CompareByName | cassie.git.module/tree/TreeEntry.cs:75-76 | in every other case the answer is 1 exactly when this name sorts after the other's |
| TreeEntries.CompareSelf | cassie.git.module/tree/TreeEntry.cs:64-77 | an entry compared with itself answers -1, so no entry compares equal |
| TreeEntries.CompareNotAntisymmetric | cassie.git.module/tree/TreeEntry.cs:70-76 | a blob named "b" and a tree named "a" each compare as greater than the other, because the mirrored test is commented out |
| EntryCollections.FirstWithId | cassie.git.module/tree/EntryCollection.cs:110-131 | the position Remove deletes is the first entry carrying the item's UniqueId, with no match before it, or -1 when no entry carries it |
| EntryCollections.RemoveAt | cassie.git.module/tree/EntryCollection.cs:124 | removing one position shortens the list by exactly one |
| EntryCollections.EntryCollection.constructor | cassie.git.module/tree/EntryCollection.cs:15-18 | a new collection is empty and not read-only |
| EntryCollections.EntryCollection.Get | cassie.git.module/tree/EntryCollection.cs:25-30 | the getter succeeds exactly for an index inside the list and yields the entry there; outside it is ArgumentOutOfRange |
| EntryCollections.EntryCollection.Set | cassie.git.module/tree/EntryCollection.cs:31-34 | the setter succeeds exactly for an index inside the list and replaces that entry alone; outside it fails and the list is unchanged |
| EntryCollections.EntryCollection.Add | cassie.git.module/tree/EntryCollection.cs:59-62 | the entry is appended after the old entries |
| EntryCollections.EntryCollection.Clear | cassie.git.module/tree/EntryCollection.cs:64-67 | the list becomes empty |
| EntryCollections.EntryCollection.Val | cassie.git.module/tree/EntryCollection.cs:73-77 | the list becomes the given one |
| EntryCollections.EntryCollection.CopyTo | cassie.git.module/tree/EntryCollection.cs:99-102 | the collection is left unchanged |
| EntryCollections.EntryCollection.Contains | cassie.git.module/tree/EntryCollection.cs:79-94 | true exactly when some entry has the item's UniqueId |
| EntryCollections.EntryCollection.Remove | cassie.git.module/tree/EntryCollection.cs:110-131 | answers true exactly when some entry has the item's UniqueId, and then the list loses its first such entry and nothing else; otherwise the list is unchanged |
| EntryCollections.EntryCollection.GetEnumerator | cassie.git.module/tree/EntryCollection.cs:104-108 | a new enumerator over this collection, positioned before the first entry |
| EntryCollections.EntryEnumerator.Default | cassie.git.module/tree/EntryEnumerator.cs:22-25 | the parameterless enumerator has no collection, index 0 and no current entry |
| EntryCollections.EntryEnumerator.constructor | cassie.git.module/tree/EntryEnumerator.cs:31-36 | the enumerator is over the given collection, at index -1, with no current entry |
| EntryCollections.EntryEnumerator.Dispose | cassie.git.module/tree/EntryEnumerator.cs:71-76 | the collection is dropped, the index is -1 and there is no current entry |
| EntryCollections.EntryEnumerator.Reset | cassie.git.module/tree/EntryEnumerator.cs:103-107 | the index is -1 and there is no current entry; the collection is kept |
| EntryCollections.EntryEnumerator.MoveNext | cassie.git.module/tree/EntryEnumerator.cs:82-98 | the index always advances by one as an Int32, wrapping from Int32Max to Int32Min (then the indexer throws ArgumentOutOfRange); inside the list the answer is true and the current entry is the one at the new index; past the end the answer is false and the current entry is kept; a disposed enumerator throws NullReference |
| EntryCollections.FirstWithIdIs | cassie.git.module/tree/EntryCollection.cs:115-127 | a matching entry with no match before it is the one FirstWithId finds |
| EntryCollections.FirstWithIdNone | cassie.git.module/tree/EntryCollection.cs:115-130 | with no matching entry FirstWithId answers -1, so Remove answers false |
| EntryCollections.RemoveAtMultiset | cassie.git.module/tree/EntryCollection.cs:124 | removing an entry leaves exactly the other entries, as a multiset |
| EntryCollections.RemoveAtOrder | cassie.git.module/tree/EntryCollection.cs:124 | removal keeps the order: entries before the position stay, entries after it move up by one |
| TreeParsing.KindOf | cassie.git.module/repo/Repository.cs:133-155 | every mode names a declared object kind: a tree for the tree mode, a commit for the submodule mode, a blob otherwise |
| TreeParsing.ModeOf | cassie.git.module/repo/Repository.cs:133-157 | an accepted mode text gives a declared mode together with the kind that mode names; any other text is rejected |
| TreeParsing.ModeOfAccepts | cassie.git.module/repo/Repository.cs:133-157 | exactly the six texts 100644, 100664, 100755, 120000, 160000 and 040000 are accepted |
| TreeParsing.ModeTextRoundTrip | cassie.git.module/repo/Repository.cs:133-155 | the mode column git writes for each declared mode reads back as that mode with its kind |
| TreeParsing.TreeLine | cassie.git.module/repo/Repository.cs:129-162 | a line that reads gives a well-formed entry of the tree with the fresh UniqueId, split into exactly four fields at runs of Unicode whitespace (Char.IsWhiteSpace), named by the fourth; a line without four fields, or with a mode outside the table, throws the format error; a bad id throws NewIDFromString's error; the mode and kind are the table's entry for the first field and the id is NewIDFromString of the third |
| TreeParsing.ParseTree | cassie.git.module/repo/Repository.cs:122-165 | the loop computes the whole-text parse: empty lines skipped, each other line read with Unicode whitespace as the field separator, the first failing line ends it with its error |
| TreeParsing.ParseTreeLine | cassie.git.module/repo/Repository.cs:129-162 | the loop body for a non-empty line computes the line reading |
| TreeParsing.TreeLineOf | cassie.git.module/repo/Repository.cs:129-162 | round trip: a line as git writes it, with a name without whitespace, reads back as the entry it describes, whatever the kind column says |
| TreeParsing.NameWithBlankFails | cassie.git.module/repo/Repository.cs:129-132 | a line whose name holds a blank splits into five fields and throws |
| TreeParsing.TreeLineCorrected | cassie.git.module/repo/Repository.cs:129-162 | corrected reading, splitting the columns before the tab and taking the name whole after it; a line that reads gives a well-formed entry |
| TreeParsing.TreeLineCorrectedOf | cassie.git.module/repo/Repository.cs:129-162 | round trip of the corrected reading for any name without a tab, blanks included |
| TreeParsing.CorrectedAgreesOnWords | cassie.git.module/repo/Repository.cs:129-162 | on names without whitespace the corrected and the written readings agree |
| TreeParsing.TreeLinesOk | cassie.git.module/repo/Repository.cs:124-164 | the parse succeeds exactly when every non-empty line reads |
| TreeParsing.TreeLinesShape | cassie.git.module/repo/Repository.cs:124-164 | a successful parse keeps the entries it started with and adds one well-formed entry per non-empty line, named by that line's fourth field, in order |
| TreeParsing.TreeLinesDistinct | cassie.git.module/repo/Repository.cs:130 | with a Guid source that never repeats, the added entries have pairwise distinct UniqueIds |
| TreeParsing.ParseTreeFacts | cassie.git.module/repo/Repository.cs:122-165 | for a whole listing, the entries are well-formed, named by the lines' name fields in order, with distinct UniqueIds |
| TreeOrder.Insert | cassie.git.module/repo/Repository.cs:1159 | one insertion step of the stable sort adds exactly the new entry to the list, as a multiset |
| TreeOrder.OrderBy | cassie.git.module/repo/Repository.cs:1159 | ordering by a key is a permutation of its input |
| TreeOrder.Keep | cassie.git.module/repo/Repository.cs:1159 | the entries of one mode taken from a list all come from it, have that mode, and are no more than the list |
| TreeOrder.LsTree | cassie.git.module/repo/Repository.cs:1145-1161 | a listing that succeeds had no error output, and its tree id is the resolved revision read as an id |
| TreeOrder.BeforeOrder | cassie.git.module/repo/Repository.cs:1159 | both sort keys (ordinal name, numeric mode) are irreflexive, asymmetric, and their complement is transitive |
| TreeOrder.InsertSorted | cassie.git.module/repo/Repository.cs:1159 | inserting into a sorted list keeps it sorted |
| TreeOrder.OrderBySorted | cassie.git.module/repo/Repository.cs:1159 | ordering by a key gives a list sorted by that key |
| TreeOrder.KeepInsert | cassie.git.module/repo/Repository.cs:1159 | inserting by mode into a list sorted by mode places the new entry before the entries of its own mode, keeping their order |
| TreeOrder.KeepOrderBy | cassie.git.module/repo/Repository.cs:1159 | stability: ordering by mode leaves the entries of each mode in their input order |
| TreeOrder.KeepSorted | cassie.git.module/repo/Repository.cs:1159 | the entries of one mode of a list sorted by name are sorted by name |
| TreeOrder.LsTreeOrder | cassie.git.module/repo/Repository.cs:1151-1160 | the listed entries are a permutation of the parsed ones, sorted by mode, and within each mode sorted by name |
| TreeOrder.TreesFirst | cassie.git.module/repo/Repository.cs:1159 | no entry of another mode precedes a tree entry in the listing |
| OutputHandlers.Collected | cassie.git.module/Command.cs:125-128 | with a split character the collected text has at least one character per line |
| OutputHandlersFacts.CollectedJoin | cassie.git.module/Command.cs:125-128 | the collected text is the lines joined by the split character, with one more after the last line |
| OutputHandlersFacts.CollectedSplit | cassie.git.module/Command.cs:125-128 | splitting the collected text at a separator the lines lack gives the lines back plus one empty last piece |
| OutputHandlersFacts.CollectedEmpty | cassie.git.module/Command.cs:125-128 | without a split character the collected text is empty exactly when every line is |
| OutputHandlers.RefShortName | cassie.git.module/repo/Repository.cs:814-819 | a name under refs/heads/ is returned without that prefix, otherwise a name under refs/tags/ without that one, and any other name unchanged |
| OutputHandlersFacts.BranchShortName | cassie.git.module/repo/Repository.cs:816 | a branch's short name is its name under refs/heads/ |
| OutputHandlersFacts.TagShortName | cassie.git.module/repo/Repository.cs:817 | a tag's short name is its name under refs/tags/ |
| OutputHandlersFacts.ShortNameStripsOnce | cassie.git.module/repo/Repository.cs:816-817 | only one prefix is stripped: refs/heads/ followed by refs/tags/ keeps the second prefix |
| OutputHandlersFacts.RemoteRefUnchanged | cassie.git.module/repo/Repository.cs:818 | a remote-tracking reference is returned unchanged |
| OutputHandlers.ReceiveNameStatus | cassie.git.module/repo/Repository.cs:351-368 | the handler trims the line of Unicode whitespace, then appends its path to the list its status letter names and leaves the other two lists unchanged |
| OutputHandlers.ShowNameStatus | cassie.git.module/repo/Repository.cs:345-374 | error output fails with that text; no output at all fails with StdOut can not be null; otherwise each list holds the paths of its kind in line order, each line trimmed of Unicode whitespace |
| OutputHandlersFacts.ChangeOfStatusLine | cassie.git.module/repo/Repository.cs:353-366 | a status line (letter, tab, path) is read back as that change |
| OutputHandlersFacts.ChangeOfShape | cassie.git.module/repo/Repository.cs:353-366 | a line is read as a change only when it starts with that change's letter and a tab, and the path holds no tab |
| OutputHandlersFacts.ChangeOfPieces | cassie.git.module/repo/Repository.cs:353-356 | a line read as a change starts with a non-blank letter, and its first two tab-separated pieces are that letter and the path |
| OutputHandlersFacts.NameStatusRoundTrip | cassie.git.module/repo/Repository.cs:351-368 | reading the status lines of a list of changes sorts each path into the list of its kind, keeping order |
| OutputHandlers.Wrap64 | cassie.git.module/repo/Repository.cs:403 | the 64-bit product always lies in the 64-bit range and equals the true product when that fits |
| OutputHandlers.FieldOfLine | cassie.git.module/repo/Repository.cs:402-409 | the field found for a line is one whose prefix the line starts with |
| OutputHandlersFacts.FieldOfLineComplete | cassie.git.module/repo/Repository.cs:402-409 | a line that starts with a field's prefix sets that field and no other, so the eight tests act as one dispatch |
| OutputHandlers.Reading | cassie.git.module/repo/Repository.cs:402-409 | a stored value always lies in the 64-bit range |
| OutputHandlers.ReceiveCountLine | cassie.git.module/repo/Repository.cs:400-410 | the handler changes the fields exactly as one report line prescribes, or fails with the conversion error |
| OutputHandlers.SetCountField | cassie.git.module/repo/Repository.cs:402-409 | one field is overwritten and the other seven are unchanged |
| OutputHandlers.CountObjects | cassie.git.module/repo/Repository.cs:394-415 | the first bad number makes the handler throw, returned here as the call's error; then error output fails the call; otherwise the fields are those the report lines prescribe, starting from all zero |
| OutputHandlers.CountLinesFailFrom | cassie.git.module/repo/Repository.cs:400-412 | once a line fails, the whole report fails with that error |
| OutputHandlersFacts.CountLineReads | cassie.git.module/repo/Repository.cs:402-409 | a report line stores its number in its field, sizes times 1024 in 64-bit arithmetic, and exactly when the product fits |
| OutputHandlersFacts.SizeWraps | cassie.git.module/repo/Repository.cs:403 | a size of 2^53 KiB or more wraps to a negative byte count |
| OutputHandlersFacts.BadNumberFails | cassie.git.module/repo/Repository.cs:402-409 | for a prefix followed by text that is not a 64-bit number, the handler throws the conversion's error |
| OutputHandlersFacts.CountReport | cassie.git.module/repo/Repository.cs:400-410 | reading a whole report stores every reported number, a later line for a field overriding an earlier one |
| OutputHandlers.ListReferences | cassie.git.module/repo/Repository.cs:921-934 | error output fails the call; otherwise the references are those of the output's lines with at least two fields split at runs of Unicode whitespace, the first and the last field, in order |
| OutputHandlersFacts.ReferenceOfLine | cassie.git.module/repo/Repository.cs:926-932 | a reference's line is read back as that reference |
| OutputHandlersFacts.LeadingBlankEmptiesId | cassie.git.module/repo/Repository.cs:926-930 | whitespace before the id leaves an empty first field, and the reference gets an empty id |
| OutputHandlersFacts.ReferencesOfLines | cassie.git.module/repo/Repository.cs:924-933 | the lines of a list of references read back as that list |
| OutputHandlersFacts.ReferencesRoundTrip | cassie.git.module/repo/Repository.cs:970-984 | the output of show-ref or ls-remote, collected with line breaks, reads back as exactly its references |
| OutputHandlers.InsertDescending | cassie.git.module/repo/Repository.cs:1111 | one insertion step adds exactly the new tag, as a multiset |
| OutputHandlers.SortDescending | cassie.git.module/repo/Repository.cs:1111 | the descending order is a permutation of its input |
| OutputHandlersFacts.InsertDescendingSorted | cassie.git.module/repo/Repository.cs:1111 | inserting into a descending list keeps it descending |
| OutputHandlersFacts.SortDescendingSorted | cassie.git.module/repo/Repository.cs:1111 | the result is ordered from the greatest tag down |
| OutputHandlers.Tags | cassie.git.module/repo/Repository.cs:1106-1112 | the call fails exactly when there is error output |
| OutputHandlersFacts.TagsOrder | cassie.git.module/repo/Repository.cs:1108-1112 | the tags are the pieces before the last line break, as a multiset, greatest first |
| OutputHandlersFacts.TagsOfLines | cassie.git.module/repo/Repository.cs:1106-1112 | the output of git tag --list, collected with line breaks, reads back as exactly its lines, greatest first |
| Sha1.HexDigitsTable | cassie.git.module/SHA1.cs:37 | the digit table holds the sixteen lowercase hexadecimal digits in order |
| Sha1.HexString | cassie.git.module/SHA1.cs:39-43 | the hex form has two characters per byte |
| Sha1.HexStringAt | cassie.git.module/SHA1.cs:41-42 | character 2k of the hex form is the high nibble of byte k and character 2k+1 its low nibble |
| Sha1.HexStringLowerHex | cassie.git.module/SHA1.cs:34-46 | the hex form consists of lowercase hexadecimal digits only |
| Sha1.HexValue | cassie.git.module/SHA1.cs:88 | a hexadecimal digit of either case has a value below 16, and a lowercase digit is the table entry for its value |
| Sha1.ToByteHex | cassie.git.module/SHA1.cs:88 | converting a two-character pair succeeds exactly when the second character is a hex digit and the first is a hex digit or a plus sign |
| Sha1.ToByteHexPair | cassie.git.module/SHA1.cs:88 | the two-digit form of a byte converts back to that byte |
| Sha1.ToByteHexLower | cassie.git.module/SHA1.cs:88 | two lowercase digits convert to the byte whose two-digit form they are |
| Sha1.StringToByteArray | cassie.git.module/SHA1.cs:84-90 | a successful conversion gives one byte per two characters |
| Sha1.StringToByteArrayHex | cassie.git.module/SHA1.cs:84-90 | the hex form of any byte string converts back to it |
| Sha1.HexStringOfBytes | cassie.git.module/SHA1.cs:84-90 | a lowercase hex string of even length converts, and is the hex form of what it converts to |
| Sha1.StringToByteArrayRejects | cassie.git.module/SHA1.cs:84-90 | text holding a character that is neither a hex digit nor a plus sign never converts |
| Sha1.SHA1.String | cassie.git.module/SHA1.cs:34-46 | the loop builds the hex form of the first 20 bytes: 40 lowercase hex digits |
| Sha1.SHA1.EqualString | cassie.git.module/SHA1.cs:19-22 | true exactly when the hex form equals the text |
| Sha1.SHA1.EqualBytes | cassie.git.module/SHA1.cs:24-27 | true exactly when both arrays have the same length and agree at every position |
| Sha1.SHA1.EqualId | cassie.git.module/SHA1.cs:29-32 | element-wise comparison of the two ids' bytes, the same in either direction |
| Sha1.CopyId | cassie.git.module/SHA1.cs:50-59 | an id is made exactly when there are at least 20 bytes, and holds the first 20 |
| Sha1.MustID | cassie.git.module/SHA1.cs:50-59 | the copying loop succeeds exactly when there are at least 20 bytes, keeping the first 20; fewer throw IndexOutOfRange |
| Sha1.NewID | cassie.git.module/SHA1.cs:61-67 | an id is made exactly from 20 bytes, and holds them; any other length throws LengthNotMatch |
| Sha1.MustIDFromString | cassie.git.module/SHA1.cs:69-73 | a successful conversion came from at least 40 characters and holds 20 bytes |
| Sha1.NewIDFromString | cassie.git.module/SHA1.cs:75-82 | text that, trimmed of Unicode whitespace, is not 40 UTF-16 code units long throws LengthNotMatch; a successful conversion holds 20 bytes |
| Sha1.NewIDFromStringHex | cassie.git.module/SHA1.cs:75-82 | round trip: the hex form of a 20-byte id reads back as that id |
| Sha1.MustIDFromStringHex | cassie.git.module/SHA1.cs:69-73 | round trip: a 40-character lowercase hex string is the hex form of the id it converts to |
| Sha1.NonZeroIsNotEmpty | cassie.git.module/SHA1.cs:15 | an id with a non-zero byte never has the hex form EmptyID |
| Sha1.FixtureIds | cassie.git.module.test/SHA1Tests.cs:10-33 | the fixture id converts, and its hex form differs from EmptyID |
| Sha1.SixBytesRejected | cassie.git.module.test/SHA1Tests.cs:36-39 | six bytes make no id: NewID throws LengthNotMatch |
| Signatures.UnixTimeStampToDateTime | cassie.git.module/Utils.cs:42-48 | seconds outside the DateTime range throw ArgumentOutOfRange; any other value is the clock's local time for them |
| Signatures.Delimit | cassie.git.module/Signature.cs:29-35 | when the delimiters are where the source expects them, the time text is not empty |
| Signatures.ParseSignature | cassie.git.module/Signature.cs:27-63 | a line whose delimiters are out of place throws the delimiter error; a parsed signature's name and email are the delimited parts, the line starts with the name, the name holds neither bracket and the email no '>' |
| Signatures.EqualsIsEquality | cassie.git.module/Signature.cs:21-26 | Equals is false for null and otherwise holds exactly when name, email and time agree |
| Signatures.DelimitFields | cassie.git.module/Signature.cs:29-35 | a delimited line is the name, one character, the email between the first angle brackets, one more character and the time text; the name holds neither bracket and the email no closing bracket |
| Signatures.DelimitStamp | cassie.git.module/Signature.cs:29-33 | a stamp as git writes it splits back into its name, its email and its time text |
| Signatures.ParseWhenEpoch | cassie.git.module/Signature.cs:37-52 | Unix seconds in range followed by a blank read as the clock's time for those seconds |
| Signatures.ParseEpochStamp | cassie.git.module/Signature.cs:27-52 | round trip: a stamp with Unix seconds in range reads back as its name, email and the clock's time; the zone is ignored |
| Signatures.ParseLongDateStamp | cassie.git.module/Signature.cs:53-62 | a stamp whose time text does not start with a digit reads back as its name and email with whatever the long-date conversion yields, its errors included |
| Signatures.ParseSignatureRejectsDelimiters | cassie.git.module/Signature.cs:29-35 | a missing or leading opening bracket, a missing closing bracket or one before the opening bracket, or a line ending within two characters of the closing bracket throws |
| Signatures.ParseSignatureRejectsTimestamp | cassie.git.module/Signature.cs:37-42 | in the Unix-seconds branch, no blank after the timestamp or a timestamp that is not a number throws |
| Signatures.ParseWhenRejects | cassie.git.module/Signature.cs:39-42 | a time text starting with a digit but with no blank, or no number before the blank (ASCII blanks around it allowed), throws |
| Signatures.GundlachFixture | cassie.git.module.test/SignatureTests.cs:11-21 | the fixture line parses as Patrick Gundlach, gundlach@speedata.de and the clock's time for 1378823654 |
| Signatures.GundlachStamp | cassie.git.module.test/SignatureTests.cs:11 | the fixture line is the stamp git writes for that name, email, seconds and zone |
| ObjectParsing.KeyValue | cassie.git.module/repo/Repository.cs:52-55 | a line with a blank not at its start splits into a non-empty key without blanks, one blank and the value; exactly lines without a blank or starting with one are skipped |
| ObjectParsing.KeyValueOf | cassie.git.module/repo/Repository.cs:52-55 | a key, a blank and a value split back into exactly that key and value |
| ObjectParsing.ParseCommit | cassie.git.module/repo/Repository.cs:35-79 | a new commit is made, which empties the shared submodule map; the call fails exactly when the text reading fails, with its error, and otherwise the commit's tree id, parents, author, committer and message are those the reading gives |
| ObjectParsing.DispatchCommitLines | cassie.git.module/repo/Repository.cs:50-77 | the loop leaves the commit's fields as the line-by-line reading prescribes, or fails with the first line's error |
| ObjectParsing.DispatchCommitLine | cassie.git.module/repo/Repository.cs:52-76 | one line changes the commit's fields as its key prescribes, or fails with the conversion error |
| ObjectParsing.SetCommitId | cassie.git.module/repo/Repository.cs:58-66 | a tree or object id sets the tree id, a parent id is appended, and a bad id fails |
| ObjectParsing.SetCommitSignature | cassie.git.module/repo/Repository.cs:67-75 | an author or tagger signature sets the author, a committer one the committer, and a bad signature fails |
| ObjectParsing.ParseTag | cassie.git.module/repo/Repository.cs:83-119 | the tag is the one the written reading gives, or its first error |
| ObjectParsing.ApplyTagLines | cassie.git.module/repo/Repository.cs:99-117 | the loop computes the line-by-line reading, stopping at the first error |
| ObjectParsing.ApplyTagLine | cassie.git.module/repo/Repository.cs:101-116 | one line changes the tag as its key prescribes: object sets the target, type and tagger set the tagger |
| ObjectParsing.FirstEmpty | cassie.git.module/repo/Repository.cs:34 | the position found is an empty line with no empty line before it, or -1 when no line is empty |
| ObjectParsingFacts.LeadingNewline | cassie.git.module/repo/Repository.cs:38-43 | text starting with a line break is all message, for commits and tags alike |
| ObjectParsingFacts.EmptyFirstLineIsLeadingNewline | cassie.git.module/repo/Repository.cs:44-49 | an empty first line with more lines after it means the text starts with a line break, so the second branch repeats the first |
| ObjectParsingFacts.DispatchesEveryLine | cassie.git.module/repo/Repository.cs:44-50 | when the text does not start with a line break, every line is dispatched, for commits and tags alike |
| ObjectParsingFacts.CommitLinesKeepMessage | cassie.git.module/repo/Repository.cs:50-77 | dispatching lines never sets the message |
| ObjectParsingFacts.NoMessageUnlessLeadingNewline | cassie.git.module/repo/Repository.cs:35-79 | a commit text that does not start with a line break never gets a message |
| ObjectParsingFacts.IdLines | cassie.git.module/repo/Repository.cs:58-66 | tree and object lines with an id's hex form set the tree id to it, parent lines append it |
| ObjectParsingFacts.IdLine | cassie.git.module/repo/Repository.cs:58-66 | tree, object and parent lines go to the id conversion |
| ObjectParsingFacts.BadIdFails | cassie.git.module/repo/Repository.cs:60-64 | an id value not 40 UTF-16 code units long once trimmed throws LengthNotMatch |
| ObjectParsingFacts.SignatureLines | cassie.git.module/repo/Repository.cs:67-75 | a signature line replaces the author (author, tagger) or the committer, or throws with the signature's error |
| ObjectParsingFacts.IgnoredLines | cassie.git.module/repo/Repository.cs:53-76 | lines with another key, with no blank, or starting with a blank change nothing |
| ObjectParsingFacts.ParentsInOrder | cassie.git.module/repo/Repository.cs:63-66 | parent lines append their ids in input order |
| ObjectParsingFacts.TagObjectLine | cassie.git.module/repo/Repository.cs:107-110 | an object line with an id's hex form sets the tag's target |
| ObjectParsingFacts.SplitHeaderMessage | cassie.git.module/repo/Repository.cs:34 | a header and a message separated by a blank line split into the header lines, one empty line and the message's lines |
| ObjectParsingFacts.AsWrittenDispatchesMessage | cassie.git.module/repo/Repository.cs:44-77 | as written, the message's lines are dispatched after the header lines |
| ObjectParsingFacts.CorrectedSeparatesMessage | cassie.git.module/repo/Repository.cs:33-34 | corrected, the header is read from the lines before the blank line only and the message is the text after it |
| ObjectParsingFacts.CommitLinesAppend | cassie.git.module/repo/Repository.cs:50-77 | reading two runs of lines reads the first and then the second from where it stopped |
| ObjectParsingFacts.MessageLineBreaksParse | cassie.git.module/repo/Repository.cs:63-65 | as written, a message line starting with parent and a blank whose value is not an id makes the parse throw |
| ObjectParsingFacts.MessageLineCorrected | cassie.git.module/repo/Repository.cs:33-34 | corrected, that same line is the message |
| ObjectParsingFacts.TypeLineFails | cassie.git.module/repo/Repository.cs:111-114 | as written, a type line whose value holds no opening angle bracket throws |
| ObjectParsingFacts.TagLinesFailAt | cassie.git.module/repo/Repository.cs:99-117 | every tag text with such a line throws, wherever the line stands |
| ObjectParsingFacts.AsWrittenTagFails | cassie.git.module/repo/Repository.cs:83-119 | an annotated tag with a type line never parses as written |
| ObjectParsingFacts.CorrectedTypeLine | cassie.git.module/repo/Repository.cs:111-114 | corrected, a type line records its value and never throws |
| ObjectParsingFacts.CorrectedAgreesWithoutType | cassie.git.module/repo/Repository.cs:99-117 | the corrected reading agrees with the written one on every text without a type line |
| ObjectParsingFacts.TypeCommitLine | cassie.git.module/repo/Repository.cs:111-114 | the line type commit throws as written and records the kind commit when corrected |
| Diffs.FirstMatch | cassie.git.module/Diffs/DiffSection.cs:58-73 | the first line at or after a position that answers the lookup under the offset in force there, with none before it, or -1 when none does |
| Diffs.NextContext | cassie.git.module/Diffs/DiffSection.cs:45-54 | the first context line at or after a position, every line before it being an addition or a deletion |
| Diffs.LastMatchIn | cassie.git.module/Diffs/DiffSection.cs:58-73 | the last line of a range that answers the lookup, with none after it in the range, or -1 |
| Diffs.ExpectedLine | cassie.git.module/Diffs/DiffSection.cs:29-80 | the reference answer of the lookup is a line of the section or null; offsets (RightLine - LeftLine), targets (line ∓ offset) and run counts are unchecked Int32 values that wrap |
| Diffs.LineFrom | cassie.git.module/Diffs/DiffSection.cs:35-79 | the rest of the lookup loop from any state answers a line of the section or null, with the difference, the targets and both counts wrapping as Int32 |
| Diffs.LineAt | cassie.git.module/Diffs/DiffSection.cs:29-80 | the whole lookup answers a line of the section or null, in the source's wrapping Int32 arithmetic |
| Diffs.LineAtWrappedOffset | cassie.git.module/Diffs/DiffSection.cs:51-62 | after a context line with left number -1 and right number Int32Max the offset wraps to Int32Min, so the lookup of the deletion for line Int32Min finds the deleted line numbered 0 |
| Diffs.LineFromExpected | cassie.git.module/Diffs/DiffSection.cs:35-79 | from any loop state that agrees with the reference description so far, the loop's answer is the reference answer |
| Diffs.LineStepKeeps | cassie.git.module/Diffs/DiffSection.cs:37-73 | one loop step that does not return keeps the offset, the run counts and the pending match in agreement with the reference description |
| Diffs.LineAtExpected | cassie.git.module/Diffs/DiffSection.cs:29-80 | the lookup is the last match of the first run of changes holding a match, provided that run is balanced; null with no match and a balanced last run; otherwise the diff line error |
| Diffs.LineAtMatches | cassie.git.module/Diffs/DiffSection.cs:58-73 | a found deletion has no right number and left number equal to the line less the offset; a found addition has no left number and right number equal to the line plus the offset |
| Diffs.LineAtNull | cassie.git.module/Diffs/DiffSection.cs:75-79 | null is returned exactly when no line matches and the last run has as many additions as deletions |
| Diffs.LineAtLastWins | cassie.git.module/Diffs/DiffSection.cs:61-70 | within the run of the returned line no later line matches: the last match wins |
| Diffs.NextContextWithin | cassie.git.module/Diffs/DiffSection.cs:45-54 | seen from inside a run of changes, the next context line is the one that ends the run |
| Diffs.LineAtOtherType | cassie.git.module/Diffs/DiffSection.cs:58-73 | a lookup of a type other than addition or deletion never finds a line |
| Diffs.DiffSection.NumLines | cassie.git.module/Diffs/DiffSection.cs:24-27 | the number of lines, the header included |
| Diffs.DiffSection.Line | cassie.git.module/Diffs/DiffSection.cs:29-80 | the loop, whose difference, targets and counts wrap as Int32, fails exactly when the lookup does, and otherwise answers the line at the lookup's position, or null |
| Diffs.DiffFile.NumSections | cassie.git.module/Diffs/DiffFile.cs:35-38 | the number of sections |
| Diffs.NewDiffFile | cassie.git.module/Diffs/DiffFile.cs:30-33 | a new file has no sections, no additions or deletions, no old name, none of the type predicates and none of the flags |
| Diffs.TypePredicatesExclusive | cassie.git.module/Diffs/DiffFile.cs:50-63 | IsCreated, IsDeleted and IsRenamed each test one file type, so at most one holds |
| Diffs.Diff.NumFiles | cassie.git.module/diffs/Diff.cs:24-27 | the number of files |
| Diffs.NewDiff | cassie.git.module/diffs/Diff.cs:19-22 | a new diff has no files, no additions or deletions and is not incomplete |
| Diffs.PomOffsets | cassie.git.module.test/DiffTests.cs:13-83 | the fixture section has offset 0 up to its change run, which holds one addition and one deletion and ends at line 6 |
| Diffs.PomFixtureDelete | cassie.git.module.test/DiffTests.cs:84-86 | looking up deletion 4 in the fixture finds the deleted groupId line |
| Diffs.PomFixtureAdd | cassie.git.module.test/DiffTests.cs:87-89 | looking up addition 4 in the fixture finds the added groupId line |
| DiffParsing.ParseState.SetCurrent | cassie.git.module/Diffs/DiffParser.cs:186-203 | writing the current file back replaces exactly that file: afterwards it is the current file, the other files, the totals and the line count are unchanged |
| DiffParsing.ParseState.AddSection | cassie.git.module/Diffs/DiffParser.cs:207-218 | the section joins the current file with its counts added; the diff totals grow by its counts, the diff is incomplete if the section was truncated, the file line count grows by its lines, and the other files are unchanged |
| DiffParsing.Step | cassie.git.module/Diffs/DiffParser.cs:172-219 | "+++ " and "--- " lines leave the state unchanged; the parse stops only at a file header once maxFiles files were read, returning the diff marked incomplete; any other line goes on with the same files; it fails only on a file header, a hunk header, or (as written) an empty line; a state that goes on is consistent |
| DiffParsing.HeaderStep | cassie.git.module/Diffs/DiffParser.cs:176-191 | with maxFiles files already the parse stops with the diff marked incomplete; otherwise the file parseFileHeader reads is appended to Files and becomes the current file, with its line count reset |
| DiffParsing.BodyStep | cassie.git.module/Diffs/DiffParser.cs:192-218 | a line other than a header never stops the parse and changes at most the current file; an incomplete current file leaves the state alone; "Binary" sets isBinary on the current file and changes nothing else; it fails only on an empty line as written or a hunk header |
| DiffParsing.FileResult.constructor | cassie.git.module/Diffs/DiffParser.cs:12-16 | the lines and the cursor are the ones given |
| DiffParsing.DiffParser.constructor | cassie.git.module/Diffs/DiffParser.cs:24-29 | the three limits are the ones given |
| DiffParsing.DiffParser.ParseFileHeader | cassie.git.module/Diffs/DiffParser.cs:30-89 | the method leaves the lines alone, returns the file the header and its extended lines describe, and leaves the cursor on the last line it read; what each extended line does is stated by the ScanHeader lemmas below |
| DiffParsing.DiffParser.ReadExtendedHeader | cassie.git.module/Diffs/DiffParser.cs:52-88 | the loop over extended header lines computes the header scan from the line after the cursor and moves the cursor to where it stopped; what each extended line does is stated by the ScanHeader lemmas below |
| DiffParsing.DiffParser.ParseSection | cassie.git.module/Diffs/DiffParser.cs:91-162 | the method returns the section read from the hunk header at the cursor, whether it was truncated (a body line longer than maxLineChars UTF-16 code units), and the cursor after it; line numbers are Int32 and wrap; the lines the section keeps are stated by SectionContents |
| DiffParsing.DiffParser.ReadSectionBody | cassie.git.module/Diffs/DiffParser.cs:112-161 | the body loop computes the section scan from the line after the cursor, comparing lengths in UTF-16 code units and wrapping the Int32 line numbers, and leaves the cursor on the last line it used; SectionContents and ScanSectionContents state which lines that scan keeps and where it stops |
| DiffParsing.DiffParser.Parse | cassie.git.module/Diffs/DiffParser.cs:163-222 | the loop over the split lines returns the diff, or the exception, of the line-by-line parse |
| DiffParsing.DiffParser.ParseLine | cassie.git.module/Diffs/DiffParser.cs:172-219 | the imperative loop body, writing changes back to the last file, computes one parse step |
| DiffParsing.DiffParser.StreamParseDiff | cassie.git.module/Diffs/DiffParser.cs:227-234 | the limits stay what they were and the result is Parse's |
| DiffParsingFacts.CountTypeExtremes | cassie.git.module/Diffs/DiffParser.cs:126-150 | the count of lines of one type is zero exactly when no line has that type, and the number of lines exactly when every line has it |
| DiffParsingFacts.SectionContents | cassie.git.module/Diffs/DiffParser.cs:105-161 | a section is read exactly when its hunk header's numbers are; it holds the header, then exactly the body lines (first character ' ', '+' or '-') before the first line that ends the section, in order, each typed by its first character; empty lines and the "\ No newline at end of file" marker are passed over; a non-empty line that is not a body line ends it; a body line longer than maxLineChars ends it as truncated and is not kept; the position returned is that line, or the last line |
| DiffParsingFacts.ScanSectionContents | cassie.git.module/Diffs/DiffParser.cs:112-161 | the body loop from any line keeps the lines it was given and appends exactly the body lines before the line that ends the section, truncated exactly when that line is an over-long body line |
| DiffParsingFacts.SectionIsOk | cassie.git.module/Diffs/DiffParser.cs:91-162 | a parsed section is well formed: its first line is the hunk header it read, every other line is an addition, deletion or context line no longer than maxLineChars, and its counts equal the numbers of addition and deletion lines |
| DiffParsingFacts.SectionNumbered | cassie.git.module/Diffs/DiffParser.cs:105-159 | the lines of a parsed section are numbered on from the left and right starts of its hunk header, each side counting only the lines on that side; right numbers wrap as Int32, left numbers are stated while they stay within Int32 |
| DiffParsingFacts.FileHeaderEmpty | cassie.git.module/Diffs/DiffParser.cs:30-89 | a file read from a header has no sections, no counts and is not incomplete |
| DiffParsing.SectionStart | cassie.git.module/Diffs/DiffParser.cs:105-111 | the starting numbers a hunk header gives are Int32 values |
| DiffParsingFacts.SectionStartOf | cassie.git.module/Diffs/DiffParser.cs:105-111 | a hunk header "@@ -l,s +r,t @@" as git writes it, each count possibly absent, gives the left start l and the right start r |
| DiffParsingFacts.RightLineWraps | cassie.git.module/Diffs/DiffParser.cs:139-148 | in a hunk whose right side starts at Int32Max, the second added line is numbered Int32Min |
| DiffParsingFacts.SplitHashPair | cassie.git.module/Diffs/DiffParser.cs:71 | "<old>..<new>" with two hashes splits into exactly those two |
| DiffParsingFacts.FirstField | cassie.git.module/Diffs/DiffParser.cs:70 | the first whitespace-separated field of a text that starts with a field and a blank is that field |
| DiffParsingFacts.ScanHeaderIndexLine | cassie.git.module/Diffs/DiffParser.cs:67-76 | an "index" line ends the header; it succeeds exactly when its first field splits into two hashes at "..", then stores the new hash (the old one for a deleted file), and otherwise throws "malformed index" |
| DiffParsingFacts.ScanHeaderIndexHashes | cassie.git.module/Diffs/DiffParser.cs:67-76 | an "index <old>..<new>" line ends the header holding the new hash, or the old one for a deleted file |
| DiffParsingFacts.ScanHeaderShortIndex | cassie.git.module/Diffs/DiffParser.cs:67-69 | an "index" line with nothing after it throws the Substring exception |
| DiffParsingFacts.ScanHeaderNewFile | cassie.git.module/Diffs/DiffParser.cs:57-76 | "new file" then an index line: the file is added, is a submodule exactly when the line ends with " 160000", and holds the new hash |
| DiffParsingFacts.ScanHeaderDeletedFile | cassie.git.module/Diffs/DiffParser.cs:62-76 | "deleted" then an index line: the file is deleted, is a submodule exactly when the line ends with " 160000", and holds the old hash |
| DiffParsingFacts.ScanHeaderFullRename | cassie.git.module/Diffs/DiffParser.cs:77-83 | a "similarity index" line ending with "100%" ends the header with a rename from the first name to the second |
| DiffParsingFacts.ScanHeaderPassesOver | cassie.git.module/Diffs/DiffParser.cs:52-87 | lines that start with none of the five keywords are passed over |
| DiffParsingFacts.ScanHeaderPartialRename | cassie.git.module/Diffs/DiffParser.cs:52-87 | a partial "similarity index", lines without keywords and an index line give a rename from the first name to the second holding the new hash |
| DiffParsingFacts.ScanHeaderOldMode | cassie.git.module/Diffs/DiffParser.cs:84 | "old mode" ends the header and changes nothing |
| DiffParsingFacts.ScanHeaderOldName | cassie.git.module/Diffs/DiffParser.cs:52-88 | the old name changes only to the first header name, and only when a "similarity index" line was read |
| DiffParsingFacts.FileHeaderOldName | cassie.git.module/Diffs/DiffParser.cs:30-89 | a file read from a header has an old name only if a "similarity index" line followed the header |
| DiffParsingFacts.StepBinary | cassie.git.module/Diffs/DiffParser.cs:192-197 | a top-level "Binary" line sets isBinary on the current file (unless it is incomplete) and goes on with the same file and nothing else changed |
| DiffParsingFacts.StepOk | cassie.git.module/Diffs/DiffParser.cs:172-219 | the loop body keeps the parse invariant, never touches the file made before the first header once a header was read, and a stop returns a well-formed incomplete diff |
| DiffParsingFacts.ParseFromOk | cassie.git.module/Diffs/DiffParser.cs:170-221 | the loop returns a well-formed diff whose totals are the sums over its files plus the file made before the first header |
| DiffParsingFacts.ParseTextOk | cassie.git.module/Diffs/DiffParser.cs:163-222 | every diff Parse returns has at most maxFiles files, each well formed with counts equal to its sections' sums, and is incomplete when one of its files is |
| DiffParsingFacts.ParseTextTotals | cassie.git.module/Diffs/DiffParser.cs:163-222 | for text that starts with a file header, the diff totals are exactly the sums of the files' additions and deletions |
| DiffParsingFacts.HeaderFirstTotals | cassie.git.module/Diffs/DiffParser.cs:170-221 | from lines that start with a file header, the totals are the sums over the files |
| DiffParsingFacts.ParseFromLastBlank | cassie.git.module/Diffs/DiffParser.cs:192-199 | as written, when the last line is empty the loop either fails or returns an incomplete diff |
| DiffParsingFacts.AsWrittenTrailingSeparator | cassie.git.module/Diffs/DiffParser.cs:168-199 | as written, text that ends with the separator never parses into a complete diff |
| DiffParsingFacts.AsWrittenNewlineFails | cassie.git.module/Diffs/DiffParser.cs:168-199 | as written, a one-file header followed by a newline raises the index exception |
| DiffParsingFacts.CorrectedIgnoresTrailingSeparator | cassie.git.module/Diffs/DiffParser.cs:168-199 | with empty lines passed over, a separator at the end of the text changes nothing in the result |
| DiffParsingFacts.HeaderNamesAgree | cassie.git.module/Diffs/DiffParser.cs:33-46 | on a header that does not end with a quote the written and corrected name readers agree |
| DiffParsingFacts.CorrectedAgrees | cassie.git.module/Diffs/DiffParser.cs:163-222 | the corrected parser returns what the written one does on text with no empty line and no line ending with a quote |
| DiffParsingFacts.HeaderNamesPlain | cassie.git.module/Diffs/DiffParser.cs:33-46 | an unquoted header gives back both paths exactly |
| DiffParsingFacts.HeaderNamesQuotedAsWritten | cassie.git.module/Diffs/DiffParser.cs:33-46 | as written, a quoted header gives the paths with the closing quote still on them |
| DiffParsingFacts.HeaderNamesQuotedCorrected | cassie.git.module/Diffs/DiffParser.cs:33-46 | corrected, a quoted header gives back both paths exactly |

## Left out

- Running git is not modelled: `Command.RunAsync` and its process I/O, timeouts and cancellation, and the asynchronous callbacks. The repository operations take git's standard output and error as parameters, already split into lines.
- The `Git.BinVersion` check that decides whether `git tag --list` gets `--sort=-creatordate` is not modelled. The tag list is modelled as the descending order the code itself applies.
- Culture-sensitive string operations are modelled with ordinal semantics. This covers `StartsWith`, `EndsWith`, `IndexOf(string)`, `OrderBy` and `OrderByDescending` on strings, and `CompareTo` of names. So the orders proved hold for the ordinal comparison, not for a culture's collation. `Text.OrdinalLess` also compares whole characters by code point, where .NET's ordinal comparison compares UTF-16 code units. The two orders differ only when a character above U+FFFF meets one in U+E000–U+FFFF.
- Local time is not modelled. Converting Unix seconds or long-date text into a `DateTime` depends on the machine's time zone and culture, so it is a `Clock` parameter. The model checks only the `DateTime` range that `Utils.UnixTimeStampToDateTime` enforces.
- `Guid.NewGuid` for `EntryBase.UniqueId` is not modelled: the fresh id is a parameter. The tree parser needs only distinct ids for its entries.
- `git rev-parse`, called by `GetSubmodules`, is a function parameter.
- The other Repository members, which only build a command and run it, are not modelled.
- Aliasing between the diff parser's current file and the last element of `Files` is modelled by writing the current file back after each change. This gives the same result as the shared reference, but the sharing itself is not represented.
- `DiffSection`, `DiffFile` and `Diff` are values, not objects, because after parsing nothing changes them in place.
- In `RepoCountObjects` the source has eight prefix tests in a row. They are modelled as one dispatch on the field a line names, and `OutputHandlersFacts.FieldOfLineComplete` shows that at most one prefix can match.
- OutputHandlers.CountObjects: the exception that the output handler throws on a bad number is modelled as the call's `Err`. In the source it is thrown inside the process's `OutputDataReceived` event (`Command.cs`), so it never reaches the caller of `RepoCountObjects`. There it ends the process or leaves the call waiting. The model does not capture that.
- `parseTag` returns a `Tag` object; here it returns a `TagHeader` value with the same fields, because `Tag.cs` and `Tree.cs` are not part of this model.
- `EntryCollection.Sort` is not modelled. It relies on `TreeEntry.CompareTo`, which is not a total order (`TreeEntries.CompareNotAntisymmetric`), so `List.Sort` promises nothing about the result.
- Plain getters with nothing to state carry no contract and have no row above. These are `EntryCollection.Count`, `IsReadOnly`, `EntryEnumerator.Current`, and the `DiffFile` and `Diff` flag and counter accessors. The mode predicates `TreeEntry.IsTree`, `IsBlob`, `IsExec`, `IsSymlink` and `IsCommit` carry no contract either: `TreeEntries.ExactlyOneMode` states what they mean together.
- DiffParsing.DiffParser.ParseSection: the section's `NumAdditions` and `NumDeletions`, and the file and diff totals built from them, are unbounded integers. The source's Int32 counters would wrap only after 2^31 lines of one kind, which is not modelled.
- DiffParsingFacts.SectionNumbered: right-side numbers are stated with their Int32 wrap-around; left-side numbers are stated only for a positive left start and while they stay within Int32. Nothing is promised about them after they pass Int32Max, where a wrapped negative number stops deleted lines from advancing it.
- Sha1.NewIDFromString: `StringToByteArray` is modelled over characters, while the source reads pairs of UTF-16 code units. For a 40-unit text holding a character outside the Basic Multilingual Plane, both fail, but the exception kind the model gives may differ from the source's.
- Commands.Command.GetArgs: returns the arguments as a value; the source returns its live `List`, so a caller that changes that list changes the command. The same holds for `Commands.Command.GetEnvs` and its `Dictionary`.
- The private `str` field of `SHA1` is written and never read, so it is not modelled.
- A `null` string that the source tests with `string.IsNullOrEmpty` is not represented apart from the empty string, since both take the same branch. `null` results and fields are modelled as `None`.

## Findings

| source | as written | input that shows it | evidently intended | confidence | as-written member | corrected member |
|---|---|---|---|---|---|---|
| cassie.git.module/Diffs/DiffParser.cs:168-199 | the top-level loop reads `line[0]` of an empty line, which throws unless the current file is already incomplete | "diff --git a/x b/x" followed by a newline, as the command runner returns git's output | empty lines are passed over like every other line that is not a hunk header | not executed | DiffParsingFacts.AsWrittenNewlineFails | DiffParsingFacts.CorrectedIgnoresTrailingSeparator |
| cassie.git.module/Diffs/DiffParser.cs:36-46 | for a quoted header, only the opening quote is dropped from each name | `diff --git "a/x y" "b/x y"` gives the names `x y"` and `x y"` | both quotes dropped, giving the paths themselves | not executed | DiffParsingFacts.HeaderNamesQuotedAsWritten | DiffParsingFacts.HeaderNamesQuotedCorrected |
| cassie.git.module/repo/Repository.cs:43-77 | every line of the text is dispatched on its first word, the message lines after the blank line included, and `Message` is set only when the text starts with a blank line | a commit whose message line is "parent is here" throws | header lines up to the first blank line and the rest as the message, as the comment at :33 says | not executed | ObjectParsingFacts.MessageLineBreaksParse | ObjectParsingFacts.MessageLineCorrected |
| cassie.git.module/repo/Repository.cs:111-114 | a "type" line of a tag goes to the signature parser | any annotated tag, whose "type commit" line holds no angle bracket, throws | the type line records the object kind | not executed | ObjectParsingFacts.AsWrittenTagFails | ObjectParsingFacts.CorrectedTypeLine |
| cassie.git.module/repo/Repository.cs:129-132 | a listing line is split on every whitespace run and must give four fields | an entry named "my file" gives five fields and throws | the name is everything after the tab that git puts before it | not executed | TreeParsing.NameWithBlankFails | TreeParsing.TreeLineCorrectedOf |
