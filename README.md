# NukeIt core, modelled in Dafny

NukeIt removes a macOS application and the files it has left behind. This
project models its four core pieces and proves properties of them:

- **AppCleaner** (`cleaner.dfy`): the safety classifier `IsSafeToDelete` and
  the batch deletion `DeleteFiles` / `DeleteSingleFile`. The classifier applies
  its rules in order, the first rule that fires decides:
  1. a critical system prefix refuses the path;
  2. a Library marker accepts it;
  3. a personal-data directory under HOME refuses it;
  4. a safe Library directory or an Applications directory accepts it.

  Deletion runs `os.RemoveAll` on every path judged safe and counts the
  removals that reported no error.
- **AppFinder** (`finder.dfy`): locating the application bundle in
  `/Applications/` and `$HOME/Applications/`, reading its bundle identifier,
  and walking the six Library directories for entries whose base name mentions
  the bundle identifier or the application name.
- **ParseBundleID** (`plist.dfy`): the text search for
  `<key>CFBundleIdentifier</key>` followed by `<string>…</string>` in an
  `Info.plist`.
- **FilterFiles** (`filter.dfy`): dropping files that a user exclusion matches.
  An exclusion matches when it occurs in the path, ignoring case, or when it
  glob-matches the base name.

Supporting modules:

- `file_tree.dfy` models the filesystem as a tree of named entries.
  - A path is resolved element by element, the way the kernel does it:
    - `.` stays where it is;
    - `..` goes up one level, and stays put at `/`;
    - every element before the last must be an existing directory.
  - `os.RemoveAll` is specified on the resolved entry.
  - The finder reads a snapshot of the tree.
  - The cleaner changes a `FileSystem` object in place. That object carries the
    set of entries whose removal the operating system refuses.
- `go_strings.dfy` and `go_paths.dfy` model the parts of Go's `strings` and
  `path/filepath` packages that the core uses:
  - `Contains`, `HasPrefix`, `Index` and ASCII `ToLower`;
  - `Join`, `Base` and `Match`.
- `wrappers.dfy` holds `Option` and `Result`.

The environment variable HOME is an explicit parameter everywhere.

The model follows the code, including three behaviours a reader of its
comments might not expect:

- **Substring matching, not structural prefixes.** The code judges deletion
  safety with raw string prefixes and substring containment, not by comparing
  path elements. The model does the same:
  - `/variable/...` is refused because it starts with `/var`
    (`RawPrefixRefusesLookalikes`);
  - a Library marker inside a personal-data directory overrides the
    personal-data veto (`MarkerOverridesPersonalData`).
- **A second deletion run counts again.** `os.RemoveAll` reports success for a
  path that no longer exists. So when nothing is locked and every accepted
  path is removable (see Left out), a rerun reports the same count as the
  first run, although it deletes nothing (`RunOverMissingPaths`,
  `RerunReportsSameCount`).
- **A failed Info.plist parse keeps the old bundle identifier.** The fallback
  `com.example.<name>` that `extractBundleID` returns is discarded, and any
  earlier bundle identifier stays (`NextBundleID`).

## Model

| member | source | states |
|---|---|---|
| Cleaner.ScanCriticalPaths | pkg/cleaner/cleaner.go:92-96 | The loop finds a critical path exactly when one of the nine critical paths is a raw prefix of the path. |
| Cleaner.ScanUnsafeDirs | pkg/cleaner/cleaner.go:110-115 | The loop finds an unsafe directory exactly when the path contains HOME joined with one of the six personal-data directories. |
| Cleaner.ScanSafeDirs | pkg/cleaner/cleaner.go:118-125 | The loop sets inSafeDir exactly when the path contains HOME joined with one of the six safe Library directories. |
| Cleaner.IsSafeToDelete | pkg/cleaner/cleaner.go:90-133 | The verdict equals the rule-precedence specification `Verdict`: the critical veto first, then the Library marker, then the personal-data veto, then a safe or Applications directory. |
| Cleaner.SafeOnly | pkg/cleaner/cleaner.go:58-64 | The paths DeleteFiles attempts are no more than the input, and a path is attempted iff it is listed and judged safe. |
| Cleaner.DeleteRun | pkg/cleaner/cleaner.go:55-78 | The deleted count never exceeds the number of safe paths, which never exceeds the number of paths given. |
| Cleaner.DeleteFiles | pkg/cleaner/cleaner.go:55-78 | The method never returns an error. The count and the new tree are those of DeleteRun. Every path handed to RemoveAll was judged safe. |
| Cleaner.DeleteSingleFile | pkg/cleaner/cleaner.go:81-87 | The error and the new tree are those of RemoveAllOutcome on the path, with no safety check. `FileTree.RemoveAllSpec` states what that outcome is. |
| Cleaner.DeleteRunOnlyRemoves | pkg/cleaner/cleaner.go:58-75 | A run creates no entry and turns no file into a directory. An entry keeps its existence unless it lies at or below the entry that some safe listed path resolves to, with `.` and `..` resolved. |
| Cleaner.UnlockedRunDeletesEverySafePath | pkg/cleaner/cleaner.go:70-74 | When nothing is locked and every safe path is removable, every safe path counts and none of them exists afterwards. A path is removable when it does not end in `.` or `..`, does not go through a file, and does not resolve to `/`. |
| Cleaner.RunOverMissingPaths | pkg/cleaner/cleaner.go:70-74 | When every safe path is already gone, each one still counts as deleted and the tree is unchanged. "Gone" means: the path does not end in `/.`, does not go through a file, and names no existing entry. |
| Cleaner.RerunReportsSameCount | pkg/cleaner/cleaner.go:55-78 | When nothing is locked and every safe path is removable, running the same list twice reports the same count and leaves the same tree. |
| Cleaner.HomeLibraryIsSafe | pkg/cleaner/cleaner.go:103-125 | A path under a safe Library directory of a `/Users/...` HOME is accepted. For the three Library markers this holds unconditionally; for the other three it holds when no personal-data directory occurs in the path. |
| Cleaner.PersonalDataIsRefused | pkg/cleaner/cleaner.go:110-115 | For any plain HOME, a path under one of its personal-data directories is refused unless it carries a Library marker. |
| Cleaner.MarkerOverridesPersonalData | pkg/cleaner/cleaner.go:103-115 | A path inside a personal-data directory that also contains a Library marker is accepted: the marker rule comes first. |
| Cleaner.SystemApplicationsAreSafe | pkg/cleaner/cleaner.go:128-131 | `/Applications/<name>` is accepted unless it contains a personal-data directory of HOME. |
| Cleaner.UserApplicationsAreSafe | pkg/cleaner/cleaner.go:128-131 | `$HOME/Applications...` is accepted unless it contains a personal-data directory of HOME. |
| Cleaner.RawPrefixRefusesLookalikes | pkg/cleaner/cleaner.go:92-96 | `/variable/Applications/...` and `/binaries/Library/Caches/...` are refused, because `/var` and `/bin` are raw prefixes of them. |
| Cleaner.SafePathNamesAnEntry | pkg/cleaner/cleaner.go:90-133 | A path judged safe has at least one element, so its text never names `/` by itself. Only a `..` element can lead to `/` (see Findings). |
| Cleaner.ParentStepRemovesHome | pkg/cleaner/cleaner.go:90-133 | With HOME `/Users/test`, the path `/Applications/../Users/test` is judged safe. On a disk with `/Applications` and HOME, deleting it counts one and HOME no longer exists. |
| Cleaner.ApplicationsParentEmptiesDisk | pkg/cleaner/cleaner.go:90-133 | `/Applications/..` is judged safe for any HOME. Deleting it with nothing locked counts nothing and leaves the disk without a single entry. |
| Cleaner.CorrectedRefusesParentSteps | pkg/cleaner/cleaner.go:128-131 | The corrected classifier refuses both paths above. |
| Cleaner.DoubleSlashRemovesPersonalData | pkg/cleaner/cleaner.go:110-115 | With HOME `/Users/test`, the path `/Users//test/Documents/Applications/x` is judged safe, although its elements begin with those of `~/Documents`. On a disk where that item exists, deleting it counts one and the item no longer exists. |
| Cleaner.CorrectedRefusesDoubleSlash | pkg/cleaner/cleaner.go:110-115 | The corrected classifier refuses `/Users//test/Documents/Applications/x` for any HOME. |
| Cleaner.CorrectedKeepsPersonalData | pkg/cleaner/cleaner.go:110-115 | For a canonical HOME and a path without a Library marker: if the path's elements begin with those of HOME joined with a personal-data directory, the classifier refuses it when the path is canonical, and the corrected classifier refuses it always. |
| Cleaner.CanonicalPrefixContains | pkg/cleaner/cleaner.go:110-113 | A canonical path whose elements begin with those of a canonical directory joined with an entry name contains that joined text, so the text test of the personal-data loop sees it. |
| Cleaner.CorrectedTargetIsLiteral | pkg/cleaner/cleaner.go:90-133 | A path the corrected classifier accepts resolves, if at all, to its own elements. It has at least one element, and its last element is neither `.` nor `..`. |
| Cleaner.CorrectedRunStaysInside | pkg/cleaner/cleaner.go:58-75 | A batch over the paths the corrected classifier accepts keeps the existence of every entry that is not at or below the literal text of one of them. |
| Cleaner.CoreImplementationCases | pkg/cleaner/cleaner_test.go:469-504 | The seven verdicts of the core-implementation test table hold for HOME `/Users/test`. |
| Cleaner.LibraryCases | pkg/cleaner/cleaner_test.go:469-484 | `Library/Application Support`, `Library/Preferences` and `Library/Caches` paths under HOME are accepted. |
| Cleaner.DocumentsCase | pkg/cleaner/cleaner_test.go:485-489 | `$HOME/Documents/test.txt` is refused. |
| Cleaner.SystemApplicationsCase | pkg/cleaner/cleaner_test.go:495-499 | `/Applications/TestApp.app` is accepted. |
| Cleaner.UserApplicationsCase | pkg/cleaner/cleaner_test.go:500-504 | `$HOME/Applications/TestApp.app` is accepted. |
| FileTree.RemoveAllSpec | pkg/cleaner/cleaner.go:86 | The outcome of os.RemoveAll. The empty path succeeds and changes nothing. A path ending in `/.` fails with EINVAL and changes nothing. A path through a file fails with ENOTDIR and changes nothing. A missing path succeeds and changes nothing. No entry is created. Entries outside the resolved target keep their existence. An existing target that is not `/` and whose last element is not `.` or `..` is either refused with nothing changed, when something locked lies at or below it, or removed together with everything below it. For `/` or a last element `.` or `..`, the directory stays, reports an error, and loses exactly its unlocked children. |
| FileTree.PruneLookup | pkg/cleaner/cleaner.go:86 | Removing the children a predicate rejects from a directory only touches entries below it. Every entry outside the directory keeps its lookup, and an entry below it survives iff its child on the way is kept. |
| FileTree.ResolveShrunk | pkg/cleaner/cleaner.go:70 | Removing entries never makes a path resolve to something new. A path that resolves, or fails through a file, in the smaller tree does the same in the original tree. A path missing in the original stays missing. |
| FileTree.ResolveLiteral | pkg/cleaner/cleaner.go:70 | A path without `.` or `..` resolves, if at all, to its own elements, and to exactly them whenever that entry exists. |
| FileTree.FileSystem.RemoveAll | pkg/cleaner/cleaner.go:86 | The error and the new tree are those of RemoveAllOutcome on the old tree. |
| FileTree.DistinctSiblings | pkg/finder/finder.go:142 | In a well-formed directory listing, sorted by name as os.ReadDir returns it, siblings have distinct names. |
| Plist.ParseBundleID | pkg/finder/plist.go:32-85 | Missing content iff the Info.plist-not-found error. Given content, each error arises exactly when its condition holds: the key is absent; no `<string>` at or after the first key; no `</string>` after that first `<string>`; `</string>` right after it. A success is the text from the first `<string>` after the first key up to the first `</string>` after it, and it is non-empty. |
| Plist.ValueAfterKey | pkg/finder/plist.go:58-85 | The search reports the key missing iff the key does not occur. After the first key it reports each later error exactly when its condition holds. A success is the text between the first opening tag after the key and the first closing tag after that, and it is non-empty. |
| Plist.ValueFrom | pkg/finder/plist.go:64-85 | Searching from the key reports the value missing iff no `<string>` occurs at or after the key. The unterminated and empty errors arise exactly when their conditions hold after the first such tag, and a success is the text up to the first `</string>` after it. |
| Plist.ValueBefore | pkg/finder/plist.go:73-83 | Searching for `</string>` after `<string>` fails only as unterminated or empty. A value it returns contains no closing tag and is enclosed by the tags. |
| Plist.ValueBeforeSpec | pkg/finder/plist.go:73-83 | The search is unterminated iff no `</string>` follows the opening tag, and it is empty iff one follows at once. A success is exactly the text up to the first `</string>`. |
| Plist.ValueBetweenTags | pkg/finder/plist.go:73-79 | The slice up to the first closing tag contains no closing tag and is enclosed by the two tags in the text. |
| Plist.SearchFindsValue | pkg/finder/plist.go:58-79 | In a text laid out as prefix, key, filler, `<string>`, value, `</string>`, the search returns exactly that value, provided the prefix has no key and the filler has no opening tag. |
| Plist.ParseRoundTrip | pkg/finder/plist.go:58-85 | Writing a non-empty value without `</string>` after the first key and parsing it back gives that value. |
| Plist.ParseDecomposes | pkg/finder/plist.go:58-85 | The converse of ParseRoundTrip. Every text that parses to a value is some prefix free of the key, then the key, then a filler free of `<string>`, then `<string>`, the value, `</string>` and a remainder. |
| Plist.OnlyFirstKeyConsulted | pkg/finder/plist.go:58-61 | Text before the first key does not affect the result. |
| Plist.ValidInfoPlistCase | pkg/finder/finder_test.go:116-129 | The valid Info.plist fixture yields `com.test.TestApp`. |
| Plist.InvalidXmlCase | pkg/finder/finder_test.go:131-137 | The non-XML fixture fails, because it has no bundle-ID key. |
| Plist.MissingBundleIdCase | pkg/finder/finder_test.go:139-152 | The fixture without CFBundleIdentifier fails with the bundle-ID-not-found error. |
| Finder.MatchUsesBaseNameOnly | pkg/finder/finder.go:181-193 | The relatedness test depends only on the base name: the directories above it never decide a match. |
| Finder.NameInBaseMatches | pkg/finder/finder.go:189-193 | A base name that contains the app name is related. |
| Finder.AppNameCaseIgnored | pkg/finder/finder.go:190-193 | Lower-casing the app name never changes the outcome. |
| Finder.EmptyNameMatchesEverything | pkg/finder/finder.go:190-193 | With an empty app name every path is related. |
| Finder.BundleIdIsCaseSensitive | pkg/finder/finder.go:185-187 | The bundle-ID test is case-sensitive: `COM.ACME` does not match the bundle ID `com.acme`. |
| Finder.ProbeLocation | pkg/finder/finder.go:63-110 | An existing `<name>.app` always hits, and a hit is that bundle iff it exists. A bundle hit always records `location/<name>.app`. A bare-directory hit records `location/name`, is a directory, and is only taken when `<name>.app` is absent. No hit iff `<name>.app` is absent and `location/name` is not a directory. |
| Finder.FirstHitSpec | pkg/finder/finder.go:63-111 | The probe finds nothing iff no location has a hit. What it finds is the hit at some location where all earlier locations have none. |
| Finder.ExtractBundleID | pkg/finder/finder.go:121-129 | A successful parse of the Info.plist gives exactly the parsed ID and no error. A failed parse gives `com.example.` followed by the lower-cased app name, together with the parse error. |
| Finder.NextBundleID | pkg/finder/finder.go:75-104 | Without a hit the bundle ID is unchanged. A bare-directory hit gives the synthesized `com.<name>.<name>`. A bundle hit gives the parsed ID when the parse succeeds, and keeps the old ID when it fails. |
| Finder.SynthesizedIdAddsNoMatches | pkg/finder/finder.go:104 | The synthesized bundle ID matches exactly the paths the app name alone matches. |
| Finder.LibraryRootsPlain | pkg/finder/finder.go:135-136 | Each Library root, HOME joined with a Library path, is plain, with no trailing slash. |
| Finder.EntryMatchesSound | pkg/finder/finder.go:142-169 | Everything a walk records is related, is not the walk's root, and lies at or below the entry it was recorded under. |
| Finder.ChildMatchesSound | pkg/finder/finder.go:142-169 | Everything recorded among the children from the i-th on is related, is not the root, and lies at or below one of those children. |
| Finder.RelatedChildRecorded | pkg/finder/finder.go:156-161 | A related child of a listed directory is recorded. |
| Finder.EntryMatchesDistinct | pkg/finder/finder.go:142-169 | A walk over a well-formed tree records no path twice. |
| Finder.ChildMatchesDistinct | pkg/finder/finder.go:142-169 | The records of a well-formed directory's children contain no path twice. |
| Finder.EntryMatchesPrunes | pkg/finder/finder.go:156-166 | No record of a walk lies strictly below another record: a related directory is recorded and its contents are skipped. |
| Finder.LibraryMatchesPrunes | pkg/finder/finder.go:142-170 | One Library walk over a well-formed disk records no path below another recorded path. |
| Finder.LibraryMatchesSound | pkg/finder/finder.go:136-170 | Everything one Library walk records is related and lies strictly below the Library root. |
| Finder.LibraryMatchesDistinct | pkg/finder/finder.go:142-170 | One Library walk over a well-formed disk records no path twice. |
| Finder.LibraryChildRecorded | pkg/finder/finder.go:151-161 | A related entry directly inside a listable Library root is recorded. |
| Finder.ScansFromSound | pkg/finder/finder.go:135-175 | Everything the walks from the k-th root on record is related and lies below one of those roots. |
| Finder.AssociatedFilesRelated | pkg/finder/finder.go:132-178 | Every associated file is related to the app and lies below one of the six Library directories of HOME. |
| Finder.AppFinder.constructor | pkg/finder/finder.go:29-34 | A new finder has no bundle ID, no app name and no found files. |
| Finder.AppFinder.FindAllAssociatedFiles | pkg/finder/finder.go:37-51 | The method sets the app name and updates the bundle ID from the first bundle hit. The found files grow by the bundle path, then by the associated files under the new bundle ID. It returns them with no error. |
| Finder.AppFinder.FindAppBundle | pkg/finder/finder.go:54-118 | The found files grow by the first hit over the two application locations, if any. The bundle ID becomes NextBundleID of that hit. |
| Finder.AppFinder.ProbeAt | pkg/finder/finder.go:63-110 | One location's probe: whether it hit, the path it records and the bundle ID it leaves. |
| Finder.AppFinder.FindAssociatedFiles | pkg/finder/finder.go:132-178 | The found files grow by exactly the associated files. The bundle ID and app name are unchanged. |
| Finder.AppFinder.ScanLibraries | pkg/finder/finder.go:135-175 | The loop over the roots appends the walks' records in root order. |
| Finder.AppFinder.ScanLibrary | pkg/finder/finder.go:136-174 | One root's walk appends exactly LibraryMatches. A missing root appends nothing. |
| Finder.AppFinder.WalkEntry | pkg/finder/finder.go:142-169 | Visiting an entry appends exactly EntryMatches: SkipDir below a related directory, and SkipDir for an unlistable directory. |
| Finder.AppFinder.WalkChildren | pkg/finder/finder.go:142-169 | Visiting a directory's children in listing order appends exactly ChildMatches. |
| Filter.FilterFiles | pkg/utils/filter.go:16-46 | The result is exactly the files no exclusion matches, in input order. |
| Filter.IsExcluded | pkg/utils/filter.go:24-39 | The inner loop reports exclusion exactly when some exclusion matches the file by case-insensitive containment or by a base-name glob. |
| Filter.NoExclusionsKeepAll | pkg/utils/filter.go:17-19 | With no exclusions every file is kept. |
| Filter.KeptMembers | pkg/utils/filter.go:23-44 | A file is kept iff it is in the input and no exclusion matches it. |
| Filter.KeptIsSubsequence | pkg/utils/filter.go:21-46 | The output is a subsequence of the input: same order, the input's own records, no longer. |
| Filter.FilterIdempotent | pkg/utils/filter.go:16-46 | Filtering the output again with the same exclusions changes nothing. |
| Filter.FilterComposes | pkg/utils/filter.go:26-39 | Filtering by two exclusion lists at once equals filtering by the first, then by the second. |
| Filter.SlashExcludesAbsolute | pkg/utils/filter_test.go:89-94 | The exclusion `/` removes every file with an absolute path. |
| Filter.ExclusionIgnoresCase | pkg/utils/filter_test.go:57-67 | The exclusion `testapp.app` removes `/Applications/TestApp.app`. |
| Filter.ExclusionByPattern | pkg/utils/filter_test.go:78-88 | The exclusion `*.txt` removes `/Users/test/Documents/TestApp-backup.txt` through its base name. |
| GoStrings.IndexFromSpec | pkg/finder/plist.go:64-73 | The offset search returns -1 iff there is no occurrence at or after the offset. Otherwise it returns the first such occurrence. |
| GoStrings.IndexOfSpec | pkg/finder/plist.go:58-59 | strings.Index returns -1 iff the string does not contain the pattern. Otherwise it returns the first occurrence. |
| GoStrings.ToLowerIdempotent | pkg/finder/finder.go:190-191 | Lower-casing twice is lower-casing once. |
| GoStrings.ContainsToLower | pkg/utils/filter.go:29 | Containment survives lower-casing both sides. |
| GoPaths.JoinEntry | pkg/finder/finder.go:136 | filepath.Join of a plain directory and an entry name is `dir/name` and is plain. |
| GoPaths.ComponentsOfAbsolute | pkg/cleaner/cleaner.go:70 | An absolute path whose first element is a name has that name as its first element, followed by the elements of the rest. |
| GoPaths.CleanRenders | pkg/cleaner/cleaner.go:86 | A canonical absolute path (no doubled or trailing separator) is exactly the text obtained by writing `/` before each of its elements. |
| GoPaths.RenderedConcat | pkg/cleaner/cleaner.go:86 | Rendering a concatenation of element lists is rendering each list and concatenating the texts. |
| GoPaths.CleanJoin | pkg/finder/finder.go:136 | Joining a canonical directory and an entry name with `/` gives a canonical path. |
| GoPaths.CleanPrefixIsTextPrefix | pkg/cleaner/cleaner.go:110-115 | Between canonical paths, an element-wise prefix is a textual prefix. |
| GoPaths.BaseOfEntry | pkg/finder/finder.go:182 | filepath.Base of `dir/name` is the name. |
| GoPaths.BaseIdempotent | pkg/finder/finder.go:182 | filepath.Base returns `.`, `/` or an entry name, and is idempotent. |
| GoPaths.LiteralPatternMatchesItself | pkg/utils/filter.go:35 | A pattern without wildcards matches exactly itself. |
| GoPaths.StarThenLiteral | pkg/utils/filter.go:35 | `*suffix` matches any slash-free prefix followed by that literal suffix. |

## Findings

IsSafeToDelete reads the path as text. os.RemoveAll reads it element by
element: it resolves `.` and `..` and treats `//` as `/`. Two consequences
follow.

- The Applications rule accepts any path that contains `/Applications/`, so
  a path can start in `/Applications` and climb out of it.
- The personal-data veto looks for HOME's text. A doubled separator breaks
  that text without changing the elements, so a path can walk through
  `~/Documents` unseen.

| source | as written | input that shows it | evidently intended | confidence | as-written member | corrected member |
|---|---|---|---|---|---|---|
| pkg/cleaner/cleaner.go:90-133 | A path that contains `/Applications/` and then `..` elements is judged safe, and DeleteFiles removes what it resolves to. | `/Applications/../Users/test` with HOME `/Users/test`: HOME is removed and the run counts one deletion. | A path with a `.` or `..` element is refused. A batch then only removes entries at or below the literal text of an accepted path. | high, not executed | Cleaner.ParentStepRemovesHome | Cleaner.CorrectedRunStaysInside |
| pkg/cleaner/cleaner.go:90-133 | `/Applications/..` is judged safe. os.RemoveAll resolves it to `/` and removes every entry it is allowed to. | `/Applications/..` with any HOME: with nothing locked, the disk is left with no entries and the run counts none. | The same refusal. An accepted path then always names the entry its own elements spell, never `/`. | high, not executed | Cleaner.ApplicationsParentEmptiesDisk | Cleaner.CorrectedTargetIsLiteral |
| pkg/cleaner/cleaner.go:110-115 | The personal-data veto looks for HOME's text, which a doubled separator breaks, while the path's elements still walk through the personal-data directory. | `/Users//test/Documents/Applications/x` with HOME `/Users/test`: judged safe, and the run removes that item of `~/Documents` and counts it. | A path that is not in canonical absolute form is refused. For a canonical HOME, an accepted path without a Library marker then never walks through a personal-data directory of HOME. | high, not executed | Cleaner.DoubleSlashRemovesPersonalData | Cleaner.CorrectedKeepsPersonalData |

The corrected classifier is `CorrectedVerdict`. It is `Verdict`, plus two
conditions on the path:
- canonical absolute form: a leading `/`, no `//` and no trailing `/`;
- no `.` or `..` element.

`CorrectedRefusesParentSteps` and `CorrectedRefusesDoubleSlash` show that it
refuses all three inputs. The corrected batch is DeleteRun over
`Accepted(files, home)`. DeleteFiles itself still models the code as written.

## Left out

- Printing: the verbose printing and error printing are I/O. The `verbose` field of both structs is not modelled.
- The TUI, the command line, the logger and the uninstall orchestration are not part of this model.
- The mock cleaner of the tests is not modelled; only the real classifier is. Its DeleteFiles test expectations rely on the mock's table.
- HOME: `os.Getenv("HOME")` is a parameter of every operation that reads it.
- filepath.Join and filepath.Clean: Join is modelled as dropping empty elements, trimming trailing separators and joining with one `/`. Clean's collapsing of `//`, `.` and `..` inside the joined text is not modelled. The model's joined paths therefore agree with Go's only when HOME is clean (absolute, no `//`, `.` or `..` element) and the app name is a single entry name. Both come from outside the program. For example, with the app name `../Foo`, Go's `filepath.Join("/Applications/", "../Foo.app")` is `/Foo.app`, which IsSafeToDelete refuses, while the model's Join gives `/Applications/../Foo.app`, which it accepts. The filesystem itself still resolves `.` and `..` in any path it is given.
- Path resolution: symbolic links are not modelled. A trailing slash after a file name is not modelled as an error. A relative path is resolved from `/`, because the process's working directory is not part of the model.
- FileTree.RemoveAllOutcome: a refused os.RemoveAll is modelled as removing nothing. A locked entry makes the whole removal of every path above it fail. The real call may already have removed part of the tree before it fails.
- FileTree.RemoveAllOutcome: for `/` or a path whose last element is `.` or `..`, the model empties the directory of everything unlocked and reports the error DirectoryKept. Go removes the children and then fails to remove the directory itself. The exact error it reports there depends on the kernel, so the model uses one error for all these cases.
- FileTree.RemoveAllOutcome: a directory that cannot be listed is still removable unless something locked lies at or below it. Permissions are modelled only through the set of locked entries.
- UnlockedRunDeletesEverySafePath: states nothing for safe paths that end in `.` or `..`, go through a file or resolve to `/`. RemoveAllSpec states what happens to those paths: EINVAL, ENOTDIR, or an emptied directory with an error. None of them counts.
- RerunReportsSameCount: requires nothing locked and every safe path removable. Otherwise the two counts can differ. For example, `/Applications/..` counts nothing on the first run, because `/` is emptied with an error. On the rerun `/Applications` is gone, so the path is missing and counts.
- Plist.ParseBundleID: the stat, open and read failures are one error, represented by missing content, because the model has no separate open or read failure.
- WalkDir errors: a directory that cannot be listed yields no entries, matching the callback's SkipDir answer. The partial listings os.ReadDir can return alongside an error are not modelled.
- Finder.AppFinder.ScanLibraries: the walk's child paths are built as `dir + "/" + name`. This equals filepath.Join only because the roots are plain paths and entries are names (`LibraryRootsPlain`, `GoPaths.JoinEntry`).
- Finder.EntryMatchesDistinct: distinctness is proved within one Library walk. It is not proved across the six Library directories.
- Finder.LibraryChildRecorded: completeness is proved for entries directly inside a Library root, not for related entries deeper down.
- GoStrings.IndexFromSpec: `IndexFrom(s, sub, k)` stands for `strings.Index(s[k:], sub) + k`, which is how the source uses the offset searches.
- GoPaths.GlobMatch: filepath.Match is modelled for `*`, `?` and literal characters. A pattern containing `[` or `\` matches nothing, whereas Go would treat it as a character class or an escape.
- GoStrings.ToLower: case folding is ASCII only. Unicode lower-casing is not modelled.
- The unused `appFound` flag of findAppBundle only controls a verbose message, so it is not modelled.
- Filter.File: the size is an unbounded `int` rather than int64. FilterFiles never inspects it.
- Case sensitivity: entry names are compared exactly, as on a case-sensitive volume. The default macOS volume ignores case, and the model misses what follows from that. Finder.ProbeLocation reports no hit for the app name `testapp` when only `/Applications/TestApp.app` exists, whereas macOS finds it. Verdict accepts `/Users/test/documents/Applications/x`, which macOS resolves into `~/Documents`. The guarantees of Cleaner.CorrectedRunStaysInside and Cleaner.CorrectedKeepsPersonalData therefore hold only on a case-sensitive volume.
- The directory-entry order is the sorted order os.ReadDir guarantees. Concurrent changes to the filesystem during a walk or a deletion are not modelled.
