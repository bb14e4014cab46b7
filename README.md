# Gadgeter core in Dafny

Gadgeter is an Android app that re-packages an installed or chosen APK so that it
loads a Frida gadget library the first time one of its classes is initialized.
This project models the app's core and proves properties of it.

- **GadgetInjector** (`injector.dfy`) patches one disassembled (smali) class.
  If the class has no static initializer `<clinit>`, it appends one. Otherwise it
  bumps the register declaration of the existing initializer and inserts a
  `const-string` / `invoke-static System.loadLibrary` pair before the first
  instruction.
- **ApkUtils** (`apk_utils.dfy`) covers three operations:
  - `unzip` of the APK into a directory tree, with progress reports every 100
    entries;
  - `zip` of the tree back into entries, where `resources.arsc`, `.png` and `.jpg`
    are STORED with their size and their CRC-32 (`crc32.dfy`, streamed in 8 KiB
    chunks) and everything else is DEFLATED;
  - `findAppConfig`, which reads the application and first activity class names
    from the manifest text with the two regular expressions of the source.
- **HomeScreen** (`home_screen.dfy`) covers the library-name rules
  (`isSoNameValid`, `validateAndCorrectSoName`), the architecture selection list
  and its two click handlers, the name-warning dialog, and `processWithConfig` /
  `doProcessWithCurrentSoName`. These last two write the settings into the
  scratch files of the cache directory (`scratch.dfy`). The screen's state is the
  class `HomeScreen.Home`, with one field per piece of state that these handlers
  change.
- **ProcessingScreen** (`processing_screen.dfy`) is the pipeline. In order, it:
  - reads the scratch files back;
  - unpacks the APK and finds the class to patch;
  - tries the `classes*.dex` units in name order, stopping at the first unit where
    the application class, or failing that the main activity, can be patched;
  - works out the architectures to fetch;
  - places the gadget and its `.config.so` under `lib/<arch>/` for each
    architecture;
  - repacks.

  `Run` is the imperative pipeline. It is proved equal to the function
  `Pipeline`, and the lemmas about `PatchStep`, `PlaceStep` and `Finish` state
  what the pipeline guarantees.
- **Handoff** (`handoff.dfy`) proves that the processing screen reads back the
  settings the home screen wrote.
- **Support modules**:
  - `base.dfy`: `Option`, bytes, and Kotlin's 32-bit `Int` with its wrap-around.
  - `text.dfy`: the Kotlin string functions the source uses.
  - `ordering.dfy`: `String.compareTo` and sorted listing.

A directory tree is `Tree(dirs, files)`: a set of directory paths and a map from
file path to bytes, relative to the tree's root. The work of the external tools
is a function-typed parameter of the pipeline: disassembly and reassembly of dex
files, download, the local file, the bundled asset, and text encoding.

Three points of the code's behaviour are worth stating outright:

- **Register declaration search.** The register declaration is searched from
  the initializer header to the end of the file, not only inside the
  initializer, and injection fails when there is none; no declaration is
  synthesized (`Inject`, `InjectFailsWithoutDeclaration`).
- **Library name.** The "keep as is" button of the name warning starts the
  pipeline with a name that fails `isSoNameValid`, so `LoadLibName` models both
  branches of `ProcessingScreen.kt:148`.
- **Fresh initializer.** The appended initializer declares `.locals 1`, not
  `.registers`.

## Model

Paths below are relative to `app/src/main/java/top/wsdx233/gadgeter/`, written
out in full in the source column.

| member | source | states |
|---|---|---|
| GadgetInjector.IndexOfFirst | app/src/main/java/top/wsdx233/gadgeter/patcher/GadgetInjector.kt:30 | the index found is the first one from `from` whose line satisfies the test; -1 means no line from `from` on satisfies it |
| GadgetInjector.FirstInstruction | app/src/main/java/top/wsdx233/gadgeter/patcher/GadgetInjector.kt:73-81 | the insertion point is the first line after the header that is not blank, a comment or a skipped directive; when there is none it is the line after the header |
| GadgetInjector.FindFirstInstruction | app/src/main/java/top/wsdx233/gadgeter/patcher/GadgetInjector.kt:73-81 | the loop with its early return yields exactly that insertion point |
| GadgetInjector.InjectLoadLibrary | app/src/main/java/top/wsdx233/gadgeter/patcher/GadgetInjector.kt:25-71 | returns true exactly when it writes the file; a missing file gives false; the lines written are those of `Inject` |
| GadgetInjector.Inject | app/src/main/java/top/wsdx233/gadgeter/patcher/GadgetInjector.kt:25-71 | the injection on the lines of a class: the fresh block appended when there is no `<clinit>`, the patched initializer when a declaration follows the header, and no result otherwise; its lemmas are `InjectAppends`, `InjectFailsWithoutDeclaration`, `InjectFindsInitializer` and `InjectPatchesAt` |
| GadgetInjector.PatchInitializer | app/src/main/java/top/wsdx233/gadgeter/patcher/GadgetInjector.kt:50-64 | the declaration rewritten with one more register, then the `const-string`, `invoke-static` and blank lines inserted before the first instruction; `PatchIsInsertion`, `PatchShape`, `PatchInsertsCall` and `PatchKeepsOtherLines` state its shape |
| GadgetInjector.PatchExisting | app/src/main/java/top/wsdx233/gadgeter/patcher/GadgetInjector.kt:50-68 | the edits in place (rewrite of the declaration, three inserts at one index) produce `PatchInitializer` |
| GadgetInjector.FreshInitializerHeader | app/src/main/java/top/wsdx233/gadgeter/patcher/GadgetInjector.kt:34-40 | the appended block holds exactly one `<clinit>` header, its second line |
| GadgetInjector.InjectAppends | app/src/main/java/top/wsdx233/gadgeter/patcher/GadgetInjector.kt:32-43 | a class without a static initializer gets the fresh block appended, and afterwards has exactly one initializer header |
| GadgetInjector.InjectFailsWithoutDeclaration | app/src/main/java/top/wsdx233/gadgeter/patcher/GadgetInjector.kt:46-70 | with an initializer but no `.registers`/`.locals` line from its header to the end of the file, injection fails |
| GadgetInjector.InjectFindsInitializer | app/src/main/java/top/wsdx233/gadgeter/patcher/GadgetInjector.kt:30-61 | the first initializer header and the first declaration at or after it are the lines the patch works on |
| GadgetInjector.InjectPatchesAt | app/src/main/java/top/wsdx233/gadgeter/patcher/GadgetInjector.kt:46-64 | when the declaration search succeeds, the declaration is at or after the header and injection succeeds with the patch there |
| GadgetInjector.DeclaredCount | app/src/main/java/top/wsdx233/gadgeter/patcher/GadgetInjector.kt:51-53 | the parsed count is never negative and fits an `Int` |
| GadgetInjector.CountOfDeclaration | app/src/main/java/top/wsdx233/gadgeter/patcher/GadgetInjector.kt:53-59 | a rewritten `.locals m` or `.registers m` line parses back to `m` |
| GadgetInjector.DeclarationBumped | app/src/main/java/top/wsdx233/gadgeter/patcher/GadgetInjector.kt:51-59 | the rewritten line is still a declaration of the same kind, and below `Int.MAX_VALUE` its count is one more than before |
| GadgetInjector.InjectedRegisterFresh | app/src/main/java/top/wsdx233/gadgeter/patcher/GadgetInjector.kt:56-57 | the injected register differs from every register `v0` … `v(N-1)` the method already uses |
| GadgetInjector.StartsWithMember | app/src/main/java/top/wsdx233/gadgeter/patcher/GadgetInjector.kt:74-78 | a line starting with any of the skipped prefixes fails the `none` test |
| GadgetInjector.DeclarationIsNotInstruction | app/src/main/java/top/wsdx233/gadgeter/patcher/GadgetInjector.kt:74-78 | a register declaration is never taken as the insertion point |
| GadgetInjector.PatchKeepsInsertionPoint | app/src/main/java/top/wsdx233/gadgeter/patcher/GadgetInjector.kt:59-61 | rewriting the declaration before searching does not move the insertion point |
| GadgetInjector.PatchIsInsertion | app/src/main/java/top/wsdx233/gadgeter/patcher/GadgetInjector.kt:59-64 | the patched file is the file with the declaration rewritten and `const-string`, `invoke-static` and a blank line inserted before the first instruction |
| GadgetInjector.PatchShape | app/src/main/java/top/wsdx233/gadgeter/patcher/GadgetInjector.kt:59-64 | the patched file is three lines longer and holds the rewritten declaration in place of the old one, shifted by three when it comes after the insertion point |
| GadgetInjector.PatchInsertsCall | app/src/main/java/top/wsdx233/gadgeter/patcher/GadgetInjector.kt:61-64 | the `const-string` and `invoke-static` lines with the fresh register, then a blank line, sit at the insertion point |
| GadgetInjector.PatchKeepsOtherLines | app/src/main/java/top/wsdx233/gadgeter/patcher/GadgetInjector.kt:59-64 | every original line other than the declaration is kept in order and unchanged, shifted by three after the insertion point |
| Base.IncInt | app/src/main/java/top/wsdx233/gadgeter/patcher/GadgetInjector.kt:56 | `Int` addition of one: one more below `Int.MAX_VALUE`, `Int.MIN_VALUE` at it |
| ApkUtils.ExtractItem | app/src/main/java/top/wsdx233/gadgeter/patcher/ApkUtils.kt:27-37 | a directory entry only makes directories; a file entry makes its parents and writes its content |
| ApkUtils.LastWrite | app/src/main/java/top/wsdx233/gadgeter/patcher/ApkUtils.kt:25-37 | the last file entry of the archive with a given name, or -1 |
| ApkUtils.ExtractedFile | app/src/main/java/top/wsdx233/gadgeter/patcher/ApkUtils.kt:25-42 | after unpacking, a file holds the content of the last entry with its name; a file no entry writes keeps its old content |
| ApkUtils.ExtractedDirs | app/src/main/java/top/wsdx233/gadgeter/patcher/ApkUtils.kt:28-31 | the directories after unpacking are those before plus exactly those some entry creates |
| ApkUtils.Unzip | app/src/main/java/top/wsdx233/gadgeter/patcher/ApkUtils.kt:17-45 | the loop extracts every entry in archive order and reports `count / total` at each hundredth entry, then completion |
| ApkUtils.ReportsUpToShape | app/src/main/java/top/wsdx233/gadgeter/patcher/ApkUtils.kt:38-41 | after `count` entries there were `count / 100` reports, the k-th at `100 (k + 1)` |
| ApkUtils.AllReports | app/src/main/java/top/wsdx233/gadgeter/patcher/ApkUtils.kt:38-43 | a full run reports `total / 100` increasing multiples of 100 up to `total`, then completion last |
| ApkUtils.EntryName | app/src/main/java/top/wsdx233/gadgeter/patcher/ApkUtils.kt:56 | an entry name has the path's length and no backslash |
| ApkUtils.EntryNames | app/src/main/java/top/wsdx233/gadgeter/patcher/ApkUtils.kt:56 | one entry name per walked path, position by position |
| ApkUtils.EntryRules | app/src/main/java/top/wsdx233/gadgeter/patcher/ApkUtils.kt:57-72 | an entry is written STORED exactly when its name is `resources.arsc` or ends in `.png`/`.jpg`, then with both sizes the file length and the content's CRC-32; otherwise DEFLATED with method, sizes and CRC unset |
| ApkUtils.NewEntry | app/src/main/java/top/wsdx233/gadgeter/patcher/ApkUtils.kt:57-72 | the entry built with its CRC loop is the one those rules describe |
| ApkUtils.Zip | app/src/main/java/top/wsdx233/gadgeter/patcher/ApkUtils.kt:47-85 | repacking succeeds exactly when the entry names are distinct; then it yields one entry per walked file in walk order and the full progress sequence; a failed run never reports completion |
| ApkUtils.Repacked | app/src/main/java/top/wsdx233/gadgeter/patcher/ApkUtils.kt:48-76 | one entry per walked file, in walk order, with that file's entry name and content |
| ApkUtils.DuplicateName | app/src/main/java/top/wsdx233/gadgeter/patcher/ApkUtils.kt:74 | a name met a second time means the names are not distinct, which is where `putNextEntry` throws |
| ApkUtils.ReportsHaveNoComplete | app/src/main/java/top/wsdx233/gadgeter/patcher/ApkUtils.kt:78-83 | the per-hundred reports never include the completion call |
| ApkUtils.ProgressMessage | app/src/main/java/top/wsdx233/gadgeter/patcher/ApkUtils.kt:40-83 | the texts `Unpacking... count / total`, `Repacking... count / total` and the two `complete` messages; `ProgressMessagesDiffer` states what they tell apart |
| ApkUtils.ProgressMessagesDiffer | app/src/main/java/top/wsdx233/gadgeter/patcher/ApkUtils.kt:40-83 | unpacking and repacking messages never coincide, and a count report never reads as the completion message |
| ApkUtils.RepackUnpack | app/src/main/java/top/wsdx233/gadgeter/patcher/ApkUtils.kt:17-85 | unpacking what repacking writes gives back the original files |
| ApkUtils.ZipNamesDistinct | app/src/main/java/top/wsdx233/gadgeter/patcher/ApkUtils.kt:56 | paths without backslashes keep their names, so distinct paths never make `zip` fail |
| ApkUtils.EntryNameOfPlainPath | app/src/main/java/top/wsdx233/gadgeter/patcher/ApkUtils.kt:56 | a path without backslashes is its own entry name |
| ApkUtils.AttributeAt | app/src/main/java/top/wsdx233/gadgeter/patcher/ApkUtils.kt:93 | `android:name="…"` with a non-empty quoted group matches at a position exactly when the function gives that group |
| ApkUtils.LastAttribute | app/src/main/java/top/wsdx233/gadgeter/patcher/ApkUtils.kt:93 | the greedy `[^>]*` takes the last attribute match in the range, and there is none when the function finds none |
| ApkUtils.MatchFrom | app/src/main/java/top/wsdx233/gadgeter/patcher/ApkUtils.kt:93 | at a tag start, the match reported is the last attribute before the tag's first `>`, and there is no match when none is reported |
| ApkUtils.Find | app/src/main/java/top/wsdx233/gadgeter/patcher/ApkUtils.kt:93-96 | `Regex.find` reports the match whose tag starts leftmost, or finds nothing when no start matches |
| ApkUtils.FirstName | app/src/main/java/top/wsdx233/gadgeter/patcher/ApkUtils.kt:93-97 | `find(...)?.groupValues?.get(1)`: the group of the first match, or null; `FirstNameIsLeftmost` states which match that is |
| ApkUtils.FindAppConfig | app/src/main/java/top/wsdx233/gadgeter/patcher/ApkUtils.kt:87-103 | a manifest that cannot be read yields two nulls |
| ApkUtils.FirstNameIsLeftmost | app/src/main/java/top/wsdx233/gadgeter/patcher/ApkUtils.kt:93-97 | a name is found exactly when the pattern matches somewhere, and it is the group of the leftmost tag's last attribute before its `>` |
| ApkUtils.AppConfigNames | app/src/main/java/top/wsdx233/gadgeter/patcher/ApkUtils.kt:87-105 | the application name comes from the `<application` pattern and the main activity from the `<activity` pattern |
| Crc32.ChunkedChecksum | app/src/main/java/top/wsdx233/gadgeter/patcher/ApkUtils.kt:63-71 | updating the CRC chunk by chunk, with any read sizes of 1 to 8192 bytes covering the file, gives the CRC-32 of the whole content |
| Crc32.Checksum | app/src/main/java/top/wsdx233/gadgeter/patcher/ApkUtils.kt:63-70 | the CRC-32 of a whole content, starting from 0 as `CRC32()` does; `CheckValue` pins the polynomial and `UpdateConcat` the streaming |
| Crc32.UpdateConcat | app/src/main/java/top/wsdx233/gadgeter/patcher/ApkUtils.kt:67-69 | feeding two pieces one after the other equals feeding their concatenation |
| Crc32.CheckValue | app/src/main/java/top/wsdx233/gadgeter/patcher/ApkUtils.kt:63-70 | the CRC-32 of `123456789` is the standard check value `CBF43926` |
| Crc32.FullReads | app/src/main/java/top/wsdx233/gadgeter/patcher/ApkUtils.kt:65-69 | for every file length there is a read sequence of 1 to 8192 bytes per read covering exactly that length |
| KotlinText.TrimStart | app/src/main/java/top/wsdx233/gadgeter/patcher/GadgetInjector.kt:47 | the result is the suffix that starts at the first non-whitespace character |
| KotlinText.TrimEnd | app/src/main/java/top/wsdx233/gadgeter/patcher/GadgetInjector.kt:76 | the result is the prefix that ends at the last non-whitespace character |
| KotlinText.Trim | app/src/main/java/top/wsdx233/gadgeter/patcher/GadgetInjector.kt:51 | `trim()`: `TrimEnd` of `TrimStart`, whose contracts state the kept part |
| KotlinText.RemoveSuffix | app/src/main/java/top/wsdx233/gadgeter/ui/ProcessingScreen.kt:103 | with the suffix present, the result followed by the suffix is the input; otherwise the input is unchanged |
| KotlinText.ReplaceChar | app/src/main/java/top/wsdx233/gadgeter/ui/ProcessingScreen.kt:140 | every occurrence of the character is replaced and nothing else changes |
| KotlinText.ToIntOrNull | app/src/main/java/top/wsdx233/gadgeter/ui/ProcessingScreen.kt:101 | a parsed value always fits an `Int` |
| KotlinText.DigitsOf | app/src/main/java/top/wsdx233/gadgeter/patcher/GadgetInjector.kt:53 | the result holds only ASCII digits and is no longer than the input; that it keeps every ASCII digit in order is stated by `DigitsOfConcat`, `DigitsOfDigits` and `NoDigits` |
| KotlinText.IntToString | app/src/main/java/top/wsdx233/gadgeter/ui/HomeScreen.kt:132-136 | `Int.toString()`: a minus sign for negatives, then the decimal digits; `IntRoundTrip` states that `toIntOrNull` reads it back |
| KotlinText.IntRoundTrip | app/src/main/java/top/wsdx233/gadgeter/ui/ProcessingScreen.kt:100-101 | `toIntOrNull` of `toString` of an `Int` gives that `Int` back |
| KotlinText.Split | app/src/main/java/top/wsdx233/gadgeter/ui/ProcessingScreen.kt:205 | splitting gives at least one part and no part holds the delimiter |
| KotlinText.SplitJoin | app/src/main/java/top/wsdx233/gadgeter/ui/ProcessingScreen.kt:205 | splitting a list joined with `,` gives the list back when no element holds `,` |
| KotlinText.JoinSplit | app/src/main/java/top/wsdx233/gadgeter/ui/HomeScreen.kt:139 | joining the parts of a split with the delimiter gives the text back |
| KotlinText.JoinToString | app/src/main/java/top/wsdx233/gadgeter/ui/HomeScreen.kt:139 | `joinToString(separator)`: the parts with the separator between neighbours; `SplitJoin` and `JoinSplit` relate it to `split` |
| KotlinText.FilterNotBlank | app/src/main/java/top/wsdx233/gadgeter/ui/ProcessingScreen.kt:205 | the result holds exactly the non-blank parts and is no longer than the input; order and repetitions are stated by the next three lemmas |
| KotlinText.FilterNotBlankAppend | app/src/main/java/top/wsdx233/gadgeter/ui/ProcessingScreen.kt:205 | filtering a concatenation is concatenating the filtered pieces, so kept parts keep their order |
| KotlinText.FilterNotBlankOne | app/src/main/java/top/wsdx233/gadgeter/ui/ProcessingScreen.kt:205 | a single part is dropped exactly when it is blank |
| KotlinText.FilterNotBlankCounts | app/src/main/java/top/wsdx233/gadgeter/ui/ProcessingScreen.kt:205 | each non-blank part is kept as often as it occurs, each blank one never |
| KotlinText.FilterNotBlankKeeps | app/src/main/java/top/wsdx233/gadgeter/ui/ProcessingScreen.kt:205 | a list without blank elements passes the filter unchanged |
| Ordering.LessTotal | app/src/main/java/top/wsdx233/gadgeter/ui/ProcessingScreen.kt:127-128 | two different names are always ordered one way or the other |
| Ordering.LessTransitive | app/src/main/java/top/wsdx233/gadgeter/ui/ProcessingScreen.kt:127-128 | the name order is transitive |
| Ordering.SortedList | app/src/main/java/top/wsdx233/gadgeter/ui/ProcessingScreen.kt:127-128 | the listing holds exactly the set's names, each once, in increasing name order |
| Ordering.SortedDistinct | app/src/main/java/top/wsdx233/gadgeter/ui/ProcessingScreen.kt:127-128 | a strictly sorted listing has no name twice |
| ScratchFiles.NamesDistinct | app/src/main/java/top/wsdx233/gadgeter/ui/HomeScreen.kt:129-146 | the seven scratch files have seven different names |
| HomeScreen.CorrectedIsValid | app/src/main/java/top/wsdx233/gadgeter/ui/HomeScreen.kt:103-116 | every corrected name passes `isSoNameValid` |
| HomeScreen.IsSoNameValid | app/src/main/java/top/wsdx233/gadgeter/ui/HomeScreen.kt:114-116 | a name is valid when it starts with `lib` and ends with `.so`; `ValidNameLength` and `ValidIsNotBlank` state what follows |
| HomeScreen.ValidateAndCorrectSoName | app/src/main/java/top/wsdx233/gadgeter/ui/HomeScreen.kt:103-112 | prepends `lib` when missing, then appends `.so` when missing; `CorrectedIsValid`, `ValidIsUnchanged` and `CorrectionAddsOnlyWhatIsMissing` state its contract |
| HomeScreen.ValidIsUnchanged | app/src/main/java/top/wsdx233/gadgeter/ui/HomeScreen.kt:103-116 | a valid name is left as it is, so correcting twice is correcting once |
| HomeScreen.CorrectionAddsOnlyWhatIsMissing | app/src/main/java/top/wsdx233/gadgeter/ui/HomeScreen.kt:103-112 | the correction is the name with `lib` prepended only when missing and `.so` appended only when missing |
| HomeScreen.ValidNameLength | app/src/main/java/top/wsdx233/gadgeter/ui/HomeScreen.kt:114-116 | a valid name has at least six characters |
| HomeScreen.ValidIsNotBlank | app/src/main/java/top/wsdx233/gadgeter/ui/HomeScreen.kt:120-121 | a valid name is not replaced by the default |
| HomeScreen.RemoveFirstCount | app/src/main/java/top/wsdx233/gadgeter/ui/HomeScreen.kt:473 | `remove` takes away one occurrence of the element and nothing else |
| HomeScreen.RemoveFirstDistinct | app/src/main/java/top/wsdx233/gadgeter/ui/HomeScreen.kt:473 | in a list without duplicates, `remove` leaves exactly the other elements, still without duplicates |
| HomeScreen.AppendFresh | app/src/main/java/top/wsdx233/gadgeter/ui/HomeScreen.kt:475 | adding an absent element keeps the list free of duplicates |
| HomeScreen.Toggled | app/src/main/java/top/wsdx233/gadgeter/ui/HomeScreen.kt:472-476 | the selection after a click: the architecture removed when selected, appended otherwise; `ToggleFlips` states the effect |
| HomeScreen.Checked | app/src/main/java/top/wsdx233/gadgeter/ui/HomeScreen.kt:484-488 | the selection after setting the checkbox: appended when checked and absent, removed when unchecked; `CheckboxSets` states the effect |
| HomeScreen.ToggleFlips | app/src/main/java/top/wsdx233/gadgeter/ui/HomeScreen.kt:472-476 | a click flips the membership of its architecture, keeps the others, and keeps the selection a duplicate-free list of known architectures |
| HomeScreen.CheckboxSets | app/src/main/java/top/wsdx233/gadgeter/ui/HomeScreen.kt:484-488 | after the checkbox change the architecture is selected exactly when checked; the others and the selection invariant are kept |
| HomeScreen.KeptSelf | app/src/main/java/top/wsdx233/gadgeter/ui/HomeScreen.kt:137-149 | an optional scratch file exists afterwards exactly when its condition holds, then with the given text |
| HomeScreen.KeptOthers | app/src/main/java/top/wsdx233/gadgeter/ui/HomeScreen.kt:137-149 | writing or deleting one scratch file leaves every other file as it was |
| HomeScreen.WrittenFiles | app/src/main/java/top/wsdx233/gadgeter/ui/HomeScreen.kt:129-136 | the five always-written files hold the config, version, name, tab and mode |
| HomeScreen.Persisted | app/src/main/java/top/wsdx233/gadgeter/ui/HomeScreen.kt:129-150 | the cache files after the writes of `processWithConfig`; `PersistedFiles`, `PersistedOptionalFiles` and `PersistedOthers` state the result |
| HomeScreen.PersistedFiles | app/src/main/java/top/wsdx233/gadgeter/ui/HomeScreen.kt:129-150 | after all writes those five files still hold those values |
| HomeScreen.PersistedOptionalFiles | app/src/main/java/top/wsdx233/gadgeter/ui/HomeScreen.kt:137-149 | the architecture list exists exactly in manual mode with a non-empty selection, holding it joined with `,`; the local path exists exactly for the local tab with a non-blank path |
| HomeScreen.PersistedOthers | app/src/main/java/top/wsdx233/gadgeter/ui/HomeScreen.kt:129-150 | no other file in the cache directory is touched |
| HomeScreen.Home.constructor | app/src/main/java/top/wsdx233/gadgeter/ui/HomeScreen.kt:75-95 | the screen starts with the default name, version 17.7.3, the remote tab, automatic architectures, an empty selection and no pending dialog |
| HomeScreen.Home.ToggleArchitecture | app/src/main/java/top/wsdx233/gadgeter/ui/HomeScreen.kt:472-476 | the selection becomes the toggled one, its membership of the architecture flips, and no other state changes |
| HomeScreen.Home.SetArchitectureChecked | app/src/main/java/top/wsdx233/gadgeter/ui/HomeScreen.kt:484-488 | the architecture is selected exactly when checked, and no other state changes |
| HomeScreen.Home.WriteScratch | app/src/main/java/top/wsdx233/gadgeter/ui/HomeScreen.kt:129-150 | the scratch files become `Persisted` of the screen's settings |
| HomeScreen.Home.WriteOrDelete | app/src/main/java/top/wsdx233/gadgeter/ui/HomeScreen.kt:137-149 | one file is written when its condition holds and deleted otherwise |
| HomeScreen.Home.ProcessWithConfig | app/src/main/java/top/wsdx233/gadgeter/ui/HomeScreen.kt:118-153 | a valid name (or the default for a blank one) writes the settings and starts processing; an invalid one writes nothing, stores the corrected name and the pending APK, and opens the warning |
| HomeScreen.Home.DoProcessWithCurrentSoName | app/src/main/java/top/wsdx233/gadgeter/ui/HomeScreen.kt:155-181 | writes the settings with the current name, or the default when it is blank, and starts processing |
| HomeScreen.Home.ConfirmAutoCorrect | app/src/main/java/top/wsdx233/gadgeter/ui/HomeScreen.kt:676-683 | the corrected name replaces the typed one and the dialog closes; a pending APK is processed with that name, which is valid |
| HomeScreen.Home.KeepAsIs | app/src/main/java/top/wsdx233/gadgeter/ui/HomeScreen.kt:695-701 | the dialog closes and a pending APK is processed with the name as typed |
| HomeScreen.Home.DismissWarning | app/src/main/java/top/wsdx233/gadgeter/ui/HomeScreen.kt:653 | the dialog closes and nothing else changes |
| ProcessingScreen.ReadSettingsDefaults | app/src/main/java/top/wsdx233/gadgeter/ui/ProcessingScreen.kt:100-221 | with no scratch files: remote source, the default library name, no config, version 16.2.1, automatic architectures, no list, no local path |
| ProcessingScreen.ReadSettings | app/src/main/java/top/wsdx233/gadgeter/ui/ProcessingScreen.kt:100-221 | the settings read from the cache files with the source's fallbacks; `ReadSettingsDefaults`, `ReadSettingsFallbacks` and `Handoff.SettingsRoundTrip` state them |
| ProcessingScreen.ReadSettingsFallbacks | app/src/main/java/top/wsdx233/gadgeter/ui/ProcessingScreen.kt:100-205 | the name is never blank, unparsable numbers fall back to 0, and no listed architecture is blank or holds `,` |
| ProcessingScreen.LoadLibNameOfStandard | app/src/main/java/top/wsdx233/gadgeter/ui/ProcessingScreen.kt:146-148 | for `lib<x>.so` the patch loads `<x>`, the name `System.loadLibrary` maps back to that file |
| ProcessingScreen.LoadLibName | app/src/main/java/top/wsdx233/gadgeter/ui/ProcessingScreen.kt:103-148 | the name passed to `loadLibrary`: `<x>` for `lib<x>.so`, else the name without `.so`; `LoadLibNameOfStandard` and `LoadLibNameOfOther` state both branches |
| ProcessingScreen.LoadLibNameOfOther | app/src/main/java/top/wsdx233/gadgeter/ui/ProcessingScreen.kt:103-148 | any other name loses only its `.so` suffix |
| ProcessingScreen.ConfigNameOfStandard | app/src/main/java/top/wsdx233/gadgeter/ui/ProcessingScreen.kt:272 | the configuration of `lib<x>.so` is `lib<x>.config.so`, never the library's own name |
| ProcessingScreen.ConfigName | app/src/main/java/top/wsdx233/gadgeter/ui/ProcessingScreen.kt:272 | the name without `.so` followed by `.config.so`; `ConfigNameOfStandard` and `ConfigNameLonger` state its relation to the library name |
| ProcessingScreen.ConfigNameLonger | app/src/main/java/top/wsdx233/gadgeter/ui/ProcessingScreen.kt:272 | the configuration name is always longer than the library name, so they never coincide |
| ProcessingScreen.TargetClassFallback | app/src/main/java/top/wsdx233/gadgeter/ui/ProcessingScreen.kt:122-125 | the target is the application class, else the main activity; there is none only when both are missing |
| ProcessingScreen.TargetClass | app/src/main/java/top/wsdx233/gadgeter/ui/ProcessingScreen.kt:122-125 | `applicationName ?: mainActivityName`; `TargetClassFallback` states the fallback |
| ProcessingScreen.DexFiles | app/src/main/java/top/wsdx233/gadgeter/ui/ProcessingScreen.kt:127-128 | the units are exactly the top-level files `classes*.dex`, strictly in name order |
| ProcessingScreen.UnitResultPatchesOneClass | app/src/main/java/top/wsdx233/gadgeter/ui/ProcessingScreen.kt:140-164 | a patched unit differs from its disassembly in one class file, its injected form; the unit fails exactly when both the application class and the main activity are missing or fail |
| ProcessingScreen.InjectUnit | app/src/main/java/top/wsdx233/gadgeter/ui/ProcessingScreen.kt:138-164 | the two attempts succeed exactly when `UnitResult` does, with its staging tree; a failure leaves the staging tree as it was |
| ProcessingScreen.DisassembleAndTry | app/src/main/java/top/wsdx233/gadgeter/ui/ProcessingScreen.kt:135-164 | a unit disassembled into empty staging is patched exactly when `UnitPatches` holds, with the patched staging tree |
| ProcessingScreen.InjectFirstUnit | app/src/main/java/top/wsdx233/gadgeter/ui/ProcessingScreen.kt:132-180 | the loop succeeds exactly when some unit patches; then the first such unit, and only it, is replaced by its reassembly, after disassembling exactly the units up to it and clearing staging once per failed unit; otherwise it changes nothing, having tried every unit |
| ProcessingScreen.OnlyPatchedUnitChanges | app/src/main/java/top/wsdx233/gadgeter/ui/ProcessingScreen.kt:166-174 | replacing the patched unit keeps every other file and every directory |
| ProcessingScreen.LibChildren | app/src/main/java/top/wsdx233/gadgeter/ui/ProcessingScreen.kt:199 | the present architectures are exactly the names of the entries directly below `lib/`, in name order |
| ProcessingScreen.ArchsToFetchRange | app/src/main/java/top/wsdx233/gadgeter/ui/ProcessingScreen.kt:208-218 | there is always an architecture to fetch; the bundled asset forces `armeabi-v7a`; the manual list counts only in manual mode; else the present architectures, or all four when none are present |
| ProcessingScreen.ArchsToFetch | app/src/main/java/top/wsdx233/gadgeter/ui/ProcessingScreen.kt:208-218 | the built-in asset's `armeabi-v7a`, else the manual list in manual mode, else the present architectures or all four; `ArchsToFetchRange` states it |
| ProcessingScreen.GadgetSources | app/src/main/java/top/wsdx233/gadgeter/ui/ProcessingScreen.kt:229-265 | only the download depends on the architecture; a local source without a usable path, or an unknown source type, gives no gadget |
| ProcessingScreen.ArchDirOf | app/src/main/java/top/wsdx233/gadgeter/ui/ProcessingScreen.kt:199-224 | `lib/<n>` is listed as a child of `lib` exactly when `n` is a non-empty name without `/` |
| ProcessingScreen.LibPathBelowLib | app/src/main/java/top/wsdx233/gadgeter/ui/ProcessingScreen.kt:224-226 | every placed file lies below `lib/` |
| ProcessingScreen.LibPathInjective | app/src/main/java/top/wsdx233/gadgeter/ui/ProcessingScreen.kt:224-226 | two architectures without `/` place a file at the same path exactly when architecture and file name agree |
| ProcessingScreen.PlaceArch | app/src/main/java/top/wsdx233/gadgeter/ui/ProcessingScreen.kt:224-275 | one turn makes the architecture's directory; with a gadget it writes it under the library name, and the non-empty config beside it; nothing else changes |
| ProcessingScreen.AnyAddedExists | app/src/main/java/top/wsdx233/gadgeter/ui/ProcessingScreen.kt:267-268 | `addedLib` holds exactly when some architecture obtained a gadget |
| ProcessingScreen.PlaceLibraries | app/src/main/java/top/wsdx233/gadgeter/ui/ProcessingScreen.kt:223-276 | the loop leaves the tree of all turns taken in order, and `addedLib` is set exactly when some turn added a gadget |
| ProcessingScreen.PlacedDirs | app/src/main/java/top/wsdx233/gadgeter/ui/ProcessingScreen.kt:224-225 | the directories afterwards are the old ones plus every architecture's directory and its parents |
| ProcessingScreen.PlacedNames | app/src/main/java/top/wsdx233/gadgeter/ui/ProcessingScreen.kt:223-276 | a file exists afterwards exactly when it existed before or some architecture's turn wrote it |
| ProcessingScreen.PlacedOutsideLib | app/src/main/java/top/wsdx233/gadgeter/ui/ProcessingScreen.kt:223-276 | files outside `lib/` are kept with their content |
| ProcessingScreen.PlacedContent | app/src/main/java/top/wsdx233/gadgeter/ui/ProcessingScreen.kt:226-273 | every architecture that obtained a gadget ends with that gadget, and the non-empty config, in its directory |
| ProcessingScreen.PatchApk | app/src/main/java/top/wsdx233/gadgeter/ui/ProcessingScreen.kt:105-192 | unpacking, the target check, the dex listing, the injection loop and the `lib` directory step give `PatchStep` |
| ProcessingScreen.PatchStep | app/src/main/java/top/wsdx233/gadgeter/ui/ProcessingScreen.kt:105-192 | the run from unpacking to the `lib` directory, stopping with its reason or giving the patched tree; `PatchStepStops` and `PatchStepTree` state it |
| ProcessingScreen.PlaceStep | app/src/main/java/top/wsdx233/gadgeter/ui/ProcessingScreen.kt:195-280 | the gadget placement, failing when no gadget was added; `PlaceStepStops` and `PlaceStepTree` state it |
| ProcessingScreen.Finish | app/src/main/java/top/wsdx233/gadgeter/ui/ProcessingScreen.kt:287-293 | a stop becomes a failed run, a ready tree is repacked in walk order; `FinishRepacks` states it |
| ProcessingScreen.Pipeline | app/src/main/java/top/wsdx233/gadgeter/ui/ProcessingScreen.kt:89-293 | the whole run as one function of the cache files, the APK and the tools; `Run` is proved equal to it and `RepackedKeepsPatched` states what the APK keeps |
| ProcessingScreen.Run | app/src/main/java/top/wsdx233/gadgeter/ui/ProcessingScreen.kt:89-293 | the whole pipeline up to repacking yields `Pipeline` |
| ProcessingScreen.PatchStepStops | app/src/main/java/top/wsdx233/gadgeter/ui/ProcessingScreen.kt:122-184 | the run stops for a missing target class, for a missing dex file and for a failed injection exactly under those conditions; it goes on exactly when some dex unit patches |
| ProcessingScreen.PatchStepTree | app/src/main/java/top/wsdx233/gadgeter/ui/ProcessingScreen.kt:166-192 | the patched tree is the unpacked APK with exactly the first patching unit replaced and a `lib` directory |
| ProcessingScreen.PlaceStepStops | app/src/main/java/top/wsdx233/gadgeter/ui/ProcessingScreen.kt:278-280 | placement fails exactly when no architecture to fetch obtained a gadget |
| ProcessingScreen.PlaceStepTree | app/src/main/java/top/wsdx233/gadgeter/ui/ProcessingScreen.kt:223-280 | placement keeps everything outside `lib/`, adds exactly the architecture directories, and puts each obtained gadget in its place |
| ProcessingScreen.FinishRepacks | app/src/main/java/top/wsdx233/gadgeter/ui/ProcessingScreen.kt:287-293 | repacking a tree whose paths have no backslash always succeeds, and unpacking the result gives the tree's files back |
| ProcessingScreen.RepackedKeepsPatched | app/src/main/java/top/wsdx233/gadgeter/ui/ProcessingScreen.kt:186-293 | the final APK holds, outside `lib/`, exactly the patched APK's files with their content |
| Handoff.SettingsRoundTrip | app/src/main/java/top/wsdx233/gadgeter/ui/ProcessingScreen.kt:100-221 | the processing screen reads back the source type, mode, config, version and name the home screen wrote (a blank name as the default), the local path exactly for the local tab with a non-blank path, and the selection in manual mode |

## Left out

- Screen rendering, the log text, the fractional progress bar, coroutines and threads are left out. The two asynchronous writes run synchronously in the model. `ProgressMessage` gives the text of the progress calls only.
- Disassembly, reassembly, gadget download, the local gadget file, the bundled asset and text encoding are parameters. They are the external smali, baksmali and downloader libraries and device I/O. A download that yields no file, a local path that is blank or missing, and a bundled-asset copy that throws (caught at `ProcessingScreen.kt:234-244`) give a `None` result. Other exceptions thrown inside these tools are not modelled.
- ApkUtils.Unzip: does not model a corrupt or unreadable archive, or an entry whose stream cannot be opened or copied (`ApkUtils.kt:21`, `ApkUtils.kt:32-34`). The source throws there, and `ProcessingScreen.kt:314` ends the run as a failure. The model assumes the archive is readable, so `Unzip` never fails and `ProcessingScreen.Failure` has no archive case.
- ApkUtils.Zip: does not model a walked file that cannot be read (`ApkUtils.kt:64`, `ApkUtils.kt:75`), on which the source throws and the run fails in the same way. The model assumes the tree is readable, so `Zip` fails only on a duplicate entry name.
- Decoding the binary manifest (apk-parser's `manifestXml`) is not modelled. `findAppConfig` receives the decoded text, or `None` when decoding throws.
- DEFLATE compression and the ZIP byte layout are not modelled. An archive is a sequence of name and content entries, and `zip` yields its entries.
- Signing (`signApk`), deleting the work directory and the final `onComplete` call are not modelled. This part of `ProcessingScreen.kt:295-312` is I/O handled by external code.
- `listFiles` and `walkTopDown` give no documented order. The model lists both in name order. `DexFiles` is sorted in the source too.
- Reading a file into lines, and joining them with `\n` on write, are not modelled. A smali file is a sequence of lines.
- Strings are sequences of characters. Kotlin compares UTF-16 code units, which agrees with character order only inside the Basic Multilingual Plane.
- Paths are not normalised. `..` segments and absolute entry names are not modelled, because of zip-slip.
- A directory named like a dex file, a regular file named `lib`, and a library name containing `/` are not modelled. The model treats such paths as plain map keys.
- `InjectUnit` makes both `injectLoadLibrary` calls on the main activity (`ProcessingScreen.kt:160`). `UnitResult` folds them into one `Inject`: `fallbackLevel` is unused, and a first attempt that fails writes nothing, so the second gives the same result.
- `invoke-static {vN}` can only encode registers up to `v15`. The register limit of the Dalvik format is not modelled.
- Crc32.ChunkedChecksum: the read sizes of the input stream are a parameter. Any sizes from 1 to 8192 bytes that cover the file are allowed, and `FullReads` shows such sizes exist.
- KotlinText.ToIntOrNull: accepts only the ASCII digits `0`-`9`. Kotlin's `toIntOrNull` on the JVM also accepts other Unicode decimal digits, such as Arabic-Indic ones, in the source type and mode files (`ProcessingScreen.kt:101`, `ProcessingScreen.kt:203`). `DeclaredCount` is unaffected, because `Regex("[^0-9]")` keeps only ASCII digits before parsing.
- GadgetInjector.DeclarationBumped: states the `+1` only below `Int.MAX_VALUE`. At `Int.MAX_VALUE` the count wraps to `Int.MIN_VALUE`, as `IncInt` states.
- ProcessingScreen.PlaceArch: a turn whose `lib/<arch>` is a regular file is not modelled. This happens in automatic mode when the APK has a file directly below `lib/`, which `listFiles()` lists as a present architecture (`ProcessingScreen.kt:199`, `ProcessingScreen.kt:214-217`). In the source, `mkdirs()` then fails silently and the gadget write below that file throws. For the local gadget (`ProcessingScreen.kt:248`) and the downloaded one (`ProcessingScreen.kt:259`) the exception ends the run as a failure at `ProcessingScreen.kt:314`. For the bundled asset it is caught, and the turn adds nothing. The model instead adds `lib/<arch>` as a directory beside the file and writes the gadget below it.
- ProcessingScreen.PlaceStep: fails only when no gadget was added. The failed run just described, for a regular file below `lib/` with a local or downloaded gadget, is not modelled.
- ProcessingScreen.PlacedContent: assumes architecture names without `/`. With a `/`, two architectures could write the same path.
- ProcessingScreen.PlaceStepTree: states gadget contents only for architecture names without `/`, for the same reason.
- ApkUtils.RepackUnpack: assumes paths without backslashes and not ending in `/`. Under those conditions entry names equal the paths. `ProcessingScreen.FinishRepacks` and `ProcessingScreen.RepackedKeepsPatched` carry the same condition.
