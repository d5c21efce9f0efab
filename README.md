# DiskSpaceManager — a Dafny model of its core

DiskSpaceManager is a console program (`DiskSpaceManagerCore/Program.cs`).
It reports the immediate children of a root directory with their disk usage.
Each subdirectory is shown with the recursive size of its subtree, and each file with its length.
The sizes are written in a friendly unit (bytes, KB, MB, GB).
The lines go to the console, coloured by unit, and optionally to an output file.

The project models the program's logic in six modules:

- `Basics`: `Option`/`Result`, sums, decimal numerals, substring search, ASCII case folding.
- `FileSystem`: the directory tree as a finite datatype.
  Each listing is either `Denied` (an `UnauthorizedAccessException`) or `Listed`.
  Also holds the recursive size accumulator `GetDirectorySize`, as a method with its two loops, and the spec function `Size` it is proved equal to.
- `FriendlyBytes`: `GetFriendlyBytesAmount`, the unit tier chosen by a high-to-low chain of `>=` thresholds.
- `CommandLine`: `ParseCommandLine`, the left-to-right scanner whose index also skips past each value.
- `Output`: `WriteOutput`, the colour choice and the file writes, on a `Sink` class.
  The class holds the console and the optional output file.
- `Report`: the per-child collection into bags, the name sort, the report lines, and the whole run of `Main`, as `Report.Run`.

Points where the model follows the code to the letter:

- `WriteOutput` writes every line to the output file **twice**, with two identical guarded writes. This looks unintended, but the model keeps what the code does (`Output.Doubled`).
- The inner `try`/`catch` around the recursive call (Program.cs:166-173) never fires, because the callee catches its own `UnauthorizedAccessException`. In the model each child simply contributes what its own rules give.
- A refused listing of the *root* (Program.cs:34, 64) is not caught. The whole run fails, and the unhandled-exception hook closes the output file (Program.cs:148-154). The model returns it as the outcome `Failed(RootListingDenied)`.

Parameters stand in for what the model cannot see:

- `fixed2(bytes, divisor)` is the two-decimal floating-point text of `bytes / divisor`.
- `directoryExists` is `Directory.Exists`.
- The tree `root` is what the filesystem answers for the root path.

## Model

| member | source | states |
|---|---|---|
| FileSystem.GetDirectorySize | DiskSpaceManagerCore/Program.cs:156-185 | The running total over the subdirectory loop and then the file loop equals `Size(d)`: 0 when the subdirectory listing is refused, the children's total alone when only the file listing is refused. |
| FileSystem.EmptyDirectorySize | DiskSpaceManagerCore/Program.cs:156-185 | A directory with no children and no files has size 0. |
| FileSystem.DeniedSubdirectoriesSize | DiskSpaceManagerCore/Program.cs:160-184 | A refused `GetDirectories()` gives 0, whatever files the directory holds. |
| FileSystem.DeniedFilesSize | DiskSpaceManagerCore/Program.cs:158-184 | A successful subdirectory listing followed by a refused `GetFiles()` gives exactly the sum of the children's sizes. |
| FileSystem.FullyAccessibleSize | DiskSpaceManagerCore/Program.cs:156-185 | When no listing in the subtree is refused, the size is the sum of every file length anywhere in the subtree. |
| FileSystem.FullyAccessibleSizeOfAll | DiskSpaceManagerCore/Program.cs:164-174 | The same for a sequence of sibling subtrees. |
| FileSystem.SizeAtMostShownLengths | DiskSpaceManagerCore/Program.cs:156-185 | Whatever is refused, the size never exceeds the sum of the file lengths the listings show. |
| FileSystem.SizeOfAllAtMostShownLengths | DiskSpaceManagerCore/Program.cs:164-174 | The same for a sequence of siblings. |
| FileSystem.SizeOfAllConcat | DiskSpaceManagerCore/Program.cs:164-174 | The children's total splits over any division of the child list. |
| FileSystem.SizeOfAllPermutation | DiskSpaceManagerCore/Program.cs:164-174 | Any permutation of the children has the same total. |
| FileSystem.ChildOrderIrrelevant | DiskSpaceManagerCore/Program.cs:164-174 | A directory whose children are listed in another order has the same size. |
| FileSystem.ReplaceChild | DiskSpaceManagerCore/Program.cs:164-174 | Replacing one child changes the parent by exactly the difference of the two children's sizes; every sibling is still added. |
| FileSystem.DeniedChild | DiskSpaceManagerCore/Program.cs:164-174 | A child whose own subdirectory listing is refused drops out of its parent's size, and nothing else does. |
| FileSystem.ChildAtMostParent | DiskSpaceManagerCore/Program.cs:164-174 | Each child's size is at most its parent's. |
| FriendlyBytes.FriendlyBytesAmount | DiskSpaceManagerCore/Program.cs:98-116 | The model of `GetFriendlyBytesAmount`: the `>=` chain from GB down, the two-decimal text plus the unit name, or the integer plus " bytes". It carries no contract of its own; what it means is stated by `FriendlyIsUnitOf` and the lemmas below. |
| FriendlyBytes.UnitRanges | DiskSpaceManagerCore/Program.cs:14-16 | The four tiers are exclusive and are the ranges between the thresholds 1024, 1048576 and 1073741824. |
| FriendlyBytes.Log1024Thresholds | DiskSpaceManagerCore/Program.cs:14-16 | The three thresholds are the first three powers of 1024. |
| FriendlyBytes.FriendlyIsUnitOf | DiskSpaceManagerCore/Program.cs:98-116 | The text is the count in the unit of its base-1024 magnitude, capped at GB: the exact numeral plus " bytes" below 1024, otherwise the two-decimal quotient by that unit's divisor plus the unit's name. |
| FriendlyBytes.DivisorIsLargestFitting | DiskSpaceManagerCore/Program.cs:98-116 | The divisor used is the largest of the four that fits in the count, and the count is below 1024 times it unless the unit is GB. |
| FriendlyBytes.BytesTierIsExact | DiskSpaceManagerCore/Program.cs:115 | Below a kilobyte the text is a numeral followed by " bytes", and the numeral reads back as the count. |
| FriendlyBytes.BytesTierInjective | DiskSpaceManagerCore/Program.cs:115 | Two counts below a kilobyte have the same text only when they are equal. |
| FriendlyBytes.ZeroBytes | DiskSpaceManagerCore/Program.cs:115 | 0 is "0 bytes". |
| FriendlyBytes.LargestByteCount | DiskSpaceManagerCore/Program.cs:110-115 | 1023 is "1023 bytes". |
| FriendlyBytes.Boundaries | DiskSpaceManagerCore/Program.cs:100-113 | Each threshold already belongs to the larger unit; one below it still belongs to the smaller one. |
| FriendlyBytes.UnitReadBack | DiskSpaceManagerCore/Program.cs:98-116 | Whatever the two-decimal rendering gives, the text ends with the name of the count's unit, so the unit can be read back from it. |
| CommandLine.ParseCommandLine | DiskSpaceManagerCore/Program.cs:187-209 | The loop, with its `args[++i]` skip, returns exactly the scan `Parse(args, Unset)`: the fields set, or an unknown name, or a name with no value after it. |
| CommandLine.ParameterNamed | DiskSpaceManagerCore/Program.cs:195 | The model of `Enum.Parse(..., true)` on the two names. It carries no contract of its own; `ParameterNamedSpec` states what it selects. |
| CommandLine.ParameterNamedSpec | DiskSpaceManagerCore/Program.cs:195 | A text selects a name exactly when it equals that name's spelling ignoring ASCII case, in both directions. |
| CommandLine.ParseConcat | DiskSpaceManagerCore/Program.cs:191-206 | A prefix that scans cleanly can be scanned first and the rest continued from its fields. |
| CommandLine.UnknownNameIsFinal | DiskSpaceManagerCore/Program.cs:195 | An unrecognised name stops the scan, whatever follows it. |
| CommandLine.LaterOccurrenceWins | DiskSpaceManagerCore/Program.cs:197-202 | A recognised name sets its field to the next argument, overwriting any earlier value. |
| CommandLine.TrailingNameHasNoValue | DiskSpaceManagerCore/Program.cs:198-201 | A recognised name as the last argument is an error. |
| CommandLine.NameCaseInsensitive | DiskSpaceManagerCore/Program.cs:195 | Names that differ only in ASCII letter case select the same parameter. |
| CommandLine.ArgumentsRoundTrip | DiskSpaceManagerCore/Program.cs:191-206 | Scanning `-Root r -OutputFile o`, with either pair omitted, gives back exactly those fields, whatever the values look like. |
| CommandLine.DoubleDashIsNotAName | DiskSpaceManagerCore/Program.cs:193 | Only the first '-' is cut: "--Root" leaves "-Root", which is not a name. |
| CommandLine.SlashIsNotCut | DiskSpaceManagerCore/Program.cs:193 | An argument with no '-' is matched whole: "/Root" is not a name. |
| CommandLine.TextBeforeDashDropped | DiskSpaceManagerCore/Program.cs:193-198 | Text before the first '-' is dropped: "x-ROOT C:" sets the root to "C:". |
| CommandLine.LoneNameIsMissingValue | DiskSpaceManagerCore/Program.cs:198 | "-Root" alone has no value: an error. |
| CommandLine.IndexOf | DiskSpaceManagerCore/Program.cs:193 | The first position of the character, or -1 exactly when it does not occur. |
| CommandLine.NameText | DiskSpaceManagerCore/Program.cs:193 | The argument itself when it has no '-', otherwise everything after its first '-'. |
| Output.Sink.WriteOutput | DiskSpaceManagerCore/Program.cs:118-146 | With an output file the line is appended to it twice, without one the file is untouched; the console gets the line once, in the colour its text selects. |
| Output.WriteAll | DiskSpaceManagerCore/Program.cs:38-48 | Writing lines in turn appends each one twice to the file (when there is one) and once to the console, in order. |
| Output.Sink.Open | DiskSpaceManagerCore/Program.cs:26-29 | The output file is created empty. |
| Output.Sink.Dispose | DiskSpaceManagerCore/Program.cs:50-53 | The file is closed and keeps its lines. |
| Output.Sink.WriteConsole | DiskSpaceManagerCore/Program.cs:94 | One default-colour console line; the file is untouched. |
| Output.ColourOf | DiskSpaceManagerCore/Program.cs:130-145 | The model of the colour chain: red exactly when the line contains "GB"; yellow exactly when it contains "MB" but not "GB"; green exactly when it contains "KB" but neither of the others; default exactly when it contains none of them. |
| Output.ColouredLines | DiskSpaceManagerCore/Program.cs:130-145 | Console line k is line k itself, in the colour its text selects. |
| Output.DoubledLines | DiskSpaceManagerCore/Program.cs:120-128 | Line k is at file positions 2k and 2k+1. |
| Output.ColouredConcat | DiskSpaceManagerCore/Program.cs:130-145 | The console output of two blocks of lines is the output of the first followed by that of the second. |
| Output.DoubledConcat | DiskSpaceManagerCore/Program.cs:120-128 | The file output of two blocks of lines is the output of the first followed by that of the second. |
| Output.EntryColourFollowsUnit | DiskSpaceManagerCore/Program.cs:130-145 | When neither the name nor the two-decimal number mentions a unit code, an entry line's colour is its size's unit colour: GB red, MB yellow, KB green, bytes default. |
| Output.NameDecidesColour | DiskSpaceManagerCore/Program.cs:130-136 | The whole line is searched, names included: a 10-byte entry named "MBA" is shown yellow. |
| Report.DirectoryEntries | DiskSpaceManagerCore/Program.cs:64-68 | One entry per subdirectory, in listing order: its name and the friendly text of its recursive size. |
| Report.FileEntries | DiskSpaceManagerCore/Program.cs:81-85 | One entry per file: its name and the friendly text of its length. |
| Report.DirectorySizes | DiskSpaceManagerCore/Program.cs:58-73 | The bag has one entry per subdirectory, and an entry is in it exactly when it is some subdirectory's name and friendly size. |
| Report.FileSizes | DiskSpaceManagerCore/Program.cs:75-90 | The bag has one entry per file, and an entry is in it exactly when it is some file's name and friendly length. |
| Report.GetDirectorySizes | DiskSpaceManagerCore/Program.cs:58-73 | Adding one `GetDirectorySize` result per child fills exactly the bag `DirectorySizes`. |
| Report.GetFileSizes | DiskSpaceManagerCore/Program.cs:75-90 | Adding one entry per file fills exactly the bag `FileSizes`. |
| Report.Enumerate | DiskSpaceManagerCore/Program.cs:38 | Enumerating a bag yields each of its elements exactly once, in some order. |
| Report.Insert | DiskSpaceManagerCore/Program.cs:38 | One step of the sort: the result holds exactly the old entries plus the new one. |
| Report.SortByName | DiskSpaceManagerCore/Program.cs:38 | The model of `OrderBy(d => d.Key)`: the result keeps every entry as often as it occurs, and has the same length. |
| Report.SortByNameSpec | DiskSpaceManagerCore/Program.cs:38 | `OrderBy(d => d.Key)` gives a sequence sorted by name that is a permutation of its input. |
| Report.InsertSorted | DiskSpaceManagerCore/Program.cs:38 | Inserting one entry into a sorted sequence keeps it sorted and adds exactly that entry. |
| Report.InsertStable | DiskSpaceManagerCore/Program.cs:38 | Insertion places the new entry after every entry of the same name and keeps the order of the entries sharing any name. |
| Report.SortByNameStable | DiskSpaceManagerCore/Program.cs:38 | `OrderBy` is stable: for every name, the entries carrying it come out in their input order. |
| Report.SortedUnique | DiskSpaceManagerCore/Program.cs:38 | Two name-sorted sequences with the same entries and no name shared by two entries are equal. |
| Report.SortDeterminedByBag | DiskSpaceManagerCore/Program.cs:33-38 | With unique names, the sorted directory lines depend only on the bag, not on its enumeration order. |
| Report.DistinctChildrenUniqueNames | DiskSpaceManagerCore/Program.cs:64-68 | Subdirectories with distinct names give a bag with unique names. |
| Report.EntryLines | DiskSpaceManagerCore/Program.cs:40 | Line k of a block is entry k's name, a tab, and its size text. |
| Report.ReportLines | DiskSpaceManagerCore/Program.cs:36-48 | The lines `Main` writes: d + f + 2 of them, the subdirectory header with count d first and the file header with count f at position d + 1. |
| Report.ReportShape | DiskSpaceManagerCore/Program.cs:36-48 | The report has d + f + 2 lines: the subdirectory header with count d, the d directory lines sorted by name (a permutation of the bag's order), the file header with count f, then the f file lines in enumeration order. |
| Report.ReportIgnoresDirectoryOrder | DiskSpaceManagerCore/Program.cs:36-48 | With unique names, two enumeration orders of the directory bag give the same report. |
| Report.SortExample | DiskSpaceManagerCore/Program.cs:38-41 | Subdirectories "b", "a", "c" are reported as "a", "b", "c". |
| Report.TwoFilesBag | DiskSpaceManagerCore/Program.cs:75-90 | Files of 500 and 2048 bytes give the entries "500 bytes" and the two-decimal KB text. |
| Report.TwoFilesOrders | DiskSpaceManagerCore/Program.cs:75-90 | The bag of those two files can only be enumerated as the 500-byte entry then the 2048-byte one, or the other way round. |
| Report.TwoLineReport | DiskSpaceManagerCore/Program.cs:36-48 | No subdirectories and two file entries give "root 0 SubDirectories:", "root 2 Files:" and the two entry lines. |
| Report.TwoFilesReport | DiskSpaceManagerCore/Program.cs:31-48 | Files of 500 and 2048 bytes, enumerated in either order, give "root 0 SubDirectories:", "root 2 Files:", then "a\t500 bytes" and the KB line in one of the two orders. |
| Report.IsNullOrWhiteSpace | DiskSpaceManagerCore/Program.cs:26 | A missing, empty or all-white-space output path creates no file; white space is that of `char.IsWhiteSpace` (`Report.IsWhiteSpace`: the Unicode separators, U+0009 to U+000D and U+0085). It carries no contract of its own; `Report.Expected` states that a blank path creates no file. |
| Report.RootExists | DiskSpaceManagerCore/Program.cs:211-217 | Validation passes exactly when a root was parsed and `Directory.Exists` holds for it; a missing `-Root` leaves the field `null`, which does not exist, so validation fails. It carries no contract of its own; `Report.Expected` states that the run completes only when it holds. |
| Report.Expected | DiskSpaceManagerCore/Program.cs:20-56 | What a run leaves. Every file opened is closed. The run completes exactly when the command line parses, the root exists and both root listings succeed. Any failure other than a refused root listing leaves no file and no console output. A file is created only when the parsed output path is not blank. |
| Report.Collected | DiskSpaceManagerCore/Program.cs:26-55 | What happens after validation. The file is created and closed exactly when an output path was given. The run completes exactly when both root listings succeed. A completed run has d + f + 3 console lines ending with the prompt, and twice d + f + 2 file lines when there is a file. |
| Report.WriteSection | DiskSpaceManagerCore/Program.cs:36-48 | A header and its block go to the file (doubled, when there is one) and to the console in order. |
| Report.WriteReport | DiskSpaceManagerCore/Program.cs:36-48 | The four parts of the report reach the file (doubled) and the console exactly as the lines `ReportLines`. |
| Report.Collect | DiskSpaceManagerCore/Program.cs:31-55 | After validation: a refused root listing fails the run and closes any open file; otherwise the report is written, the file is closed, and the prompt follows on the console. |
| Report.Run | DiskSpaceManagerCore/Program.cs:20-56 | For some enumeration order of each bag, the run's outcome, file and console are those of `Expected`. The cases are: a bad command line or a missing root fails with nothing written and no file; a refused root listing fails after creating and closing the file; otherwise the doubled report is in the file and the coloured report plus the prompt is on the console. |

## Left out

- Concurrency: `Task.Run`, `Parallel.ForEach` and `ConcurrentBag` become a sequential loop into a multiset. Enumeration picks any order, which is all the bag promises.
- Floating point: the "F2" rendering of `(double)bytes / divisor` is the parameter `fixed2`; nothing is claimed about its digits.
- Real I/O: directory and file listings, `FileInfo.Length` and `Directory.Exists` are the datatype tree and a predicate. The `StreamWriter` and the console are the `Sink`'s sequences. `Console.ReadLine` in `Pause` and the console colour API are not modelled beyond the colour chosen.
- Symlink and junction cycles: a finite datatype tree cannot express them.
- `Enum.Parse` corner cases: numeric strings, surrounding white space, comma-separated lists and any enumeration member other than `Root` and `OutputFile`. The `CommandLineParameters` enumeration is not part of this model.
- Case folding: `Enum.Parse` with `ignoreCase` folds ASCII letters only in the model.
- `OrderBy(d => d.Key)` uses the culture-sensitive default comparer, under which two different names can compare equal (for example names that differ only by an ignorable code point); the stable sort then keeps such lines in the bag's race-determined order. The model uses ordinal order, which never ties on different names, so `Report.ReportIgnoresDirectoryOrder` and `Report.SortDeterminedByBag` hold only for that order.
- `IndexOf("-")` is modelled as an ordinal search for the character '-'.
- Overflow: sizes are unbounded `nat`; the `long` accumulator's overflow is not modelled.
- Other exceptions: I/O errors other than `UnauthorizedAccessException`, a failure to create the output file, and the text of the `ValidationException` message are not modelled.
- The unhandled-exception hook: its output and the process ending.
