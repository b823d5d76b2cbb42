# newest, modelled in Dafny

`newest` walks one or more directory trees, collects a timestamp for every
regular file (and, when asked, every directory), sorts the collected entries
by that timestamp, and prints the first N of them. The timestamp is the
modification time by default, or the access time (`-a`) or inode-change time
(`-c`). The order is newest first by default and oldest first with `-R`.
Options also control
the count (`-n N`), whether directories are included (`-d`), whether only
names are printed (`-q`), a readable time format (`-H`), and skipping empty
objects (`-e`).

The model covers the program's pipeline as the C code runs it:

- `entries.dfy` (module `Entries`): the data model. It holds the stat
  fields the program reads, nftw's flags, one callback (`Visit`), an
  `ENTRY` (`Entry`), the global settings (`Config`), and the messages and
  exit codes.
- `decimal.dfy` (module `Decimal`): decimal numerals, as `printf("%d")`
  writes them and as `strtol` reads them, with their round trip.
- `options.dfy` (module `Options`): the option loop of `main`.
  - The `-n` check covers leading space, the refused leading `-`, and
    `strtol` with LONG_MAX clamping.
  - The `(int)` cast is stored into an `unsigned long`. It is modelled
    explicitly, so `-n 4294967296` is refused and `-n 4294967295` becomes
    2^64 - 1.
  - It also covers the refusal of `-a` together with `-c`, and the flags the
    other cases set.
- `collector.dfy` (module `Collector`): `push_result` and `process`.
  - The class `ResultSet` holds the `results` array and `result_total`.
    Each push reallocates the array one slot larger and stores the new
    entry at the end.
  - Functions give the entries and diagnostics a walk produces (`Collected`,
    `Warnings`), and lemmas state the filtering policy.
- `ordering.dfy` (module `Ordering`): `entry_compare` and the `qsort` call.
  The sort is an in-place insertion sort on the array, proved sorted by the
  comparator and a permutation of its input. The sequence of timestamps of
  any sorted permutation is proved unique, because ties come out in no
  guaranteed order.
- `reporter.dfy` (module `Reporter`): the lines `show_output` prints. It also
  models the loop as written, which reads past the end of `results` (see
  Findings).
- `newest.dfy` (module `Newest`): the rest of `main`.
  - No directory argument is an error.
  - Each root is stat'ed and walked in turn, stopping at the first root that
    is missing or not a directory.
  - The program then sorts and prints. `Program` puts the option loop in
    front of all this.
- `debug_newest.dfy` (module `DebugNewest`): the earlier variant in
  `debug/src/newest.c`, as a second configuration of the same components.
  - It sorts by ctime and collects files only.
  - It applies no size filter. Its comparator always orders oldest first.
  - `show_output` prints every entry's bare timestamp.
- `scenarios.dfy` (module `Scenarios`): small trees and command lines, and
  what the model is proved to make of them.
  - Newest-first and oldest-first reports of three files.
  - The empty-file filter.
  - A root that is a regular file.
  - `-a` together with `-c`.

The file system walk is a parameter. A directory argument is given as its
name, whether `stat` succeeds on it, whether it is a directory, and the
sequence of visits nftw would make under it. `localtime`/`strftime` is a
function parameter `human`.

The usage text (src/newest.c:67) lists `-m, --mtime` as the way to ask for the modification time.
The code's switch has no `case 'm'` (nor `case 't'`), although getopt
accepts both letters. Both fall to `default:` and exit with failure. The
model follows the code (`Options.OptionError` maps `MTime` to `BadOption`, and
`Options.MTimeRefused` proves every command line holding `-m` refused).

## Model

| member | source | states |
|---|---|---|
| Collector.ResultSet.constructor | src/newest.c:107-110 | the result set starts empty: no entry, a total of 0 |
| Collector.ResultSet.Append | debug/src/newest.c:211-229 | push_result(sort_time, name): the array grows by exactly one slot, the new entry is last, every earlier entry is kept |
| Collector.ResultSet.PushResult | src/newest.c:271-303 | push_result(sb, name): appends one entry holding the path unchanged and the time chosen by the flags; the earlier entries are untouched |
| Collector.SelectTimeFollowsOption | src/newest.c:289-294 | the timestamp is atime under -a, ctime under -c, and mtime otherwise |
| Collector.VisitPolicy | src/newest.c:311-328 | per flag, what process pushes and what it reports. An empty object under -e gives neither. A directory is pushed only with -d. DNR and NS are reported and not pushed. A symbolic link gives neither. A visit that is reported is never pushed |
| Collector.ResultSet.Process | src/newest.c:305-331 | the callback returns 0, appends exactly the entries VisitPolicy allows and emits exactly its diagnostic |
| Collector.ResultSet.Walk | src/newest.c:251-253 | nftw over one root appends the entries of the accepted visits in visit order and emits their diagnostics in order |
| Collector.CollectedAppend | src/newest.c:235-254 | walking two stretches of visits collects the concatenation of what each collects |
| Collector.WarningsAppend | src/newest.c:235-254 | the same holds for the diagnostics |
| Collector.CollectedMembership | src/newest.c:305-331 | an entry is collected if and only if some accepted visit produced it |
| Collector.CollectedFilter | src/newest.c:311-327 | every collected entry comes from a file visit, or a directory visit under -d, and under -e never from an empty object |
| Collector.ResultSet.SortResults | src/newest.c:256 | after the qsort call the results are sorted by entry_compare and are a permutation of what was collected |
| Collector.ResultSet.ShowOutput | src/newest.c:333-358 | the lines printed are Report of the results: the first min(n, total) entries rendered in order, nothing when there are none |
| Ordering.Compare | src/newest.c:361-377 | entry_compare returns 0 exactly when the two times are equal |
| Ordering.CompareSign | src/newest.c:368-376 | -1, 0 or 1. It is -1 exactly when e1 is newer (older with -R) and 1 exactly when e1 is older (newer with -R) |
| Ordering.CompareAntisymmetric | src/newest.c:361-377 | swapping the arguments negates the result |
| Ordering.CompareTotalPreorder | src/newest.c:361-377 | "not after" is total and transitive, as qsort needs |
| Ordering.SortedByTime | src/newest.c:368-369 | sorted means non-increasing time by default and non-decreasing with -R |
| Ordering.SortInPlace | src/newest.c:256 | the in-place sort leaves the array sorted and a permutation of its old contents |
| Ordering.SortedTimesDetermined | src/newest.c:256 | any two sorted permutations of the same entries have the same sequence of times, whatever the ties |
| Ordering.TimesMultiset | src/newest.c:256 | equal multisets of entries give equal multisets of times |
| Ordering.RankedUnique | src/newest.c:256 | two ordered sequences of times with the same multiset are equal |
| Reporter.Report | src/newest.c:344-357 | the report has min(n, total) lines, line i rendering entry i |
| Reporter.LineReadsBack | src/newest.c:345-355 | a line starts with the whole name. With -q it is the name alone; otherwise a tab follows the name. In numeric mode the text after the tab reads back as the entry's time |
| Reporter.AsWrittenReadsPastEnd | src/newest.c:340-344 | with one entry and -n 2 the loop as written reads results[1], past the end, while Report prints one line |
| Reporter.AsWrittenAgreesInBounds | src/newest.c:340-357 | the loop as written stays in bounds exactly when there are no results or n <= total, and then prints exactly Report |
| Decimal.DigitsRoundTrip | src/newest.c:187 | the digits of n read back as n |
| Decimal.DecimalRoundTrip | src/newest.c:354 | the printed numeral of a time, sign included, reads back as that time |
| Options.SkipSpace | src/newest.c:180 | what is left is a suffix of the argument, what was dropped is all white space, and what is left does not start with white space |
| Options.ParseCount | src/newest.c:179-196 | the -n check, pointer loop and all, computes CountValue |
| Options.CountValue | debug/src/newest.c:145-162 | the same check in the earlier variant. An accepted count is at least 1 |
| Options.Clamp | src/newest.c:187 | strtol's value never exceeds LONG_MAX and is unchanged below it |
| Options.StoredCountSmall | src/newest.c:187 | every value below 2^31 survives the int cast and the store into the unsigned long |
| Options.StoredCountWraps | src/newest.c:187 | 2^32 is stored as 0, and both 2^32 - 1 and LONG_MAX are stored as 2^64 - 1 |
| Options.CountOfNumeral | src/newest.c:179-196 | a numeral after white space, with or without '+', is refused exactly when its clamped, cast value is 0 and is otherwise accepted as that value |
| Options.CountAcceptsNumeral | src/newest.c:179-196 | every count from 1 to 2^31 - 1 is accepted as written |
| Options.CountWraps | src/newest.c:187-195 | -n 4294967296 is refused, and 4294967295 and values past LONG_MAX become 2^64 - 1 |
| Options.CountRejectsNegative | src/newest.c:182-185 | a leading '-' after white space is refused as negative, whatever follows |
| Options.CountRejectsTrailing | src/newest.c:189-195 | digits followed by an unconverted character are refused |
| Options.CountRejectsZero | src/newest.c:192-195 | a zero count, however many zeros spell it, is refused |
| Options.CountAcceptedShape | src/newest.c:179-196 | after its leading space, an accepted argument is an optional '+' and digits only, whose clamped, cast value is the count |
| Options.SettingsSnoc | src/newest.c:161-214 | each accepted option changes exactly its own setting. A later -n overrides an earlier one |
| Options.MTimeRefused | src/newest.c:159-227 | a command line holding -m always has a refused option, since the switch has no case for it and it falls to default |
| Options.BothTimesRejected | src/newest.c:163-178 | a command line holding both -a and -c, in either order, has a refused option |
| Options.ApplyOption | src/newest.c:161-227 | one switch case: it refuses exactly as OptionError says, and otherwise records the option as Settings does |
| Options.ParseOptions | src/newest.c:159-228 | the loop succeeds exactly when every option passes. On success the settings are Settings(opts), with a count of at least 1 and never both -a and -c. On failure the error is that of the first refused option |
| Newest.FirstBadRoot | src/newest.c:235-248 | the index of the first root that is missing or not a directory: every root before it resolves |
| Newest.WalkRoot | src/newest.c:236-253 | one turn of the root loop adds that root's entries and diagnostics to what came before |
| Newest.WalkResolved | src/newest.c:235-254 | the loop walks exactly the roots before the first bad one, collecting their entries and diagnostics in order |
| Newest.WalkRoots | src/newest.c:235-254 | it succeeds exactly when every root resolves. Otherwise the bad root's message follows the diagnostics of the roots walked before it |
| Newest.Run | src/newest.c:230-258 | with no root: failure and the "no dir" message. On success the output is the report of a sorted permutation of everything collected. On failure there is no output and the status is 1 |
| Newest.Program | src/newest.c:159-258 | a refused option ends the run with no output: status 0 and nothing more for -h, status 1 and its usage error otherwise. -a with -c is always refused. Accepted options give Run over Settings(opts) |
| DebugNewest.EntryCompare | debug/src/newest.c:267-282 | returns 0 exactly on equal times |
| DebugNewest.EntryCompareOldestFirst | debug/src/newest.c:274-281 | it is the later comparator with -R: negative exactly when e1 is older, positive exactly when it is newer |
| DebugNewest.ProcessPolicy | debug/src/newest.c:237-249 | only a file is pushed, with its ctime. DNR and NS are reported whatever the size. Directories and links give nothing |
| DebugNewest.CollectsFilesOnly | debug/src/newest.c:244-248 | an entry is collected if and only if it is (ctime, path) of some file visit |
| DebugNewest.Process | debug/src/newest.c:231-252 | the callback returns 0, appends what ProcessPolicy allows and emits its diagnostic |
| DebugNewest.SortOldestFirst | debug/src/newest.c:202 | after the qsort call the times are non-decreasing and the results a permutation of what was collected |
| DebugNewest.Report | debug/src/newest.c:259-263 | one line per entry, whatever -n says |
| DebugNewest.ReportReadsBack | debug/src/newest.c:262 | each printed line reads back as that entry's time |
| DebugNewest.ShowOutput | debug/src/newest.c:254-264 | the lines printed are Report of all the results |
| Scenarios.CollectedABC | src/newest.c:305-331 | files a, b, c (mtimes 100, 300, 200) are collected in visit order with their mtimes |
| Scenarios.NewestFirstABC | src/newest.c:256 | newest first, the only possible sorted order is b, c, a |
| Scenarios.ScenarioA | src/newest.c:333-358 | with -q -n 2 the report is b, then c |
| Scenarios.OldestFirstABC | src/newest.c:368-369 | oldest first, the only possible sorted order is a, c, b |
| Scenarios.ScenarioB | src/newest.c:333-358 | with -R -q the report is a |
| Scenarios.ScenarioC | src/newest.c:311-312 | with -e an empty file is not collected and a non-empty one is |
| Scenarios.ScenarioD | src/newest.c:245-248 | a root that is a regular file: status 1, no output, the "no directory" message |
| Scenarios.ScenarioE | src/newest.c:163-178 | -a then -c: status 1, no output, a usage error for the time conflict |

## Left out

- nftw, stat and S_ISDIR are not executed. A root is given as its stat outcome and its sequence of visits, in nftw's order. The fd limit, FTW_PHYS itself, and the "stopped early" message are not modelled. That message cannot arise from the callback, which always returns 0.
- getopt_long's own work is not modelled: long names, argv permutation, `optind` and the '?' and ':' messages. The model starts from the options already split, with the directory arguments separate. Long options that set a flag (`case 0`) do not occur in this program.
- The usage and help texts are not modelled. `-h` is modelled only as status 0 with nothing else.
- The chatter lines "findin' newest ..." and "showing ... results", and the wording of every message, are not modelled. A message is a `Diagnostic` value.
- `strerror(errno)` in the NS message is not modelled.
- `localtime` and `strftime` are the function parameter `human`.
- Options.IsSpace: `isspace` is taken in the C locale, though `setlocale(LC_ALL, "")` runs before the `-n` check (src/newest.c:157). The model does not capture how another LC_CTYPE changes which characters `isspace` (and `strtol`) skip.
- Ordering.Compare: `difftime` computes in `double` (src/newest.c:368-369, debug/src/newest.c:274). The model compares the integer times exactly, and does not capture rounding of the difference in floating point.
- Reporter.RenderLine: the numeric column is the full timestamp. The model does not capture what `%d` does with a 64-bit `time_t` on a given ABI.
- Options.Strtol: assumes LP64 (a 64-bit `long`) for LONG_MAX. `errno` is not modelled.
- Allocation is not modelled: realloc, malloc and strdup failure (the "out of memory" exit), and the freeing loop at exit. `ResultSet.Append` copies into a fresh array one slot larger, standing in for realloc.
- The rest of the debug variant's `main` is not modelled: `atime` and `ctime` are read uninitialised, `argv[1]` is the only root, and `reverse` is unused. Only its `-n` check is modelled, which is identical to the later one (`Options.CountValue`).
- Newest.Run: the order among entries with equal timestamps is not fixed, since `qsort` is not stable. The run returns its sorted sequence as a ghost witness. Any two sorted witnesses agree on their times (`Ordering.SortedTimesDetermined`).
- Concurrency and signals play no part in the program and are not modelled.

## Findings

| source | as written | input that shows it | evidently intended | confidence | as-written member | corrected member |
|---|---|---|---|---|---|---|
| src/newest.c:344 | `for(i = 0; i < n_to_display; i++)` reads `results[i]` with no bound on `result_total` | one regular file under the root and `-n 2`: the loop reads `results[1]`, past the end of the array | print the first `min(n_to_display, result_total)` entries | not executed | Reporter.AsWrittenReadsPastEnd | Collector.ResultSet.ShowOutput |
