# dirsample, modelled in Dafny

dirsample prints one path per directory argument. It reads the directory,
keeps the entries whose names contain an optional pattern (case-sensitive by
default, ASCII case-insensitive with `-i`), sorts them by name, and picks the
entry at the largest multiple of 7 below the count. Each path is printed as
`DIR/ENTRY`. Nothing is printed for a directory whose scandir count is 0 or
-1, that is, one that cannot be read or has no matching entry. `-h` prints
usage and exits.

readdir reports `.` and `..` for every readable directory. The examples'
raw listings contain them; the model itself accepts any listing. The filter
sees them like any other entry: with no pattern (or the empty pattern) a
directory with no files of its own prints `DIR/.`, and a non-empty pattern
holding a character other than a dot rejects both.

The model follows the single source file `dirsample.c`:

- `wrappers.dfy` (`Wrappers`): `Option`, used where C uses a pointer that may be NULL.
- `cstrings.dfy` (`CStrings`): `strstr` and `strcasestr` as first-occurrence searches. Each is proved against an independent definition of "occurs at index k".
- `filters.dfy` (`Filters`): entries, the filter configuration and the two scandir callbacks, `filter_by_string` and `filter_dir`. The C function pointer becomes the closed datatype `Filter`.
- `listing.dfy` (`Listing`): what `scandir(..., filter, alphasort)` returns. This is the count (`-1` for an unreadable directory) and the accepted entries, sorted byte-wise by name.
- `sampler.dfy` (`Sampler`): `print_sample_entry`. The `o_index` loop is a method with loop invariants, proved equal to the closed form `7 * ((num - 1) / 7)`.
- `cli.dfy` (`Cli`): `main`. The getopt loop folds tokenised options into a `Config`. The directory loop concatenates the per-directory lines.

The globals `filter_string` and `case_sensitive` become an explicit `Config`
value. The process's standard output becomes a returned string, and
`exit(0)` after `-h` becomes the `Usage`/`UsageExit` variant. The file system
is a map from directory name to raw listing; a name that is missing from the map
is a directory that cannot be opened.

The doc comment above `filter_by_string` (dirsample.c:28-30) says a NULL
`filter_string` yields 0. The code returns 1 (dirsample.c:36, 47), so the
model follows the code: with no pattern, every entry is accepted.

## Model

| member | source | states |
|---|---|---|
| `CStrings.FindFrom` | dirsample.c:38 | the result is the first index at or after k where the pattern occurs; None exactly when no such index exists |
| `CStrings.StrStr` | dirsample.c:38 | strstr is non-NULL iff the pattern is a contiguous substring of the name; the index returned is the first occurrence |
| `CStrings.CaseOccursAtLower` | dirsample.c:42 | a case-ignoring match at k is the same as an exact match at k once both strings are ASCII lower-cased |
| `CStrings.StrCaseStr` | dirsample.c:42 | strcasestr is non-NULL iff the pattern matches somewhere, comparing bytes without regard to ASCII case; it returns the first such position |
| `CStrings.OccursAtLower` | dirsample.c:38-44 | an exact occurrence is still an occurrence after lower-casing both strings |
| `CStrings.EmptyPatternFound` | dirsample.c:38 | the empty pattern is found at index 0 of every name |
| `Filters.FilterDir` | dirsample.c:54-60 | the definition: accept exactly the entries whose d_type is DT_DIR (no contract of its own; `Filters.FilterDirIgnoresName` states its properties) |
| `Filters.FilterByString` | dirsample.c:32-48 | no pattern: accept; case-sensitive: accept iff the pattern occurs in the name; case-insensitive: accept iff it matches somewhere ignoring ASCII case |
| `Filters.NoPatternAcceptsAll` | dirsample.c:36-47 | with filter_string NULL every entry is accepted, in either case mode |
| `Filters.InsensitiveMeaning` | dirsample.c:41-44 | in case-insensitive mode, an entry is accepted iff the lower-cased pattern occurs in the lower-cased name |
| `Filters.EmptyPatternAcceptsAll` | dirsample.c:36-47 | the empty pattern accepts every name in both modes |
| `Filters.SensitiveImpliesInsensitive` | dirsample.c:37-44 | every name accepted case-sensitively is also accepted case-insensitively |
| `Filters.FilterDirIgnoresName` | dirsample.c:54-60 | filter_dir accepts iff the entry type is a directory, whatever the name |
| `Filters.DotsRejected` | dirsample.c:36-47 | a name made only of dots, such as `.` or `..`, fails every pattern that holds a byte other than a dot, case-sensitively and case-insensitively |
| `Filters.FilterExamples` | dirsample.c:36-47 | "ab" matches "cabd" and not "acd"; "AB" does not match "abc" case-sensitively but does match it case-insensitively |
| `Listing.NameLe` | dirsample.c:73 | strcmp(a, b) <= 0, the order alphasort uses in the C locale; a name is ordered before every name it is a prefix of |
| `Listing.NameLeTotal` | dirsample.c:73 | byte-wise name order is total |
| `Listing.NameLeTransitive` | dirsample.c:73 | byte-wise name order is transitive |
| `Listing.NameLeReflexive` | dirsample.c:73 | byte-wise name order is reflexive |
| `Listing.NameLeAntisymmetric` | dirsample.c:73 | two names ordered both ways are equal |
| `Listing.Select` | dirsample.c:73 | the filtered listing holds each accepted entry as often as the raw listing does and no rejected entry |
| `Listing.SelectAll` | dirsample.c:73 | a filter that accepts everything keeps the raw listing unchanged |
| `Listing.SelectSkip` | dirsample.c:73 | an entry the filter rejects at the front of the listing is dropped and the rest is filtered as before |
| `Listing.Insert` | dirsample.c:73 | inserting into a sorted listing adds exactly that entry and keeps the listing sorted |
| `Listing.SortByName` | dirsample.c:73 | the sorted listing is in ascending byte-wise name order and is a permutation of its input |
| `Listing.SortSortedIdentity` | dirsample.c:73 | sorting a listing that is already in order leaves it unchanged |
| `Listing.ScanDir` | dirsample.c:73 | unreadable directory: -1 and no entries; otherwise the count is the number of candidates, and the candidates are sorted, a permutation of the accepted entries, and exactly the accepted entries of the listing |
| `Listing.ScanOfSortedSelection` | dirsample.c:73 | when the accepted entries are already in order, the namelist is exactly those entries in that order |
| `Listing.SortedPermutationUnique` | dirsample.c:73 | with distinct names, exactly one sorted permutation exists, so the candidate list does not depend on the sorting algorithm |
| `Listing.SortExample` | dirsample.c:73 | survivors ["b", "a", "c"] become the candidate list ["a", "b", "c"] |
| `Sampler.SampleIndex` | dirsample.c:80-85 | for num >= 1 the selected index is a multiple of 7, below num, and at most 7 below num |
| `Sampler.SampleIndexUnique` | dirsample.c:80-85 | those three bounds determine the index: it is 7 * ((num - 1) / 7) |
| `Sampler.SampleIndexStep` | dirsample.c:81-84 | one more loop iteration moves the index to i when i is a multiple of 7 and otherwise keeps it |
| `Sampler.SampleIndexExamples` | dirsample.c:80-85 | N = 1, 7, 8, 14, 15 select index 0, 0, 7, 7, 14 |
| `Sampler.SelectIndex` | dirsample.c:80-85 | the for-loop leaves o_index at 7 * ((num - 1) / 7) for num >= 1, and at 0 when the loop does not run |
| `Sampler.SampleLine` | dirsample.c:70-88 | the definition: no line when the scandir count is 0 or -1, otherwise dir_name, "/", the name at the selected index, and a newline (no contract of its own; `Sampler.PrintSampleEntry`, `Sampler.SampleLineEmpty` and `Sampler.SampleLineChosen` state its properties) |
| `Sampler.PrintSampleEntry` | dirsample.c:70-88 | no line iff the directory is unreadable or no entry passes the filter; otherwise the line is dir_name, "/", the name of the candidate at the selected index, and a newline |
| `Sampler.SampleLineEmpty` | dirsample.c:75-78 | no line exactly when scandir fails or nothing passes the filter |
| `Sampler.SampleLineChosen` | dirsample.c:87 | a printed line starts with dir_name unchanged and a slash, ends with a newline, and names an entry of that directory that passes the filter |
| `Sampler.LineShape` | dirsample.c:87 | a line in the format "%s/%s\n" starts with the directory name unchanged, then a slash, and ends with a newline |
| `Sampler.SampleOfSortedListing` | dirsample.c:73-87 | when everything passes and the listing is already sorted, the entry at the selected position of the raw listing is printed |
| `Sampler.SampleLineOfCandidates` | dirsample.c:73-87 | when the namelist is a given non-empty list, the line names its entry at the selected index |
| `Sampler.EightEntriesSorted` | dirsample.c:73 | e0 .. e7 are in byte-wise order |
| `Sampler.EightEntriesAccepted` | dirsample.c:37-40 | every one of e0 .. e7 passes -p e |
| `Sampler.TmpDSelected` | dirsample.c:73 | in /tmp/d, holding `.`, `..` and e0 .. e7, -p e rejects the dot entries and keeps e0 .. e7 in order |
| `Sampler.TmpDCandidates` | dirsample.c:73 | so the namelist of /tmp/d under -p e is e0 .. e7 |
| `Sampler.EighthIsE7` | dirsample.c:80-85 | of eight candidates the eighth, e7, is selected |
| `Sampler.EightEntriesExample` | dirsample.c:73-87 | /tmp/d holding `.`, `..` and e0 .. e7, sampled with -p e, prints /tmp/d/e7 |
| `Sampler.NothingAcceptedExample` | dirsample.c:73-78 | an unreadable directory (count -1) prints nothing, and so does a directory holding only `.` and `..` under -p x (count 0) |
| `Sampler.DotEntriesSorted` | dirsample.c:73-85 | `.` sorts before `..`, and of two candidates the first is selected |
| `Sampler.EmptyDirectoryExample` | dirsample.c:73-87 | a readable directory with no files of its own still lists `.` and `..`; with no pattern both pass and DIR/. is printed |
| `Cli.Apply` | dirsample.c:130-142 | one option: after -h, or once stopped, the result is the usage exit; -i turns case sensitivity off; -p replaces the pattern; anything else leaves the configuration as it was |
| `Cli.ApplyAll` | dirsample.c:129-143 | a sequence of options ends in the usage exit iff it started there or contains -h |
| `Cli.Configure` | dirsample.c:127-143 | starting from case_sensitive = 1 and no pattern, the options give the usage exit iff they contain -h |
| `Cli.LastPattern` | dirsample.c:134-136 | None iff there is no -p; otherwise it is the argument of a -p after which no other -p follows |
| `Cli.ConfigureMeaning` | dirsample.c:127-143 | -h anywhere gives the usage exit; otherwise case_sensitive is on iff no -i was given, and the pattern is that of the last -p |
| `Cli.ApplyAllAppend` | dirsample.c:129-143 | applying the options of a + b is applying a and then b |
| `Cli.UnrecognisedIgnored` | dirsample.c:140-141 | an unrecognised option anywhere leaves the result of option parsing unchanged |
| `Cli.HelpStops` | dirsample.c:137-139 | -h anywhere among the options stops with usage |
| `Cli.ParseOptions` | dirsample.c:124-143 | the getopt loop returns Usage iff -h is given; otherwise case sensitivity is off iff some -i was given, and the pattern is the last -p's argument |
| `Cli.OutputOf` | dirsample.c:148-149 | one directory argument adds nothing iff it cannot be read or none of its entries passes the filter |
| `Cli.Samples` | dirsample.c:148-150 | the definition: the outputs of the directory arguments, each in turn (no contract of its own; `Cli.SamplesAppend`, `Cli.SamplesSnoc` and `Cli.SkippedDirectory` state its properties) |
| `Cli.ConcatMapAppend` | dirsample.c:148-150 | the output of a + b is the output of a followed by the output of b |
| `Cli.SamplesAppend` | dirsample.c:148-150 | standard output is the per-directory outputs concatenated in argument order |
| `Cli.SamplesSnoc` | dirsample.c:148-150 | one more directory argument appends exactly that directory's output |
| `Cli.SkippedDirectory` | dirsample.c:75-78 | an unreadable directory, or one with no accepted entry, adds nothing and does not affect the directories after it |
| `Cli.Run` | dirsample.c:116-153 | -h gives the usage exit with no directory output; otherwise standard output is the samples of all directory arguments, in order, under the configuration the options produce |

## Left out

- Reading the file system (`scandir`/`opendir`): each raw listing is an input. An unreadable directory is a missing key, or `None`. scandir's allocation failure, which also returns -1, is treated the same way.
- `getopt` itself: argument permutation, option clustering, `--` and missing-argument diagnostics are library behaviour. The model starts from tokenised options and from the directory arguments that remain after parsing. A `-p` without an argument reaches the switch as `'?'`, which is the `Unrecognised` token. With `opterr` left at 1, getopt writes an "invalid option" or "requires an argument" diagnostic to standard error for such tokens; standard error is not modelled.
- Locales: `main` never calls `setlocale`, so the program runs in the "C" locale. There `alphasort`'s `strcoll` is `strcmp`, and `strcasestr` folds ASCII letters only. The byte-wise order and ASCII folding of the model are therefore exact for this program, not an approximation. Each `char` of a name stands for one byte.
- The usage text and `printf` (dirsample.c:100-113): the `-h` exit is a result variant, and the lines are returned as a string.
- Freeing `namelist` (dirsample.c:89-93) is memory management with no observable effect.
- NUL bytes: C strings end at the first NUL, and directory entry names never contain one. Names and patterns are modelled as their contents.
- The usage exit status and the normal exit status are both 0. The model distinguishes the two endings only by the `Outcome` variant.
