# PHP version store

A Dafny model of the `phpstore` package of the Symfony CLI. It covers the part that
finds the PHP installations on a machine, keeps them in a store and answers "which PHP
should run here?".

- **Installation record** (`Version`). An installation has a version triple, the version
  string, its directory, its CLI binary and its optional FPM, CGI, php-config, phpize and
  phpdbg tools. It also carries two flags: "first PHP on the PATH" and "FrankenPHP".
  Its serving type is FrankenPHP, FPM, CGI or CLI, in that precedence.
- **Store** (`PHPStore`). The store holds three things:
  - the records, sorted by version;
  - a `seen` map from binary paths (and their symlink targets) to slots;
  - the PATH default.

  `addVersion` deduplicates a record by its binary. When the binary is already known,
  the record with the richer server type (FPM over CGI over CLI) wins the slot.
  `bestVersion` resolves a request:
  - `X`, `X.Y` or `X.Y.Z`;
  - a `.99` patch wildcard;
  - a missing patch, which falls back to its minor version with a warning.

  `fallbackVersion` answers last: with the PATH default, else with the newest record.
  `BestVersionForDir` picks the request from the project, in this order:
  1. a forced version;
  2. `.php-version`, found by walking up the directory tree;
  3. `composer.json`;
  4. the working directory;
  5. the two cloud YAML files.

  Records read back from the JSON cache are admitted only if their version string parses.
- **Discovery** (`discovery.go`).
  - A PHP is read either from `php-config` or from the banner that `php --version`
    prints.
  - The five-digit `vernum` and the dotted banner version are turned into a triple.
  - The `php-config` lines are parsed, including the CGI binary name template.
  - The PATH list is cleaned: symlinks resolved, the shim directory dropped,
    duplicates dropped.
  - In the PATH discovery loop, the first PHP found becomes the system default.

The filesystem and processes are a `Machine.Host` value: a set of oracles for Stat,
EvalSymlinks, Lstat, Readlink, file contents, directory listings and the output of
`php --version`. Environment variables and the working directory are parameters.

Files:

| file | models |
|---|---|
| `wrappers.dfy` | `Option` |
| `text.dfy` | the subset of Go's `strings` and `bytes` used |
| `paths.dfy` | the subset of `path/filepath` used, on clean `/`-paths |
| `machine.dfy` | the oracle record `Host` |
| `version.dfy` | version.go, and go-version's parse, print and order |
| `store.dfy` | store.go, and the PATH loop of discovery.go that fills the store |
| `discovery.dfy` | discovery.go |
| `store_test.dfy` | the lookups asserted by store_test.go |

State-changing code is written as methods of the `Store.PHPStore` class, or as methods
with loops, in the shape of the Go code. Each method is tied to a specification
function of the old state and the inputs. The properties are proved about those
functions.

## Model

| member | source | states |
|---|---|---|
| PhpVersion.ParseVersionString | store.go:206 | parsing the printed form of a version triple gives that triple back when every segment is below 2^63, and fails otherwise |
| PhpVersion.NewRecord | discovery.go:195-200 | a fresh record carries its version string, directory and binary, has no tool path and is neither system nor FrankenPHP |
| PhpVersion.ServerPath | version.go:60-74 | the serving path is empty exactly for FrankenPHP or when the FPM, CGI and CLI paths are all empty |
| PhpVersion.ServerTypePrecedence | version.go:92-120 | each Is*Server accessor holds exactly under its precedence condition: FrankenPHP flag, else FPM path, else CGI path, else CLI |
| PhpVersion.ExactlyOneServerType | version.go:92-106 | every record has exactly one of the four serving types |
| PhpVersion.ServerPathFollowsType | version.go:60-74 | ServerPath is the FPM, CGI or CLI path according to the type, and empty for FrankenPHP |
| PhpVersion.ServerTypeNameIsInjective | version.go:76-90 | two records have the same type name iff they have the same serving type |
| PhpVersion.AtMostIsTotalOrder | version.go:58 | the order that Less induces on triples is reflexive, transitive, total and antisymmetric |
| PhpVersion.SortedMeansNoInversion | version.go:56-58 | "sorted by triple" is the same as "no pair out of order under Less" |
| PhpVersion.InsertByVersion | store.go:216 | inserting one record adds exactly it to the multiset of records |
| PhpVersion.InsertKeepsSorted | store.go:216 | inserting into a sorted sequence keeps it sorted |
| PhpVersion.SortByVersion | store.go:216 | sorting is a permutation of its input |
| PhpVersion.SortByVersionSorts | store.go:216 | the sorted sequence is nondecreasing by triple and a permutation of the input |
| PhpVersion.SortedPermutationIsUnique | store.go:216 | with distinct triples, only one sorted permutation exists, so the unstable sort's result is still determined |
| PhpVersion.ProbeTool | version.go:124-130 | one probe yields the resolved path when the candidate exists and resolves, else nothing |
| PhpVersion.SetServer | version.go:122-160 | each tool field is set to the resolved candidate when it exists and resolves, else is kept; version, directory, binary and flags are untouched; the message lists the found tools in order |
| Store.Score | store.go:245-256 | the capability score is at most 2 |
| Store.ScoreRanksServerType | store.go:245-256 | for a non-FrankenPHP record, score 2, 1 and 0 mean FPM, CGI and CLI |
| Store.Add | store.go:229-261 | adding leaves every seen entry pointing at a slot and returns a valid slot |
| Store.AddUnseen | store.go:230-243 | an unseen binary is appended at the old length; its path and non-empty symlink target map to the new slot; every other seen entry is unchanged |
| Store.AddSeen | store.go:245-260 | a seen binary keeps the length, the map and the index; the slot is replaced only on a strictly higher score; every other slot is unchanged |
| Store.AddTwice | store.go:229-261 | re-adding the same record changes nothing |
| Store.HigherScoreSurvives | store.go:245-260 | of two records for the same binary with different scores, the higher one ends up stored, whichever arrives first |
| Store.AvailableAfterAdd | store.go:64-73 | a record just added is available under its own version string |
| Store.AvailableKept | store.go:64-73 | adding a record keeps every available prefix available, provided every stored record for the same binary, and the slot the record would replace, holds the same version string |
| Store.FirstExact | store.go:162-168 | the exact-match scan returns a slot holding the requested version |
| Store.FirstExactIsFirst | store.go:162-168 | the exact-match scan finds the first matching slot, and finds none iff no slot matches |
| Store.FirstExactAt | store.go:162-168 | the first slot holding the version is the one the scan returns |
| Store.LastWithPrefix | store.go:176-182 | the prefix scan returns a slot whose version starts with the prefix |
| Store.LastWithPrefixIsLast | store.go:176-182 | the prefix scan finds the last match, and finds none iff the prefix is not available |
| Store.LastWithPrefixAt | store.go:176-182 | the last slot starting with the prefix is the one the scan returns |
| Store.RequestWithOneDot | store.go:149-151 | a request with at most one dot is a plain prefix request |
| Store.RequestWithTwoDots | store.go:150-158 | with two or more dots, a last component of "99" is dropped to give a prefix; any other last component makes an exact request whose fallback is everything before the last dot |
| Store.FallbackWarning | store.go:172 | the patch-miss warning is never empty |
| Store.NotAvailable | store.go:184 | the not-available warning is never empty |
| Store.FallbackCases | store.go:187-195 | the fallback keeps the warning, answers with the PATH default first, fails with "no PHP binaries detected" iff there is neither a default nor a record, and otherwise answers with a stored record |
| Store.FallbackIsMostRecent | store.go:194 | on a sorted store without a PATH default, the fallback is the highest version |
| Store.BestExactHit | store.go:162-168 | an installed exact patch is returned with the caller's source and no warning |
| Store.BestWildcard | store.go:152-154 | `X.Y.99` is the prefix lookup of `X.Y`, with no warning when it is available |
| Store.BestPatchMiss | store.go:170-174 | a missing exact patch becomes the prefix lookup of its minor version, carrying a non-empty warning |
| Store.ScanFindsLatest | store.go:176-182 | on a sorted store, the prefix lookup returns a record with the prefix whose version is at least that of every other such record |
| Store.BestNotFound | store.go:184-195 | a lookup fails iff the store is empty and has no PATH default |
| Store.ReadVersion | store.go:280-289 | a version file is read iff it exists, is readable and is not blank |
| Store.ReadVersionNotBlank | store.go:280-289 | what is read is the file trimmed of white space, and it is not empty |
| Store.Ancestors | store.go:265-277 | the directories walked start with the given one |
| Store.AncestorsAreParents | store.go:270-274 | each walked directory is the parent of the previous and strictly shorter; the walk stops where Dir is a fixed point or "." |
| Store.AncestorsShrink | store.go:270-274 | the walked directories strictly shrink |
| Store.FindUpIsFirst | store.go:265-277 | the walk finds the first directory holding the file, and returns its trimmed content; nothing is found iff no walked directory holds it |
| Store.FindUpIsClosest | store.go:265-277 | the directory found is on the walk and no deeper walked directory holds the file |
| Store.PHPStore.VersionForDir | store.go:265-277 | the loop returns the content and directory of the walk's find, or nothing and "" |
| Store.AdmitCached | store.go:205-215 | the loop keeps exactly the decoded records whose version parses (a segment of 2^63 or more fails), and ends with their last system record as the PATH default |
| Store.KeptAreParsed | store.go:206-210 | every kept record's triple is the parse of its version string |
| Store.AdmittedAreParsed | store.go:206-210 | every admitted cache record's triple is the parse of its version string |
| Store.AdmittedConcat | store.go:205-215 | admission works record by record: it distributes over concatenation |
| Store.CorruptRecordDropped | store.go:207-210 | a record whose version does not parse is dropped and nothing else changes |
| Store.PrintedRecordKept | store.go:206 | a record written with a printed version is admitted unchanged when its segments are below 2^63, and dropped otherwise |
| Store.LastSystemIsLast | store.go:211-213 | the last system record exists iff some record is a system one, and no system record follows it |
| Store.SystemAfterIsLastSystem | store.go:211-213 | the PATH default after the loop is the last admitted system record, else the previous default |
| Store.PathDefaultIsLastSystem | store.go:211-213 | loading the cache sets the PATH default to the last admitted system record, if there is one |
| Store.PHPStore.LoadCachedVersions | store.go:198-216 | the store gains the admitted records, sorted, and the PATH default becomes the last admitted system record; the seen map is unchanged |
| Store.PHPStore.SortVersions | store.go:216 | the records are replaced by their sorted permutation; the map and the PATH default are unchanged |
| Store.LocalVersionFileWins | store.go:85-88 | without a forced version, a `.php-version` found above the script decides the request and names its path as the source |
| Store.ForcedVersionWins | store.go:78-83 | a forced version whose first two components parse decides the request |
| Store.PHPStore.FindRequirement | store.go:77-134 | the requirement is the forced version when it applies, else the one from the project files |
| Store.PHPStore.FromProjectFiles | store.go:85-134 | the project files are consulted in the order `.php-version`, composer.json, working directory, the two cloud YAML files |
| Store.PHPStore.BestVersionForDir | store.go:76-137 | the answer is the lookup of the requirement, or the fallback with no warning when there is none |
| Store.PHPStore.constructor | store.go:46-51 | a new store has its configuration directory, no record, an empty map and no PATH default |
| Store.PHPStore.AddVersion | store.go:229-261 | the records, map and returned index are those of Add, with the resolved binary as the symlink target; the PATH default is unchanged |
| Store.PHPStore.IsVersionAvailable | store.go:64-73 | the answer is true iff some stored version starts with the query |
| Store.PHPStore.BestVersion | store.go:146-185 | the loops return the lookup defined by BestVersionOf |
| Store.Step | discovery.go:46-52 | one PATH record keeps every seen entry pointing at a slot |
| Store.DiscoverAll | discovery.go:44-54 | the PATH loop keeps every seen entry pointing at a slot |
| Store.RecordsStep | discovery.go:44-45 | the records of one more PATH directory come after those of the earlier ones |
| Store.DiscoverAllSplit | discovery.go:44-54 | the PATH loop over two lists is the loop over the first, then over the second |
| Store.SystemVersionKept | discovery.go:48 | once a PATH default is set, later records never change it |
| Store.FirstIsSystem | discovery.go:44-53 | with no default yet, no record means no default; otherwise the default is the slot from the first record's add, marked system, and that slot holds the marked record |
| Store.PHPStore.AddFromPath | discovery.go:46-52 | adding one PATH record updates the state as Step does |
| Store.PHPStore.AddAllFromPath | discovery.go:45-53 | adding a list of PATH records updates the state as DiscoverAll does |
| Store.PHPStore.Discover | discovery.go:38-55 | the store ends in the state DiscoverAll gives for the records found in the cleaned PATH directories, in order |
| StoreTest.TestStoreSorted | store_test.go:10-33 | the test store after sorting is in version order |
| StoreTest.TestMajor | store_test.go:36-43 | "8" finds 8.2.1 |
| StoreTest.TestMinor | store_test.go:45-52 | "8.1" finds 8.1.14 |
| StoreTest.TestMinorPrefix | store_test.go:54-62 | the newest record under "8.0" is 8.0.27 |
| StoreTest.TestPatchMiss | store_test.go:54-62 | "8.0.10" finds 8.0.27 with a warning |
| StoreTest.TestWildcard | store_test.go:64-73 | "8.0.99" finds 8.0.27 with no warning |
| Text.IndexFrom | discovery.go:151 | the search from a position returns the first occurrence at or after it, and none iff there is none |
| Text.IndexOf | discovery.go:272-276 | the search returns the first occurrence, and none iff there is none |
| Text.ReplaceFirstIsFirst | discovery.go:272-276 | replacement with count 1 leaves the string alone when the pattern is absent, and otherwise replaces exactly its first occurrence |
| Text.IndexByte | store.go:150-151 | the index is -1 or a position holding the byte |
| Text.IndexByteIsFirst | store.go:150-151 | the index is -1 iff the byte is absent, and no earlier position holds it |
| Text.LastIndexByte | store.go:150 | the index is -1 or a position holding the byte |
| Text.LastIndexByteIsLast | store.go:150 | the index is -1 iff the byte is absent, and no later position holds it |
| Text.CountChar | discovery.go:60 | the count is at most the length and is zero iff the character is absent |
| Text.CountAppend | discovery.go:60 | counting distributes over concatenation |
| Text.TrimByEnds | discovery.go:240 | trimming never lengthens, and leaves no trimmed character at either end |
| Text.TrimBySurrounded | discovery.go:240 | trimming removes exactly the surrounding run of trimmed characters |
| Text.TrimQuoted | discovery.go:240 | a value surrounded by any number of double quotes is recovered by the trim |
| Text.TrimSpaceBlank | store.go:288 | trimming white space gives empty iff the content is nothing but white-space runes (ASCII white space, or the UTF-8 encoding of a Unicode space) |
| Text.TrimSpaceEnds | store.go:288 | the trimmed content is a contiguous piece of the content that neither starts nor ends with a white-space rune |
| Text.LoneNoBreakSpaceKept | store.go:288 | a lone byte 0xA0, which is not valid UTF-8, is not trimmed |
| Text.EncodedNoBreakSpaceTrimmed | store.go:288 | the two-byte UTF-8 encoding of U+00A0 is trimmed whole |
| Text.SplitPieces | discovery.go:304 | the pieces of a split contain no separator and join back to the input |
| Text.SplitJoin | discovery.go:304 | splitting a join of separator-free pieces gives the pieces back |
| Text.NatToString | discovery.go:197 | the decimal form of a number is all digits, has no leading zero, and denotes the number |
| Paths.Dir | store.go:270 | the parent is ".", the root, or a strict prefix of the path |
| Paths.SplitList | discovery.go:325 | splitting the PATH joins back to it with the platform's list separator, and the empty PATH has no entries |
| Paths.DirBaseOfJoin | discovery.go:97-102 | Dir and Base take apart what Join put together |
| Discovery.ValidateVersionIsFiveDigits | discovery.go:289-299 | a vernum is accepted iff it is five digits, and then it reads as major d0, minor d1d2, patch d3d4 |
| Discovery.NormalizeThenValidate | discovery.go:302-314 | for a dotted banner version, validating its normalization accepts exactly a one-digit major with a minor and patch of at most two digits, giving their values |
| Discovery.NormalizeRoundTrip | discovery.go:302-314 | normalizing then validating a printed triple gives it back iff major < 10 and minor, patch < 100 |
| Discovery.LinesOfTerminated | discovery.go:232-238 | the line scanner gives back the lines of a newline-terminated file |
| Discovery.KeysExclusive | discovery.go:239-258 | a line matches at most one key of the else-if chain |
| Discovery.ReadLinesFails | discovery.go:240-243 | the parser fails iff some `vernum=` line has a value that does not validate |
| Discovery.NoneAbsorbs | discovery.go:240-243 | once the parser has failed on a prefix of the lines, it fails on all of them |
| Discovery.ReadLinesTracks | discovery.go:238-260 | on success, the counter is the number of key lines, and each value is that of the last line with its key |
| Discovery.LastVernumFound | discovery.go:261-264 | on lines with no bad vernum, a version is found iff some line has the vernum key |
| Discovery.ScanPhpConfig | discovery.go:232-260 | the scanning loop computes the line parser's state |
| Discovery.ViaPHPConfig | discovery.go:222-287 | the method returns what ConfigDiscovery defines |
| Discovery.ConfigDiscoveryResult | discovery.go:222-287 | php-config gives a record iff the file opens, no vernum is bad, a vernum is present and exactly five keys matched; the record has the last vernum, its printed version, the directory, is not system, and has binary `dir/bin/<prefix>php<suffix><ext>` |
| Discovery.Placeholders | discovery.go:272-275 | the placeholder names differ where the substitution argument needs them to |
| Discovery.MismatchAt | discovery.go:272-275 | a mismatching character rules out an occurrence at that position |
| Discovery.ReplaceFirstAfter | discovery.go:272-275 | replacing the first occurrence skips an earlier placeholder that differs from the pattern |
| Discovery.RemoveAtStart | discovery.go:275-276 | removing a pattern the string starts with leaves the rest |
| Discovery.CgiNameOfTemplate | discovery.go:269-277 | the stock `php_cgi_binary` template yields `<prefix>php<suffix>-cgi<ext>`, as the empty template does |
| Discovery.DigitPrefix | discovery.go:178-183 | the run of leading digits is no longer than the text |
| Discovery.DigitPrefixIsMaximal | discovery.go:178-183 | the leading run is all digits and is followed by a non-digit or the end |
| Discovery.DigitPrefixOf | discovery.go:178-183 | the leading run of digits-then-non-digit is the digits |
| Discovery.DotRunShape | discovery.go:178-183 | a digit run before a dot is non-empty and all digits |
| Discovery.DotRunOf | discovery.go:178-183 | digits then a dot split off as the digits |
| Discovery.MatchAfterShape | discovery.go:178-183 | a match after "PHP " is three non-empty dot-separated digit runs |
| Discovery.MatchAfterOf | discovery.go:178-183 | three digit runs followed by a non-digit match as those runs |
| Discovery.NoMatchNearEnd | discovery.go:178-183 | no match starts within four characters of the end |
| Discovery.BannerFromIsLeftmost | discovery.go:178-183 | a banner match found from a position is the leftmost match at or after it |
| Discovery.BannerFromNone | discovery.go:178-183 | no match from a position means no match anywhere at or after it |
| Discovery.BannerShape | discovery.go:178-183 | the matched version is three non-empty dot-separated digit runs |
| Discovery.BannerOfParts | discovery.go:178-183 | a banner starting with "PHP x.y.z" then a non-digit matches "x.y.z" |
| Discovery.BannerOfVersion | discovery.go:178-183 | the banner of a printed triple matches that printed triple |
| Discovery.JoinThree | discovery.go:304 | joining three pieces puts dots between them |
| Discovery.BannerVersion | discovery.go:191 | normalizing and validating a matched banner version gives BannerTriple's independent reading of it |
| Discovery.ViaPHP | discovery.go:159-220 | the method returns what BinaryDiscovery defines |
| Discovery.BinaryDiscoveryNeeds | discovery.go:166-190 | a record via `php --version` needs the binary to exist, the banner to print and match, and the binary to resolve |
| Discovery.BinaryDiscoveryResult | discovery.go:191-219 | given those, a record exists iff the banner's triple is valid; it has that triple, its printed version, the directory and the resolved binary, and is neither system nor FrankenPHP |
| Discovery.BinaryOfVersion | discovery.go:159-219 | for a banner printing a triple, a record exists iff major < 10 and minor, patch < 100, and it carries that triple |
| Discovery.ValidateVersionFits | discovery.go:289-299 | a validated vernum has major < 10 and minor, patch < 100 |
| Discovery.LastVernumFits | discovery.go:239-246 | the last vernum found by the parser fits the same bounds |
| Discovery.DiscoverPHPChoice | discovery.go:136-157 | the `php --version` path is taken on Windows, when php-config cannot be Lstat'ed, and when it is a symlink into "/alternatives/"; otherwise the php-config path, with no retry |
| Discovery.DiscoverPHPRecord | discovery.go:136-157 | any discovered record has the scanned directory, is neither system nor FrankenPHP, prints its triple and fits the vernum bounds |
| Discovery.FindRootsOfBin | discovery.go:97-102 | for `d/bin`, the install directory is `d` and the walk root `d/bin`; off Windows, `d` and `d/bin` give the same pair; on Windows `d` is both |
| Discovery.WalkFoundStep | discovery.go:116-133 | one more directory entry adds its discovery, when it is a file the filter accepts |
| Discovery.FindFromDir | discovery.go:94-134 | the method returns what FoundWith defines: one discovery with no filter, else the discoveries of the accepted files of the walk root, in order, and nothing when the root does not exist |
| Discovery.DiscoverPHPRecordsDir | discovery.go:136-157 | discovery records its directory and never marks the system flag |
| Discovery.WalkFoundRecords | discovery.go:116-133 | every record of the walk has the scanned directory and is not system |
| Discovery.FoundInRecords | discovery.go:94-134 | every found record has the install directory of the scan, is not system, and with no filter there is at most one |
| Discovery.FoundInOfBin | discovery.go:97-102 | off Windows, scanning `d/bin` finds the same as scanning `d` |
| Discovery.CountJoined | discovery.go:76 | a path of n separator-free parts has n-1 separators |
| Discovery.DepthBound | discovery.go:58-76 | a relative path is within depth iff it has at most maxDepth+1 parts, where maxDepth is 1 plus the separators in the path filter |
| Discovery.PathDirectories | discovery.go:316-349 | the loop returns KeptDirs of the split PATH |
| Discovery.KeptDirsClean | discovery.go:331-346 | the kept directories have no duplicate, no empty string and not the shim directory |
| Discovery.KeptDirsSound | discovery.go:325-345 | every kept directory is the resolution of some PATH entry |
| Discovery.KeptDirsComplete | discovery.go:325-345 | every PATH entry that resolves to something other than "" and the shim is kept |
| Discovery.KeptDirsPrefix | discovery.go:325-347 | the output for a prefix of the entries is a prefix of the output: first occurrence order |

## Left out

- The filesystem, processes and environment are oracles in `Machine.Host` or parameters: `os.Stat`, `os.Lstat`, `os.Readlink`, `filepath.EvalSymlinks`, `os.Open`/`os.ReadFile`, `exec.Command` for `php --version`, `PATH`/`Path`/`USERPROFILE`, `os.Getwd`.
- `os.IsNotExist` on the FPM candidate (discovery.go:203) is read as "the stat fails".
- `filepath.Clean` is not modelled: paths are `/`-separated and assumed clean. Windows `\` separators and drive letters are not modelled; only the Windows branches (list separator, tool directory, no php-config) are.
- The regular-expression engine is not modelled: the binary filter of `findFromDir` is an abstract predicate. The `php --version` banner expression (discovery.go:178) is modelled directly as its matcher.
- `filepath.Walk` itself is not modelled: a directory listing comes from the `entries` oracle, in its order. Of `discoverFromDir` (discovery.go:57-86) only the depth bound is modelled; its walk, and `addFromDir` (discovery.go:88-92), are not.
- discovery_others.go, discovery_windows.go and `doDiscover` (the hard-coded install roots, Homebrew and asdf lookups): configuration and process I/O.
- The JSON cache read and write, and the JSON and YAML decoding in `BestVersionForDir`. The cache arrives as decoded records; composer.json and the YAML files arrive as extraction oracles. `New`'s `reload` removal of the cache file is not modelled.
- Logging (`s.log`) is left out. Messages are modelled only where they are results: the warnings, the sources, and the message `setServer` returns.
- Flavors (`SupportsFlavor`, `NewVersion` of the test helpers) are not part of this model, and neither is the assertion at store_test.go:76-86, which needs them.
- The tie order of the unstable `sort.Sort` is not modelled. `SortByVersion` is one sorted permutation; `PhpVersion.SortedPermutationIsUnique` shows it is the only one when triples are distinct.
- `bufio.Scanner`'s 64 KiB line limit is not modelled.
- Go strings are byte strings; they are modelled as `seq<char>` with one character per byte.
- `PhpVersion.ParseVersion` is stricter than go-version's `NewVersion`. It accepts "v", then one to three numeric segments, each below 2^63 as `strconv.ParseInt` requires. It rejects a fourth segment and pre-release and metadata suffixes, which go-version accepts.
- `Discovery.ValidateVersionIsFiveDigits` rejects a five-character vernum with a letter in it, such as "81a23". Go hands "8.1a.23" to `NewVersion`, which reads it as 8.1.0 with the pre-release "a.23" and keeps the installation.
- `Store.PHPStore.FindRequirement` moves on to `.php-version` when `FORCED_PHP_VERSION` has a pre-release minor part such as "8.2RC1". Go parses "8.2RC1", so it calls `bestVersion` with it and falls back with a warning.
- `Paths.SplitList` does not model the double-quoted entries that `filepath.SplitList` honours on Windows.
- `Store.PHPStore.BestVersionForDir` and `Store.PHPStore.FindRequirement`: a non-empty `FORCED_PHP_VERSION` without a dot panics in Go (store.go:79). The precondition excludes that case.
- `Discovery.PathDirectories`: the placeholder is replaced as written in the code, the literal text `%%USERPROFILE%%`.
- `Store.Step`: `pathVersion` points into the store in Go, so marking it as the system PHP also changes the stored slot. The model marks both the captured value and the slot. Later replacements of that slot (store.go:258) do not update the captured value, as in Go.
- The `seen` map is not renumbered by sorting, as in Go; nothing is added after a sort.
