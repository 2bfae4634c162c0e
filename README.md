# marv / bagbunker core, modelled in Dafny

This project models the core of marv and bagbunker. marv is a catalogue of recorded robot data: bag files grouped into filesets. Bagbunker runs analysis jobs over those filesets. The model covers these parts:

- **Fileset discovery** (`marv.scanner`, `bagbunker.scanner`). The directory walk filtered per scanner. The per-file checks for readability, the checksum sidecar, its format and a non-empty size. The assembly of a fileset and its identity digest. The bag scanner's grouping of `name_<n>.bag` files into runs that end at index 0, with a run discarded at the first gap.
- **The catalogue** (`marv.model`, `marv.storage`). How `scan_all` reconciles scanned filesets with the stored ones: an md5 hit, a name-and-type hit or a new fileset. The missing-file sweep and the reading of pending filesets. The entity operations `update_from`, `broken`, `failed_job_names` and `get_latest_jobrun`.
- **Job dispatch** (`bagbunker.cli`, `marv._utils`, `marv.job`). The nested job configuration. Which jobs run on a fileset and with which topics. The fan-out of read messages to job inboxes. The round-robin `multiplex` interleaver. The worker/collector protocol. Job versions rendered as four-digit hexadecimal components. Which job runs `purge-jobruns` deletes.
- **Registries and helpers** (`marv.widgeting`, `marv.decorators`, `marv.filtering`, `marv.widget`, `marv.view`, `marv/__init__.py`, `bagbunker.reader`):
  - widget keys, collision-checked registries and namespace rewriting;
  - table names derived from class names;
  - the file-size parser with binary units, the normalisation of filter inputs and the unflattening of filter keys;
  - column and table serialisation, and the listing's status rules;
  - tag and untag on the tag-to-fileset relation, and fileset deletion;
  - the reader's topic summary, its topic table and mimetype choice, and the chunked stream client.
- **The deepfield jobs**:
  - the sanity check: threshold classification, synced groups, success, and the level of the published diagnostic;
  - module-name extraction and the `invalid` tag toggle;
  - camera frame sampling;
  - diagnostic counters;
  - GeoJSON run grouping;
  - trajectory throttling;
  - the metadata path fallback.

Each source file is one module. Pure code becomes datatypes, functions and lemmas. Loops become methods, each proved against a specification function. Objects whose fields change in place become classes. These are the scanner catalogue, the tag table, the widget and filter registries, the model list and the stream client. Exceptions become `Err` values of a `Result`, and `None` becomes an `Option`. The filesystem, MD5 and the bag contents are inputs to the model.

## Model

| member | source | states |
|---|---|---|
| Model.FilePath | src/marv/marv/model.py:110-112 | a file's path ends in its name and, for a relative name, starts with the fileset's directory |
| Model.FilePathName | src/marv/marv/model.py:110-112 | the last `/` component of a file's path is the file's name |
| Model.FromFile | src/marv/marv/model.py:114-116 | the copy carries exactly md5, name and size, and is not marked missing |
| Model.Copies | src/marv/marv/model.py:69-70 | the new file list is one fresh copy per file of the other fileset, in order |
| Model.ChangedAttrs | src/marv/marv/model.py:58-63 | the changed attributes are name, dirpath, type, each present iff its values differ |
| Model.UpdateFrom | src/marv/marv/model.py:57-72 | `update_from` afterwards has the other's name, dirpath and type, and returns the changed attributes |
| Model.UpdateFromNoChange | src/marv/marv/model.py:64-72 | no attribute differs iff the result is `[]`, and then files and `time_updated` are untouched |
| Model.UpdateFromOrder | src/marv/marv/model.py:59-62 | changed attributes come without repeats in the order name, dirpath, type |
| Model.UpdateFromSettles | src/marv/marv/model.py:57-72 | a second update from the same fileset reports no change |
| Model.UpdateFromCopies | src/marv/marv/model.py:64-71 | when something changed, the files are fresh copies of the other's and `time_updated` is the new time |
| Model.AnyMissing | src/marv/marv/model.py:79-81 | true iff some file in the list is marked missing |
| Model.Broken | src/marv/marv/model.py:79-81 | a fileset is broken iff one of its files is missing |
| Model.Latest | src/marv/marv/model.py:86-89 | the run of a name with the largest id, none iff the name has no run |
| Model.LatestPerName | src/marv/marv/model.py:86-89 | the dictionary maps exactly the names with runs to their latest run |
| Model.FailedAmong | src/marv/marv/model.py:91-92 | keeps exactly the names whose latest run failed, without repeats |
| Model.FailedJobNames | src/marv/marv/model.py:83-92 | sorted, distinct names whose latest run failed; an older failure hidden by a newer run is not listed |
| Model.RunsOf | src/marv/marv/model.py:96 | the runs of one fileset are those whose fileset id matches |
| Model.GetLatestJobrun | src/marv/marv/model.py:95-99 | the largest-id run of that fileset and name whatever its status, none iff there is no such run |
| Utils.Start | src/marv/marv/_utils.py:38-54 | the started generators keep processor order, one per processor that did not raise on call |
| Utils.VisitAt | src/marv/marv/_utils.py:57-74 | visiting a generator yields its next item or removes it; unless an exception escapes, the work left shrinks |
| Utils.Round | src/marv/marv/_utils.py:57-74 | one pass of the `for` loop over `generators` never increases the work left, and shrinks it when a generator is visited |
| Utils.MultiplexRound | src/marv/marv/_utils.py:57-74 | the loop over the list it removes from yields, keeps and raises what one round of the specification does |
| Utils.Multiplex | src/marv/marv/_utils.py:36-74 | `multiplex` yields exactly the items of the round-robin specification and raises exactly when it does |
| MultiplexProofs.StartItems | src/marv/marv/_utils.py:40-54 | every started generator still holds all the items of its processor |
| MultiplexProofs.StartNone | src/marv/marv/_utils.py:41-43 | starting raises iff `dont_catch` is set and some processor raises when called |
| MultiplexProofs.StartRaiser | src/marv/marv/_utils.py:40-54 | a started generator that raises mid-stream comes from a processor that does |
| MultiplexProofs.RunAccounts | src/marv/marv/_utils.py:56-74 | the rounds yield each generator's items in its own order, and raise iff `dont_catch` is set and some generator raises |
| MultiplexProofs.MultiplexCatching | src/marv/marv/_utils.py:44-74 | without `dont_catch` nothing escapes, and each processor contributes its items in order, a failing one its items before the failure |
| MultiplexProofs.MultiplexDontCatch | src/marv/marv/_utils.py:41-63 | with `dont_catch` an exception escapes iff a processor raises when called or mid-stream; otherwise every item arrives |
| MultiplexExamples.RemovalSkipsNext | src/marv/marv/_utils.py:57-67 | removing an exhausted generator during a round skips the one after it until the next round |
| Titles.WordsAfterFirst | src/marv/marv/_utils.py:77-79 | after the first word, every `_c` becomes ` C` |
| Titles.TitleOfWords | src/marv/marv/_utils.py:77-79 | the title of words joined by `_` is the capitalised words joined by spaces |
| JobQueues.Inbox | src/marv/marv/_utils.py:108-115 | the message generator yields the queued messages in FIFO order and stops at the first `Done` |
| JobQueues.Results | src/marv/marv/_utils.py:124-125 | every result of the job is queued, in order |
| JobQueues.AsyncJob | src/marv/marv/_utils.py:117-133 | the worker queues the effective config, then the results, then `Failed` if the job raised, and always `Done` last |
| JobQueues.Milker | src/marv/marv/_utils.py:147-168 | the collector ends with exactly one of `succeeded` and `failed` set |
| JobQueues.MilkedResults | src/marv/marv/_utils.py:165-168 | every result before the end marker is stored on the job run, in order |
| JobQueues.JobOutcome | src/marv/marv/_utils.py:117-168 | `succeeded` iff the job returned and its results ran out without raising; the config is stored iff the call returned |
| Jobs.Hex04Digits | src/marv/marv/job.py:73 | below 0x10000, `'{0:04x}'` is exactly the four lower-case hexadecimal digits |
| Jobs.Hex04Order | src/marv/marv/job.py:73-74 | below 0x10000, byte-wise order of two renderings is the numeric order, and equal renderings mean equal numbers |
| Jobs.VersionOrder | src/marv/marv/job.py:73-74 | for equally long versions with components below 0x10000, comparing the version strings agrees with comparing the integer tuples |
| Jobs.Version | src/marv/marv/job.py:73-74 | the version formats iff `int()` accepts every dot component (surrounding whitespace and a sign allowed); otherwise it raises `ValueError` |
| Jobs.Components | src/marv/marv/job.py:73-74 | every component parsed in order: succeeds iff each component parses, with one value per component in place; a failure is the error of some component |
| Jobs.Hex04Negative | src/marv/marv/job.py:73 | `'{0:04x}'` of a negative one-digit number is a minus sign and three padded digits; of a positive one, four padded digits |
| Jobs.RenderedNatural | src/marv/marv/job.py:73-74 | for non-negative components the signed rendering is the plain dotted four-digit rendering |
| Jobs.IntOfDigits | src/marv/marv/job.py:74 | `int()` of a non-empty run of decimal digits is their decimal value |
| Jobs.VersionOfDigits | src/marv/marv/job.py:73-74 | a version of digit-only components renders as the plain dotted rendering of their decimal values |
| Jobs.SplitNamespace | src/marv/marv/job.py:68-70 | the registered namespace splits at its last `.` into namespace and name, and fails without a `.` |
| Jobs.CallConfig | src/marv/marv/job.py:82 | the effective config is the keyword arguments minus `messages`, values unchanged |
| Jobs.JobfileDirComponents | src/marv/marv/job.py:45-46 | the job-file directory ends in the components `jobruns`, group, name and the decimal jobrun id |
| Jobs.Configs | src/marv/marv/job.py:75 | `configs` holds exactly the `Config` parameters |
| Jobs.Inputs | src/marv/marv/job.py:76 | `inputs` holds exactly the `JobInput` parameters |
| MarvScanner.Args | src/marv/marv/scanner.py:54-132 | a broken-fileset exception's first argument is its class name, then directory and name; only `MissingFile` adds a fourth, the count |
| MarvScanner.MatchLiteral | src/marv/marv/scanner.py:41-43 | a pattern without wildcards matches only itself |
| MarvScanner.MatchSuffix | src/marv/marv/scanner.py:41-43 | a `*<suffix>` glob such as `*.bag` matches exactly the paths ending in the suffix |
| MarvScanner.VisibleInfos | src/marv/marv/scanner.py:86-89 | the offered file infos are exactly the directory's names that are not hidden and not `.md5` sidecars |
| MarvScanner.Matching | src/marv/marv/scanner.py:41-44 | a scanner keeps exactly the infos whose joined `dirpath/name` matches its glob |
| MarvScanner.ScannerSees | src/marv/marv/scanner.py:41-89 | a scanner only sees visible, non-sidecar files of its directory whose joined path matches its glob |
| MarvScanner.Processors | src/marv/marv/scanner.py:90 | one processor per scanner, each the scanner's callback applied to its filtered infos |
| MarvScanner.DetectFilesets | src/marv/marv/scanner.py:79-91 | a base that is not a directory or an empty scanner list raises before anything is yielded; otherwise the walk loop yields, directory by directory, the multiplexed scanner output, and stops when a scanner raises |
| MarvScanner.DetectPrefixRaised | src/marv/marv/scanner.py:84-91 | once a directory has raised, the later directories change nothing |
| MarvScanner.DetectCollects | src/marv/marv/scanner.py:82-91 | without a raising scanner, `detect_filesets` raises exactly when one of its two assertions fails (base not a directory, no scanner) |
| MarvScanner.WalkCollects | src/marv/marv/scanner.py:84-91 | without a raising scanner the walk itself never raises |
| MarvScanner.MakeFile | src/marv/marv/scanner.py:94-117 | a made file has the info's name, a positive size, is not missing and has an md5 of at most 32 characters; errors name the file |
| MarvScanner.UnreadableFirst | src/marv/marv/scanner.py:98-99 | an unreadable file gives `UnreadableFile` whatever its sidecar and size are |
| MarvScanner.SidecarAccepted | src/marv/marv/scanner.py:101-117 | any 32 characters, hex or not, then any whitespace, the name and any whitespace give a file with those 32 characters as md5 |
| MarvScanner.EmptySidecar | src/marv/marv/scanner.py:104-108 | an empty sidecar is `MalformattedMD5`, not `MissingMD5` |
| MarvScanner.MakeAll | src/marv/marv/scanner.py:124-127 | either every entry makes a file, in order, or the failure is that of some entry |
| MarvScanner.MakeFiles | src/marv/marv/scanner.py:122-127 | the loop makes the files in order and feeds the hasher their md5s concatenated |
| MarvScanner.MakeFileset | src/marv/marv/scanner.py:120-137 | `make_fileset` returns or raises what its specification does |
| MarvScanner.MakeAllPrefixErr | src/marv/marv/scanner.py:124-125 | the first failing file decides the failure |
| MarvScanner.MadeFilesetShape | src/marv/marv/scanner.py:129-137 | a made fileset has its files in indexed order, md5 = digest of their md5s concatenated, and `time_added == time_updated` |
| MarvScanner.MissingFileCount | src/marv/marv/scanner.py:129-132 | `MissingFile` is raised iff all files are fine and `1 + last index - count` is not zero, and carries that number |
| MarvScanner.LeadingIndicesPass | src/marv/marv/scanner.py:129-132 | a set whose indices are 0..k-1 passes the count check, so a set missing only its last members is accepted |
| MarvScanner.UnboundIffEmpty | src/marv/marv/scanner.py:124-129 | only an empty `indexed_files` raises the unbound-variable error |
| MarvScanner.Scan | src/marv/marv/scanner.py:140-151 | the scan loop yields what its specification does |
| MarvScanner.ScanPrefixAborted | src/marv/marv/scanner.py:144-151 | once a non-broken error escaped, later candidates change nothing |
| MarvScanner.ScanAbortsOnlyOnEmpty | src/marv/marv/scanner.py:144-151 | a broken fileset never ends the scan; it ends iff some candidate has no files |
| MarvScanner.ScanAborts | src/marv/marv/scanner.py:145-149 | the scan ends early iff some candidate raises something other than `BrokenFileset` |
| MarvScanner.ScanFromCandidates | src/marv/marv/scanner.py:144-151 | each yielded fileset is what `make_fileset` made of some candidate |
| MarvScanner.ScanKeepsAll | src/marv/marv/scanner.py:144-151 | when no candidate is broken, every candidate is yielded, in order |
| BagScanner.ParseIndexed | src/bagbunker/bagbunker/scanner.py:33-36 | `x_<n>.bag` parses to basename `x` and integer index `n`; the lazy group takes everything before the final `_<digits>.bag` |
| BagScanner.ParseSound | src/bagbunker/bagbunker/scanner.py:33-36 | a match splits the name into the basename and a suffix `.bag` or `_<digits>.bag` |
| BagScanner.EntryOrder | src/bagbunker/bagbunker/scanner.py:47 | the descending tuple order on (basename, index, fileinfo) is a total preorder |
| BagScanner.SortDescending | src/bagbunker/bagbunker/scanner.py:47 | the directory's entries sorted in descending order, a permutation of them |
| BagScanner.AssembleRuns | src/bagbunker/bagbunker/scanner.py:44-62 | the inner loop emits the sets of its specification: gaps discard the run, index 0 closes a set that goes to the front |
| BagScanner.StepInv | src/bagbunker/bagbunker/scanner.py:48-61 | one iteration keeps the pending run counting up from `prev_idx` by one |
| BagScanner.AssembleFromZero | src/bagbunker/bagbunker/scanner.py:47-60 | every emitted set has indices exactly 0, 1, ..., k in ascending order |
| BagScanner.Zeros | src/bagbunker/bagbunker/scanner.py:55-57 | the entries with index 0, each of which closes a set |
| BagScanner.AssembleZeros | src/bagbunker/bagbunker/scanner.py:55-61 | one set per index-0 entry, of type `bag`, named after that entry's basename and in its directory |
| BagScanner.ZerosAscending | src/bagbunker/bagbunker/scanner.py:56-65 | within a directory the sets come out in ascending order, because each is inserted at the front |
| BagScanner.AssembleSubseq | src/bagbunker/bagbunker/scanner.py:47-58 | the files of all sets appear in entry order without repeats: each file lands in at most one set, and a discarded run's files are lost |
| BagScanner.GapIgnoresBasenames | src/bagbunker/bagbunker/scanner.py:47-58 | a run of one basename ending at index 1 is completed by the next basename's index 0 into one set |
| BagScanner.MissingMembersExample | src/bagbunker/bagbunker/scanner.py:47-61 | three sets missing file 2, 1 and 0 give sets of two files and one file, and the third is dropped |
| BagScanner.Collect | src/bagbunker/bagbunker/scanner.py:35-41 | the first loop records a directory iff it has indexed entries |
| BagScanner.CollectBags | src/bagbunker/bagbunker/scanner.py:34-41 | the first loop yields plain sets and groups indexed entries per directory as its specification says |
| BagScanner.CollectPrefixFailed | src/bagbunker/bagbunker/scanner.py:36 | once a name fails to match, later names change nothing |
| BagScanner.ScanBags | src/bagbunker/bagbunker/scanner.py:31-65 | the scanner generator yields and raises what its specification does |
| BagScanner.AssembleDirs | src/bagbunker/bagbunker/scanner.py:43-65 | the second loop emits the runs of each directory, directory by directory |
| BagScanner.CollectSound | src/bagbunker/bagbunker/scanner.py:35-41 | every gathered plain set and entry comes from an input file of its directory |
| BagScanner.AssembleInDir | src/bagbunker/bagbunker/scanner.py:56-57 | the sets of one directory's runs lie in that directory |
| BagScanner.AssembleIndexed | src/bagbunker/bagbunker/scanner.py:47-61 | the sets of one directory are indexed sets built from input files |
| BagScanner.RunsIndexed | src/bagbunker/bagbunker/scanner.py:43-65 | the runs of all directories are indexed sets of the input |
| BagScanner.RunsOrdered | src/bagbunker/bagbunker/scanner.py:43 | the runs come out in ascending directory order |
| BagScanner.BagScanPlainFirst | src/bagbunker/bagbunker/scanner.py:36-40 | plain `<base>.bag` sets are yielded first, in input order, before any indexed set |
| BagScanner.BagScanIndexed | src/bagbunker/bagbunker/scanner.py:43-65 | after the plain sets come indexed sets only, in ascending directory order |
| BagScanner.CollectFails | src/bagbunker/bagbunker/scanner.py:36 | the first loop fails iff some name does not match the expression |
| BagScanner.BagScanRaises | src/bagbunker/bagbunker/scanner.py:36 | the generator raises iff some name does not match (`None.groups()`) |
| BagScanner.PlainYielded | src/bagbunker/bagbunker/scanner.py:37-40 | every plain name before a failed match yields its own one-file set at index 0 |
| Storage.FirstActive | src/marv/marv/storage.py:134-139 | the first active row matching the filter, none iff no active row matches; deleted rows are never found |
| Storage.IsDuplicate | src/marv/marv/storage.py:155-174 | the duplicate test fails (an `IndexError`) exactly when either fileset has no files |
| Storage.MarkFiles | src/marv/marv/storage.py:88-95 | every file is marked missing iff its path does not exist |
| Storage.DetectedMissing | src/marv/marv/storage.py:84-97 | the sweep treats every row as its row-level step says, and keeps the row count |
| Storage.ReadAll | src/marv/marv/storage.py:100-125 | every pending row is read, every other row is left alone |
| Storage.VerifyAsWritten | src/marv/marv/storage.py:191-198 | as written, `verify_md5` succeeds only for a fileset without files, because `subprocess` is not imported |
| Storage.VerifyMd5 | src/marv/marv/storage.py:191-198 | as intended, `verify_md5` is true iff every file's sidecar checks out, and stops at the first that does not |
| Storage.Catalogue.constructor | src/marv/marv/storage.py:38-40 | a new catalogue is empty and well formed |
| Storage.Catalogue.HandleFound | src/marv/marv/storage.py:133-188 | the catalogue and the outcome after one candidate are those of the loop body's specification, and the catalogue stays well formed |
| Storage.Catalogue.DetectMissing | src/marv/marv/storage.py:84-97 | `_detect_missing` leaves the rows its specification gives, and the catalogue stays well formed |
| Storage.Catalogue.ScanAll | src/marv/marv/storage.py:130-189 | `scan_all` handles every yielded candidate in order; when the scan raises, the handled candidates stay, the sweep is skipped and the exception is returned; otherwise the sweep follows; the catalogue stays well formed |
| Storage.ScanAllOutcome | src/marv/marv/storage.py:130-189 | afterwards ids stay numbered, there is one outcome per yielded candidate, the scan's exception is passed on unchanged, and the sweep has run exactly when there was none |
| Storage.Catalogue.ReadPending | src/marv/marv/storage.py:100-125 | `read_pending` leaves the rows its specification gives, and the catalogue stays well formed |
| Storage.Md5Hit | src/marv/marv/storage.py:134-183 | on an md5 hit no row is added: a duplicate leaves the catalogue unchanged, otherwise the hit row is updated, unchanged when nothing differed |
| Storage.NewFileset | src/marv/marv/storage.py:137-152 | with no md5 hit and no name+type hit, an accepted candidate is appended with the next id |
| Storage.NewFilesetRejected | src/marv/marv/storage.py:143-188 | the same candidate rejected by `verify_md5` or raising leaves the catalogue unchanged |
| Storage.NameDuplicate | src/marv/marv/storage.py:154-159 | with a name+type hit whose first file lies elsewhere while both exist, the candidate is skipped |
| Storage.Supersedes | src/marv/marv/storage.py:161-169 | otherwise the hit row is deleted with reason `__superseded__` and the candidate appended, which is then the only active row of that name and type |
| Storage.RollsBack | src/marv/marv/storage.py:184-188 | an exception while handling a candidate leaves the catalogue as it was |
| Storage.HandleNumbered | src/marv/marv/storage.py:133-188 | handling a candidate adds at most one row and keeps the ids, md5s and times added of the old rows |
| Storage.ReconcileNumbered | src/marv/marv/storage.py:132-188 | the loop logs one outcome per candidate and adds at most one row per candidate |
| Storage.DetectMissingMarks | src/marv/marv/storage.py:87-95 | after the sweep every file of every active fileset is marked missing iff its path does not exist; deleted rows are untouched |
| Storage.DetectMissingIdempotent | src/marv/marv/storage.py:84-97 | a second sweep over an unchanged filesystem changes nothing |
| Storage.DetectMissingBroken | src/marv/marv/storage.py:84-97 | after the sweep an active fileset is broken iff one of its files does not exist |
| Storage.ReadPendingDone | src/marv/marv/storage.py:100-125 | afterwards no fileset is pending; each formerly pending one has `time_read` set and `read_succeeded` true iff the read worked, with error `unknown` when the message is empty |
| Storage.NewFilesetAsWritten | src/marv/marv/storage.py:143-193 | as written, a brand-new candidate with files is never added: the `NameError` rolls it back |
| Storage.NewFilesetVerified | src/marv/marv/storage.py:137-152 | with the intended verifier, such a candidate is added iff its sidecars check out |
| Cli.Assign | src/bagbunker/bagbunker/cli.py:70-71 | storing a section's keys: the last binding of each key wins and every other entry of the section is left as it was |
| Cli.PlaceSets | src/bagbunker/bagbunker/cli.py:69-71 | after a section is loaded, each of its keys is found under the dotted section path with its last value |
| Cli.PlaceKeeps | src/bagbunker/bagbunker/cli.py:69-71 | loading a section leaves every entry that is neither on its path nor one of its keys unchanged |
| Cli.PlaceFails | src/bagbunker/bagbunker/cli.py:69-71 | a section fails to load exactly when a plain value lies on its dotted path: before the last step (no setdefault), or at it when the section has keys (no item assignment) |
| Cli.ConfiguredStops | src/bagbunker/bagbunker/cli.py:68-71 | once a section fails, the whole read_config fails with that error |
| Cli.ReadConfig | src/bagbunker/bagbunker/cli.py:64-72 | the section loop builds exactly the nested configuration of the sections in file order |
| Cli.SharedPrefixExample | src/bagbunker/bagbunker/cli.py:69 | sections a.b and a.c end up side by side under a |
| Cli.NonEmpty | src/bagbunker/bagbunker/cli.py:298 | filter(None, parts) keeps exactly the non-empty parts |
| Cli.NonEmptyAppend | src/bagbunker/bagbunker/cli.py:298 | filter(None, ...) of a concatenation is the concatenation of the filtered pieces, so order and repetitions of the parts are kept |
| Cli.NonEmptySingle | src/bagbunker/bagbunker/cli.py:298 | a single part is kept exactly when it is not empty |
| Cli.ConfiguredJobs | src/bagbunker/bagbunker/cli.py:298 | the configured job list is exactly `filter(None, ...)` of job.list split at single spaces, in order and with repetitions, and empty without job or job.list; no word in it is empty or spaced; it raises exactly when job or job.list is of the wrong kind |
| Cli.JobList | src/bagbunker/bagbunker/cli.py:289-299 | help is shown iff there is no subcommand, no --all and no --job; a subcommand wins, then --job, then the configured list, then all registered jobs |
| Cli.FirstUnrunnable | src/bagbunker/bagbunker/cli.py:300-301 | the position of the first listed job that is unregistered or has no inputs, every one before it being runnable |
| Cli.Commands | src/bagbunker/bagbunker/cli.py:300-301 | cmdlist succeeds iff every listed job is registered with inputs, then has one command per name in order with the first input's topics; otherwise the first bad name raises KeyError or IndexError |
| Cli.MaxVersion | src/bagbunker/bagbunker/cli.py:327-329 | the largest version among the job's succeeded or failed runs, none iff there is no such run |
| Cli.SkippedIff | src/bagbunker/bagbunker/cli.py:331-333 | unless forced, a job is skipped exactly when some completed run of it has a version at least its own |
| Cli.SelectionChosen | src/bagbunker/bagbunker/cli.py:330-343 | a command is started for a fileset iff it is not skipped and has no topics or shares one with the fileset |
| Cli.SelectionTopics | src/bagbunker/bagbunker/cli.py:330-343 | the topics read are exactly the fileset topics that some started command wants |
| Cli.SelectJobs | src/bagbunker/bagbunker/cli.py:321-343 | the inner loop computes the selection's topics and commands |
| Cli.PlanOfIff | src/bagbunker/bagbunker/cli.py:307-345 | a fileset gets a matrix line iff it is active, intact, read, passes the --fileset filter, has a bag, and some command is wanted for it |
| Cli.MatrixEntries | src/bagbunker/bagbunker/cli.py:307-345 | the matrix holds exactly the plans of the filesets that get one |
| Cli.BuildMatrix | src/bagbunker/bagbunker/cli.py:316-345 | the fileset loop fills the matrix in listing order |
| Cli.OnTopics | src/bagbunker/bagbunker/cli.py:378 | the messages kept are exactly those on the given topics, none for no topics |
| Cli.OnTopicsAppend | src/bagbunker/bagbunker/cli.py:376-379 | filtering distributes over concatenation of bag files |
| Cli.OnTopicsTwice | src/bagbunker/bagbunker/cli.py:378-385 | filtering for a job's topics after reading a wider topic set equals filtering for the job's topics alone |
| Cli.Flatten | src/bagbunker/bagbunker/cli.py:376-379 | all messages of all bag files, each from some file |
| Cli.ReadIsFiltered | src/bagbunker/bagbunker/cli.py:372-379 | messages() yields the bag's messages on the topics read, file after file, in order, and nothing for no topics |
| Cli.ReadMessages | src/bagbunker/bagbunker/cli.py:372-379 | the reading loops yield exactly the specified messages |
| Cli.Wrap | src/bagbunker/bagbunker/cli.py:386 | one queue item per message, in order |
| Cli.QueuedShape | src/bagbunker/bagbunker/cli.py:381-389 | a job's inbox holds the read messages on its topics in order and ends with exactly one Done marker |
| Cli.Deliver | src/bagbunker/bagbunker/cli.py:382-386 | a message joins the inbox of exactly the jobs whose topics hold its topic |
| Cli.FanOut | src/bagbunker/bagbunker/cli.py:381-389 | after delivery each job's inbox is its queued messages followed by Done |
| Cli.Close | src/bagbunker/bagbunker/cli.py:388-389 | every inbox, and only its end, gets exactly one Done marker after the messages already queued |
| Cli.JobSeesItsTopics | src/bagbunker/bagbunker/cli.py:335-386 | every started job receives every message of the bag on its own topics, in order |
| Cli.PurgeKeepsLatest | src/bagbunker/bagbunker/cli.py:191-196 | with unique ids, a run survives purge-jobruns exactly when it is the latest run of its job on its fileset |
| Widgeting.Key | src/marv/marv/widgeting.py:54-57 | a key ends in the name and, with a non-empty namespace, starts with the namespace and `::` |
| Widgeting.KeyInjective | src/marv/marv/widgeting.py:54-57 | with non-empty namespaces free of `:`, equal keys mean equal namespace and name |
| Widgeting.KeyAmbiguous | src/marv/marv/widgeting.py:54-57 | without that condition keys collide: the bare name `a::b` has the key of name `b` in namespace `a` |
| Widgeting.MakeParam | src/marv/marv/widgeting.py:41-49 | a parameter keeps its name, namespace and help; a missing title comes from the name, a missing type is the lower-cased class name |
| Widgeting.Registering | src/marv/marv/widgeting.py:96-98 | registering fails with KeyCollision exactly when the key is taken; otherwise the widget is added under its key and nothing else changes |
| Widgeting.RegisterAllOk | src/marv/marv/widgeting.py:96-98 | a series of registrations succeeds iff all keys are new and pairwise different |
| Widgeting.RegisterAllContents | src/marv/marv/widgeting.py:96-98 | after a successful series every earlier entry is unchanged and every widget is found under its key |
| Widgeting.Registry.constructor | src/marv/marv/widgeting.py:79-81 | the `registry` dict handed to `make_register` starts empty, so the first key registered never collides |
| Widgeting.Registry.Register | src/marv/marv/widgeting.py:96-99 | a taken key raises KeyCollision and leaves the registry as it was; a new key adds exactly that widget |
| Widgeting.FirstPrefix | src/marv/marv/widgeting.py:86-89 | the first module-map entry whose prefix starts the module name, none iff no entry does |
| Widgeting.FirstPrefixAt | src/marv/marv/widgeting.py:86-89 | an entry that matches with no matching entry before it is the one chosen |
| Widgeting.Rewritten | src/marv/marv/widgeting.py:87-88 | the namespace is the module name with the chosen prefix replaced by its mapped value, or the module name itself when no prefix matches |
| Widgeting.ChooseNamespace | src/marv/marv/widgeting.py:83-91 | an explicit namespace is used as given; otherwise the search loop gives the rewritten module name |
| Widgeting.ParamMemo | src/marv/marv/widgeting.py:127-133 | a parameter is appended to a widget's params, or to the function's collected parameters, leaving the rest unchanged |
| Widgeting.DecoratedMemo | src/marv/marv/widgeting.py:127-133 | decorators applied bottom-up collect the parameters in reverse of their written order |
| Widgeting.MakeWidget | src/marv/marv/widgeting.py:106-123 | a widget is made at most once (TypeError otherwise); its params are the collected ones reversed and removed from the function; help is the cleaned explicit text or else the cleaned docstring (`inspect.getdoc`); a missing name is the lower-cased function name |
| Widgeting.DeclarationOrder | src/marv/marv/widgeting.py:106-144 | the parameters end up in the widget in the order they are written above the function |
| Widgets.MakeColumn | src/marv/marv/widget.py:67-74 | a column keeps its name and list flag; a missing title is the title-cased name and a given one is kept; an omitted formatter is `'string'` and a given one, `None` included, is kept |
| Widgets.JoinVals | src/marv/marv/widget.py:82 | joining with spaces succeeds exactly when every item is a string |
| Widgets.ColumnCall | src/marv/marv/widget.py:76-83 | the dictionary has no None value; name and title are always present, formatter and list exactly when set, value exactly when the row has a non-None entry; a list is kept only for a list column and is otherwise space-joined, failing with TypeError exactly when it holds a non-string |
| Widgets.ShownListSplits | src/marv/marv/widget.py:80-83 | a list of space-free words shown in a plain column splits back into the same words |
| Widgets.ColumnObject.constructor | src/marv/marv/widget.py:66-74 | a column object starts without a transient value |
| Widgets.ColumnObject.Call | src/marv/marv/widget.py:76-85 | a call gives the column dictionary and removes the transient value again; a raising join leaves it set |
| Widgets.ColumnsOf | src/marv/marv/widget.py:101-105 | the columns are exactly the column parameters |
| Widgets.MakeWidget | src/marv/marv/widget.py:89-105 | a widget keeps name, help and params; its columns are the column params in order; the title defaults to the title-cased name and the type to the lower-cased class name; no state is set |
| Widgets.RowColumns | src/marv/marv/widget.py:141 | every column applied to the row, in column order, failing iff some column fails |
| Widgets.TableRows | src/marv/marv/widget.py:151-157 | one columns list per row, in row order, failing iff some row fails |
| Widgets.Call | src/marv/marv/widget.py:107-165 | None when the callback gives None; otherwise title, state and type with the serialised payload: an image its `image`, a gallery its `images`, a text its `text`, a row every column applied to the row in order (failing iff a column fails), a table its sort and exactly the rows' column lists |
| Decorators.Snake | src/marv/marv/decorators.py:43 | the substitution leaves no capital and never shortens the name |
| Decorators.CamelSnake | src/marv/marv/decorators.py:43 | on names without underscores the substitution is undone by camel-casing |
| Decorators.TableName | src/marv/marv/decorators.py:42-44 | the table name has no capital and, for a capitalised class name, is the substituted name without its leading underscore |
| Decorators.TableNameRoundTrip | src/marv/marv/decorators.py:42-44 | a capitalised class name without underscores is recovered from its table name |
| Decorators.TableNamesDistinct | src/marv/marv/decorators.py:42-44 | two such class names never share a table name |
| Decorators.TableNameExamples | src/marv/marv/decorators.py:42-44 | Bag gives bag, Model2A gives model2_a, and a lower-case initial is lost (bag gives ag) |
| Decorators.SnakeAppend | src/marv/marv/decorators.py:43 | the substitution works character by character, so it distributes over concatenation |
| Decorators.JobModelTable | src/marv/marv/decorators.py:78-85 | a module name without a dot raises ValueError, an unmapped package KeyError; otherwise the table is the group, the job name and the table name joined by `__` |
| Decorators.JobModelTablesDistinct | src/marv/marv/decorators.py:78-85 | two such classes of one job module get different tables |
| Decorators.ModelList.constructor | src/marv/marv/job.py:35 | the model list starts empty |
| Decorators.ModelList.AddFileset | src/marv/marv/decorators.py:41-63 | the fileset decorator appends one model named after its class |
| Decorators.ModelList.AddJobModel | src/marv/marv/decorators.py:76-104 | the job_model decorator appends its table, or nothing when the name cannot be derived |
| Decorators.ParamMemo | src/marv/marv/decorators.py:215-221 | a parameter joins the end of a widget's params or of the function's memo, nothing else changing |
| Decorators.DecoratedMemo | src/marv/marv/decorators.py:215-229 | decorators applied from the function outwards leave the memo in reverse written order |
| Decorators.MakeWidget | src/marv/marv/decorators.py:146-165 | a widget raises TypeError; otherwise the widget takes the reversed memo, which leaves the function; help is the cleaned explicit text or else the cleaned docstring (`inspect.getdoc`); a missing or empty name is the lower-cased function name |
| Decorators.DeclarationOrder | src/marv/marv/decorators.py:146-165 | parameters written above a fresh function reach the widget in written order, its columns among them |
| Filtering.ParseOp | src/marv/marv/filtering.py:33-40 | exactly the six operators == != > < >= <= are known; any other raises KeyError |
| Filtering.Compare | src/marv/marv/filtering.py:45-46 | compare succeeds exactly for the six operators and applies the named comparison |
| Filtering.CompareDuals | src/marv/marv/filtering.py:33-40 | != negates ==, > is < swapped, >= negates <, <= negates < swapped |
| Filtering.NumLen | src/marv/marv/filtering.py:56 | the longest prefix of digits and dots |
| Filtering.UnitIndex | src/marv/marv/filtering.py:56-57 | a unit letter's position in bkmgtpezy, in either case; a unit letter is neither space nor number character |
| Filtering.SizeMatch | src/marv/marv/filtering.py:56 | a match yields a non-empty run of digits and dots and, optionally, a known unit letter |
| Filtering.FloatOf | src/marv/marv/filtering.py:62 | float() accepts a run of digits and dots exactly when it has at most one dot and is not only that dot; a dot-free number reads as its digits' value; `W.F` reads exactly as W + F / 10^k, k the number of digits of F (W and F possibly empty) |
| Filtering.DigitsAppend | src/marv/marv/filtering.py:62 | digits written after digits shift their value by a power of ten |
| Filtering.Filesize | src/marv/marv/filtering.py:60-65 | filesize fails exactly when the pattern does not match (AttributeError) or float rejects the number (ValueError); otherwise the result r is the non-negative integer with r <= number times 2^(10 i) < r + 1, the factor being 1 without a unit, i.e. `int()` truncation |
| Filtering.FilesizeTruncates | src/marv/marv/filtering.py:60-65 | 2.7 is 2: `int()` of a fractional number without unit truncates |
| Filtering.FilesizeTruncatesScaled | src/marv/marv/filtering.py:60-65 | 1.3k (1331.2) is 1331: the scaled number is truncated |
| Filtering.FilesizeOfDecimal | src/marv/marv/filtering.py:56-65 | a whole number followed by a unit letter and optional b reads back as the number times the unit's factor |
| Filtering.FilesizeOfPlainDecimal | src/marv/marv/filtering.py:60-65 | a whole number without unit reads back as itself |
| Filtering.FilesizeOneGiga | src/marv/marv/filtering.py:60-65 | 1G is 1073741824 |
| Filtering.FilesizeFraction | src/marv/marv/filtering.py:60-65 | 1.5k is 1536 |
| Filtering.FilesizeTooManyDots | src/marv/marv/filtering.py:61-62 | 1.2.3 matches the pattern but float rejects it with ValueError |
| Filtering.FilesizeNoMatch | src/marv/marv/filtering.py:61 | a string the pattern does not match raises AttributeError |
| Filtering.NormalizationOf | src/marv/marv/filtering.py:68-75 | exactly the six value types are known, date and sublist unchanged; any other raises KeyError |
| Filtering.Truncate | src/marv/marv/filtering.py:73 | `int()` of a float is the integer on the side of zero that is less than one away from it |
| Filtering.NormalizeScalar | src/marv/marv/filtering.py:68-75 | date and sublist values pass unchanged; filesize succeeds iff the value is a string it accepts, other kinds raise TypeError; float and int succeed iff the value is a number, a boolean or a string they parse, with None, lists and objects raising TypeError; int truncates a float; str fails iff the value is a non-ASCII string (UnicodeEncodeError) and keeps an ASCII string unchanged |
| Filtering.NormalizeEach | src/marv/marv/filtering.py:80-81 | a list is normalised element by element, failing iff some element fails |
| Filtering.NormalizeInput | src/marv/marv/filtering.py:78-84 | an unknown value type raises KeyError; a list is normalised element-wise (succeeding iff every element does, values in place), any other JSON value (string, number, boolean, null, object) directly |
| Filtering.IntegerOfString | src/marv/marv/filtering.py:72-73 | str then int of an integer round-trips |
| Filtering.IntOfIntText | src/marv/marv/filtering.py:72-73 | int() reads back what str() writes for an integer |
| Filtering.LastSepBelow | src/marv/marv/filtering.py:91 | the start of the last `::` below a bound, none iff there is none |
| Filtering.SplitKey | src/marv/marv/filtering.py:91 | rsplit at the last `::` fails (ValueError) iff there is none, and the parts joined by `::` give the key back |
| Filtering.InputKeyRoundTrip | src/marv/marv/filtering.py:91-121 | splitting a rendered input key gives the filter key and the input name back |
| Filtering.Put | src/marv/marv/filtering.py:92 | storing an input makes it found under its name, leaves every other name's entry unchanged, keeps an existing name in its place and adds a new one at the end |
| Filtering.Unflatten | src/marv/marv/filtering.py:88-92 | grouping fails exactly when some key has no `::` |
| Filtering.FirstInput | src/marv/marv/filtering.py:98 | the first declared input of that name, none iff no input has it |
| Filtering.NormalizeGroup | src/marv/marv/filtering.py:97-99 | a group normalises input by input, each named input being declared by the filter |
| Filtering.WithInputs | src/marv/marv/filtering.py:94-96 | the registered filter keys with inputs, in registration order |
| Filtering.ApplyAllShape | src/marv/marv/filtering.py:94-100 | the query is extended by exactly one application per registered filter with inputs, in registration order |
| Filtering.FilterRegistry.constructor | src/marv/marv/filtering.py:32 | the filter registry starts empty |
| Filtering.FilterRegistry.Register | src/marv/marv/decorators.py:132-137 | the filter decorator stores the filter under its key, replacing an earlier one which keeps its place |
| Filtering.FilterRegistry.Query | src/marv/marv/filtering.py:87-102 | a query over the registered filters is filter_query over them |
| Filtering.ApplyFilters | src/marv/marv/filtering.py:94-100 | the second loop applies the filters as specified |
| Filtering.GroupInputs | src/marv/marv/filtering.py:88-92 | the first loop groups the request's entries as specified |
| Filtering.UnflattenStops | src/marv/marv/filtering.py:90-92 | once a key fails to split, grouping fails with that error |
| Filtering.ApplyStops | src/marv/marv/filtering.py:94-100 | once a filter fails, the whole query fails with that error |
| Filtering.AppliedFilters | src/marv/marv/filtering.py:87-102 | the filters applied are exactly the registered ones the request names with inputs, in registration order; entries for unregistered filters are ignored |
| View.TotalSize | src/marv/marv/view.py:30-31 | the size of a fileset is non-negative when its files' sizes are |
| View.TotalSizeAppend | src/marv/marv/view.py:30-31 | the size of two runs of files is the sum of their sizes |
| View.TotalSizeBound | src/marv/marv/view.py:30-31 | every file's size is counted in the total |
| View.StatusEntries | src/marv/marv/view.py:70-95 | the listing status has a missing-file entry iff some file is missing, a not-processed entry iff the fileset was never read, a read-error entry iff it was read without success, never both of the last two, and a failed-jobs entry iff some job failed |
| View.BaseListing | src/marv/marv/view.py:65-112 | the listing row has the status above, the first 7 md5 characters, the summed size, the tags sorted and unsorted, and file, job and comment counts equal to the relations' lengths |
| View.Listing | src/marv/marv/view.py:65-112 | the failed-jobs entry of the status lists, sorted and once each, exactly the jobs whose latest run failed |
| View.FilesDetail | src/marv/marv/view.py:137-148 | one file row per file in order; its status is non-empty iff the file is missing, and it links the download of its md5 |
| View.FilesDetailLinks | src/marv/marv/view.py:137-140 | files with different md5 get different download links |
| View.FailedJobs | src/marv/marv/view.py:155-160 | no table without failed jobs, otherwise one row per failed job in order |
| View.FailedJobsAgree | src/marv/marv/view.py:89-160 | the failed-jobs table exists iff the listing shows the failed-jobs icon |
| Routes.FindId | src/marv/marv/__init__.py:162 | the first tag with that id, none iff there is none |
| Routes.FindLabel | src/marv/marv/__init__.py:166 | the first tag with that label, none iff there is none |
| Routes.Remove | src/marv/marv/__init__.py:199 | removing a fileset from a tag drops one occurrence and nothing else |
| Routes.TagOutcome | src/marv/marv/__init__.py:151-177 | tagging answers 400 exactly for a missing body, an unknown fileset, an id naming no tag, or neither id nor label, and then changes nothing; otherwise the named or new tag holds the fileset and the answer is its label and id |
| Routes.TagKeepsValid | src/marv/marv/__init__.py:151-177 | tagging keeps tag ids and labels unique and every fileset listed once per tag, on tables that may hold empty tags |
| Routes.UntagKeepsValid | src/marv/marv/__init__.py:179-206 | untagging keeps the tag table valid |
| Routes.AttachKeepsValid | src/marv/marv/__init__.py:172-173 | adding a fileset to a tag only when absent keeps the table valid |
| Routes.DetachKeepsValid | src/marv/marv/__init__.py:198-203 | removing a fileset, and the tag with its last fileset, keeps the table valid |
| Routes.RemoveDistinct | src/marv/marv/__init__.py:199 | removal from a list without repeats leaves no occurrence |
| Routes.TagIdempotent | src/marv/marv/__init__.py:172-175 | repeating a tag request changes nothing more and gives the same answer |
| Routes.AttachTwice | src/marv/marv/__init__.py:172-173 | adding a fileset twice is adding it once |
| Routes.TagUntagRoundTrip | src/marv/marv/__init__.py:151-206 | untagging a fileset no tag held undoes tagging it, a freshly created tag included; a named tag that held no fileset (as the sanity check job can leave `invalid`) is deleted instead |
| Routes.UntagCreated | src/marv/marv/__init__.py:165-203 | an untag request deletes again the tag its twin tag request created by label |
| Routes.UntagAttached | src/marv/marv/__init__.py:187-203 | the untag request finds again the tag its twin tag request added the fileset to, and removing the fileset restores that tag, or deletes it when it had been empty |
| Routes.DetachAttach | src/marv/marv/__init__.py:172-203 | removing what was just added to a tag holding filesets restores the table |
| Routes.DetachAttachEmpty | src/marv/marv/__init__.py:172-203 | adding a fileset to an empty tag and removing it again deletes the tag |
| Routes.DetachCreated | src/marv/marv/__init__.py:168-203 | untagging the only fileset of a new tag deletes the tag again |
| Routes.UntagOutcome | src/marv/marv/__init__.py:179-206 | untagging without a body or fileset id raises; it answers 400 exactly for an unknown fileset, an id or label naming no tag, or neither given, and then changes nothing; otherwise it answers empty |
| Routes.UntagUnassociated | src/marv/marv/__init__.py:198-206 | untagging an unassociated pair changes nothing |
| Routes.UntagDetaches | src/marv/marv/__init__.py:198-204 | after an accepted untag the tag is gone or no longer holds the fileset, and no other tag changed |
| Routes.TagTable.constructor | src/marv/marv/__init__.py:151-206 | the tag table starts empty and valid |
| Routes.TagTable.Tag | src/marv/marv/__init__.py:151-177 | the tag route changes the table and answers as specified, keeping it valid; empty tags are allowed |
| Routes.TagTable.Untag | src/marv/marv/__init__.py:179-206 | the untag route changes the table and answers as specified, keeping it valid; empty tags are allowed |
| Routes.DeleteFileset | src/marv/marv/__init__.py:239-246 | the fileset is marked deleted with the current username as reason and nothing else changes; an unknown id raises NoResultFound and changes nothing |
| Reader.AddTopicsCounts | src/bagbunker/bagbunker/reader.py:53-54 | adding a file's topic counts adds, per topic and type, the file's entries to what was there, a missing key counting 0 |
| Reader.TotalsCount | src/bagbunker/bagbunker/reader.py:41-54 | the summary counts a topic and type iff some file lists it, with the sum of its counts over all files |
| Reader.TotalOfAppend | src/bagbunker/bagbunker/reader.py:42-54 | the counts of consecutive runs of files add up |
| Reader.Summarize | src/bagbunker/bagbunker/reader.py:34-82 | start time from the first file, end time from the last, duration their difference, counts summed per topic and type; no files raises TypeError |
| Reader.AddFile | src/bagbunker/bagbunker/reader.py:53-54 | the inner loop adds exactly one file's counts |
| Reader.TopicTable | src/bagbunker/bagbunker/reader.py:95-98 | the table holds exactly the bag's topics that are requested, or all when none are, each with its position in the full topic list and its type |
| Reader.TopicIdsStable | src/bagbunker/bagbunker/reader.py:95-98 | requesting topics does not renumber them |
| Reader.FirstHandled | src/bagbunker/bagbunker/reader.py:137-138 | the first accepted mimetype that has a handler, none iff none has |
| Reader.ChooseHandler | src/bagbunker/bagbunker/reader.py:126-141 | without an Accept list the catch-all is chosen; otherwise the first accepted mimetype with a handler, and 400 iff there is none |
| Reader.Reported | src/bagbunker/bagbunker/reader.py:148 | the catch-all is reported as application/x-ros-bag-msgs, any other mimetype as itself |
| Reader.MimetypeExamples | src/bagbunker/bagbunker/reader.py:126-148 | no Accept list gives the catch-all, reported as the bag-messages type; foo/foo, foo/bar gives foo/bar; foo/foo alone gives 400 |
| Reader.Stream | src/bagbunker/bagbunker/reader.py:113-122 | the stream yields the meta record, then one record per message in order with its topic's id; it raises KeyError iff some topic is outside the table, and then only after the records of the messages before the first such one |
| Reader.StreamRaises | src/bagbunker/bagbunker/reader.py:113-122 | a raising stream has yielded exactly the stream of the messages before the first one on a missing topic |
| Reader.StreamMessages | src/bagbunker/bagbunker/reader.py:113-157 | a stream over table topics starts with the meta record, which the client consumes, followed only by messages |
| Reader.PulledEnough | src/bagbunker/bagbunker/reader.py:170-174 | read pulls chunks until the buffer holds n bytes or the chunks run out, and no more |
| Reader.StreamClient.constructor | src/bagbunker/bagbunker/reader.py:153-155 | the client starts with the first chunk buffered and the rest pending |
| Reader.StreamClient.Read | src/bagbunker/bagbunker/reader.py:168-177 | read returns at most n bytes (exactly n when available); the returned bytes and the new buffer are the old buffer plus the pulled chunks, which leave the pending ones |
| Reader.StreamClient.ReadLine | src/bagbunker/bagbunker/reader.py:179-181 | readline always raises NotImplementedError |
| SanityCheck.ClassifyMeaning | src/deepfield_jobs/deepfield_jobs/sanity_check.py:209-214 | a threshold check gives OK exactly within both configured bounds, TOLOW exactly below min, TOHIGH otherwise; min is checked first, so with crossed bounds TOLOW wins |
| SanityCheck.RenamedTopics | src/deepfield_jobs/deepfield_jobs/sanity_check.py:170-175 | the configured topics under their keys with camX replaced by the module name, a later key overwriting one that renames the same |
| SanityCheck.Dedup | src/deepfield_jobs/deepfield_jobs/sanity_check.py:173 | the first occurrence of each name, no name twice and none lost |
| SanityCheck.RenamedNames | src/deepfield_jobs/deepfield_jobs/sanity_check.py:173 | the renamed names are exactly the keys of the renamed configuration |
| SanityCheck.TopicOrder | src/deepfield_jobs/deepfield_jobs/sanity_check.py:206 | the topics are checked in sorted order, each renamed key exactly once |
| SanityCheck.TopicChecks | src/deepfield_jobs/deepfield_jobs/sanity_check.py:206-220 | one check per topic, in the given order |
| SanityCheck.MinOf | src/deepfield_jobs/deepfield_jobs/sanity_check.py:269-270 | the smallest count of a group |
| SanityCheck.MaxOf | src/deepfield_jobs/deepfield_jobs/sanity_check.py:271-272 | the largest count of a group |
| SanityCheck.GroupCounts | src/deepfield_jobs/deepfield_jobs/sanity_check.py:264-268 | the group's counts after renaming, a topic without messages counting 0 |
| SanityCheck.SyncedChecks | src/deepfield_jobs/deepfield_jobs/sanity_check.py:258-279 | one check per synced group, in configured order |
| SanityCheck.TopicCodes | src/deepfield_jobs/deepfield_jobs/sanity_check.py:206-220 | every topic check carries one of the six codes and the name of its topic |
| SanityCheck.TrailerLayout | src/deepfield_jobs/deepfield_jobs/sanity_check.py:222-287 | after the topic checks come Duration, Filesize, Tracklength when configured, one check per synced group, and GPS Errors last, which is ERROR iff some GPS error was collected, with the error count as its value |
| SanityCheck.AnalysisLayout | src/deepfield_jobs/deepfield_jobs/sanity_check.py:191-290 | the results are one check per configured topic in sorted order, then the trailer, and every code is one of the six |
| SanityCheck.SpreadMeaning | src/deepfield_jobs/deepfield_jobs/sanity_check.py:262-274 | a non-empty group's spread is at least every difference of two counts, and 0 when all counts are equal |
| SanityCheck.GroupSpread | src/deepfield_jobs/deepfield_jobs/sanity_check.py:262-274 | the min/max loop with its sentinel starts computes the group's spread |
| SanityCheck.CheckTopics | src/deepfield_jobs/deepfield_jobs/sanity_check.py:206-220 | the topic loop classifies each topic, a missing one as NONEXIST with value -1 |
| SanityCheck.CheckSynced | src/deepfield_jobs/deepfield_jobs/sanity_check.py:258-279 | the synced-group loop gives the specified checks |
| SanityCheck.Analyse | src/deepfield_jobs/deepfield_jobs/sanity_check.py:191-290 | analyse_bag_file appends exactly the specified results |
| SanityCheck.Success | src/deepfield_jobs/deepfield_jobs/sanity_check.py:335-340 | success holds iff every check is OK or TOHIGH |
| SanityCheck.Filesize | src/deepfield_jobs/deepfield_jobs/sanity_check.py:156-160 | the uncompressed size when the summary has one, else the size, raising when it has neither |
| SanityCheck.Level | src/deepfield_jobs/deepfield_jobs/sanity_check.py:302-317 | OK maps to the OK level, TOHIGH to WARN, and every other code, unknown ones included, to ERROR |
| SanityCheck.LevelIsWorst | src/deepfield_jobs/deepfield_jobs/sanity_check.py:300-321 | the diagnostic level is ERROR iff some check maps to ERROR, WARN iff some check is TOHIGH and none maps to ERROR, OK iff every check is OK |
| SanityCheck.Diagnose | src/deepfield_jobs/deepfield_jobs/sanity_check.py:294-323 | the published level is the escalated level, with one key/value pair per check, in order, named with the code's label |
| SanityCheck.AsWrittenAgrees | src/deepfield_jobs/deepfield_jobs/sanity_check.py:300-321 | for codes from -6 to 5 the level lookup as written gives the intended level |
| SanityCheck.UnknownCodeRaises | src/deepfield_jobs/deepfield_jobs/sanity_check.py:302 | code 6 raises IndexError as written, where the unknown-code branch evidently meant ERROR |
| SanityJob.ExtractModuleName | src/deepfield_jobs/deepfield_jobs/sanity_check_job.py:124-130 | the extracted module name is either empty or one of camA, camB, camC, main |
| SanityJob.ModuleNameOf | src/deepfield_jobs/deepfield_jobs/sanity_check_job.py:124-130 | a bag named `<stem>__<module>.bag` in any directory yields its module when the stem holds no `/`, `_` or `.` |
| SanityJob.NoModuleName | src/deepfield_jobs/deepfield_jobs/sanity_check_job.py:124-130 | a bag named `<stem>.bag` whose stem is not a module yields the empty name, so the job skips it |
| SanityJob.ModuleFiles | src/deepfield_jobs/deepfield_jobs/sanity_check_job.py:150-153 | the analysed files are exactly the fileset's files whose name carries a module |
| SanityJob.Records | src/deepfield_jobs/deepfield_jobs/sanity_check_job.py:150-177 | one stored result per analysed file, in file order, each the outcome of that file |
| SanityJob.Toggle | src/deepfield_jobs/deepfield_jobs/sanity_check_job.py:167-173 | the corrected toggle (the code as written is `ToggleAsWritten`, see `ToggleAsWrittenFails` and the findings) changes only the `invalid` tag's filesets (creating the tag when missing); every other tag is left as it was |
| SanityJob.ToggleMarks | src/deepfield_jobs/deepfield_jobs/sanity_check_job.py:161-173 | after the toggle the fileset is in the `invalid` tag exactly when the check failed, and the tag lists no fileset twice |
| SanityJob.ToggleAgrees | src/deepfield_jobs/deepfield_jobs/sanity_check_job.py:141-173 | when the fileset is in no other tag, and the `invalid` tag is stored or the check failed, the code as written succeeds and agrees with the corrected toggle |
| SanityJob.ToggleAsWrittenFails | src/deepfield_jobs/deepfield_jobs/sanity_check_job.py:141-173 | a passing fileset that is in another tag but not in `invalid` makes the code as written raise ValueError; a failing one in that state is not added to `invalid`, while the corrected toggle adds it; with no tags, a passing run leaves the freshly built `invalid` tag unstored (it is never added to the session), while the corrected toggle stores it empty |
| SanityJob.TagsAfterMarks | src/deepfield_jobs/deepfield_jobs/sanity_check_job.py:150-177 | after all bags of the fileset, its membership in `invalid` reflects the last analysed bag's success, and other tags are unchanged |
| SanityJob.Job | src/deepfield_jobs/deepfield_jobs/sanity_check_job.py:138-177 | the job's loop stores the per-file outcomes and leaves the tags as the successive corrected toggles make them (the code as written is `ToggleAsWritten`, see `ToggleAsWrittenFails`) |
| SanityJob.Configured | src/deepfield_jobs/deepfield_jobs/sanity_check_job.py:101-102 | the configured topics are looked up under exactly the names the configuration lists |
| SanityJob.EntryRows | src/deepfield_jobs/deepfield_jobs/sanity_check_job.py:94-114 | one row per stored check, in order, each that check's rendering |
| SanityJob.RowsShape | src/deepfield_jobs/deepfield_jobs/sanity_check_job.py:91-119 | the table holds one row per check plus one summary row per stored result, the last row summarising the last result |
| SanityJob.EntryRowMeaning | src/deepfield_jobs/deepfield_jobs/sanity_check_job.py:96-114 | a row shows the value; a name starting with `/` is labelled `Topic`; the status starts with its text, and carries a bounds annotation exactly for a configured topic with a min or max |
| SanityJob.EntryRowsOf | src/deepfield_jobs/deepfield_jobs/sanity_check_job.py:94-114 | the rows of one result are produced exactly when all its codes are in the status table |
| SanityJob.DetailView | src/deepfield_jobs/deepfield_jobs/sanity_check_job.py:75-120 | no table without a job run, a KeyError for an unknown code, otherwise every result's rows followed by its summary |
| CameraFrames.Ceil | src/deepfield_jobs/deepfield_jobs/camera_frames.py:132-133 | for a positive `max_frames` the interval is the least number whose multiple by `max_frames` reaches the topic's message count |
| CameraFrames.CameraCounts | src/deepfield_jobs/deepfield_jobs/camera_frames.py:130-131 | the counted topics are exactly the bag's topics that are camera topics, with their summary counts |
| CameraFrames.Intervals | src/deepfield_jobs/deepfield_jobs/camera_frames.py:132-133 | a `max_frames` of zero raises ZeroDivisionError exactly when there is a topic to divide for; otherwise every counted topic gets its ceiling interval |
| CameraFrames.StepCounted | src/deepfield_jobs/deepfield_jobs/camera_frames.py:138-147 | one message succeeds exactly for a counted topic with a non-zero interval, and it advances that topic's message counter and, on a multiple of the interval, its frame counter |
| CameraFrames.RunCounters | src/deepfield_jobs/deepfield_jobs/camera_frames.py:134-147 | the message loop succeeds exactly when every message's topic is counted with a non-zero interval; each topic's message counter is then its number of messages and its frame counter the number of those at a multiple of the interval |
| CameraFrames.ExtractedCeil | src/deepfield_jobs/deepfield_jobs/camera_frames.py:139-144 | of `c` messages at interval `k`, the frames taken are the ceiling of `c / k` |
| CameraFrames.FramesBound | src/deepfield_jobs/deepfield_jobs/camera_frames.py:123-144 | with no more messages than the summary count, a topic gets at most `max_frames` frames |
| CameraFrames.RunFrames | src/deepfield_jobs/deepfield_jobs/camera_frames.py:123-147 | with a positive `max_frames` and message counts within the summary, every counted topic ends with at most `max_frames` frames |
| CameraFrames.StepFrames | src/deepfield_jobs/deepfield_jobs/camera_frames.py:143-147 | a written file is a frame of a counted topic numbered below that topic's frame counter, and one message keeps that so |
| CameraFrames.RunFiles | src/deepfield_jobs/deepfield_jobs/camera_frames.py:138-147 | every file the loop writes is a frame of a counted topic numbered below that topic's frame counter |
| CameraFrames.RunAbort | src/deepfield_jobs/deepfield_jobs/camera_frames.py:138-141 | once a message raises, the whole loop raises that error |
| CameraFrames.RunMessages | src/deepfield_jobs/deepfield_jobs/camera_frames.py:138-147 | the message loop, stopping at the first error, is the run of the specification |
| CameraFrames.RunJob | src/deepfield_jobs/deepfield_jobs/camera_frames.py:125-155 | the job computes the intervals, then runs the messages, and yields the frame files or the first error |
| CameraFrames.FrameInGallery | src/deepfield_jobs/deepfield_jobs/camera_frames.py:88-147 | every frame file of a topic carries the prefix that topic's gallery selects |
| CameraFrames.WithPrefix | src/deepfield_jobs/deepfield_jobs/camera_frames.py:88-89 | the gallery's files are exactly the job files with the topic's prefix |
| CameraFrames.Gallery | src/deepfield_jobs/deepfield_jobs/camera_frames.py:83-101 | no gallery without a job run or without files of the topic; a job run name that does not split into exactly two parts at `::` raises; otherwise one 128-wide image per file, in order, under `/marv/jobrun/<group>/<name>/<id>/` |
| CameraFrames.GallerySources | src/deepfield_jobs/deepfield_jobs/camera_frames.py:95-101 | every image source ends in `/` and the file the image shows |
| Diagnostics.Count | src/deepfield_jobs/deepfield_jobs/diagnostics.py:85-94 | the names recorded in first-seen order are exactly the names with a counter |
| Diagnostics.CountMeaning | src/deepfield_jobs/deepfield_jobs/diagnostics.py:85-94 | the names are the names seen, each once, and each counter holds its name's OK statuses, WARN statuses and, in total, all its statuses (any other level counting as an error) |
| Diagnostics.NamedAbsent | src/deepfield_jobs/deepfield_jobs/diagnostics.py:85-94 | a name that never occurs has no statuses at any level |
| Diagnostics.TalliesStep | src/deepfield_jobs/deepfield_jobs/diagnostics.py:88-94 | counting one more status keeps the counters in agreement with the statuses seen |
| Diagnostics.CountSum | src/deepfield_jobs/deepfield_jobs/diagnostics.py:87-94 | over all names seen, the counters add up to the number of statuses |
| Diagnostics.Records | src/deepfield_jobs/deepfield_jobs/diagnostics.py:96-100 | one stored record per name, in order, carrying that name's three counters |
| Diagnostics.CountAppend | src/deepfield_jobs/deepfield_jobs/diagnostics.py:88-94 | the counters after one more status are one step of the counting |
| Diagnostics.CountMessage | src/deepfield_jobs/deepfield_jobs/diagnostics.py:88-94 | the inner loop over a message's statuses extends the count by those statuses |
| Diagnostics.CountStatuses | src/deepfield_jobs/deepfield_jobs/diagnostics.py:87-94 | the outer loop counts all statuses of all messages in order |
| Diagnostics.Job | src/deepfield_jobs/deepfield_jobs/diagnostics.py:77-100 | the job yields one record per distinct name seen, with that name's counters |
| Diagnostics.RowsMeaning | src/deepfield_jobs/deepfield_jobs/diagnostics.py:52-72 | the detail table has one row per non-zero counter, each with a positive count and status OK, WARN or ERROR |
| Diagnostics.RecordRowsOrder | src/deepfield_jobs/deepfield_jobs/diagnostics.py:53-71 | the rows of a record name that record and come in level order, OK first and ERROR last |
| Diagnostics.DetailView | src/deepfield_jobs/deepfield_jobs/diagnostics.py:46-72 | no table without a job run; otherwise the loop yields each record's non-zero counters in order |
| Osm.Quality | src/deepfield_jobs/deepfield_jobs/osm.py:44 | the quality of a message is one of 0, 1, 2 |
| Osm.QualityCycle | src/deepfield_jobs/deepfield_jobs/osm.py:44 | the quality is constant within each block of 128 messages and moves to the next of 0, 1, 2 at each block boundary |
| Osm.PointsOf | src/deepfield_jobs/deepfield_jobs/osm.py:42-46 | one point per GPS fix, in order, with that fix's coordinates and a quality in 0..2 |
| Osm.Job | src/deepfield_jobs/deepfield_jobs/osm.py:38-48 | no record for a bag without fixes; otherwise the loop's points are the points of the fixes |
| Osm.Colour | src/deepfield_jobs/deepfield_jobs/osm.py:68 | a quality has a colour exactly when Python indexing of the three colours accepts it, from -3 to 2; any other raises IndexError |
| Osm.AppendLast | src/deepfield_jobs/deepfield_jobs/osm.py:74-75 | adding a coordinate to the last feature keeps the number of features |
| Osm.GroupOk | src/deepfield_jobs/deepfield_jobs/osm.py:64-75 | the grouping raises exactly when some point's quality has no colour |
| Osm.ExtendCoords | src/deepfield_jobs/deepfield_jobs/osm.py:64-75 | one more point adds its coordinate at the end of the features' coordinates |
| Osm.GroupCoords | src/deepfield_jobs/deepfield_jobs/osm.py:64-75 | the features hold every point's coordinate, in order |
| Osm.GroupRuns | src/deepfield_jobs/deepfield_jobs/osm.py:64-75 | one feature per run of equal quality, the last one in the colour of the last point's quality |
| Osm.ColoursDistinct | src/deepfield_jobs/deepfield_jobs/osm.py:68 | different qualities 0, 1, 2 have different colours |
| Osm.JobColours | src/deepfield_jobs/deepfield_jobs/osm.py:44-75 | the job's points always group without error, and neighbouring features have different colours |
| Osm.GroupAbort | src/deepfield_jobs/deepfield_jobs/osm.py:68 | an error raised for a prefix of the points is the error of the whole grouping |
| Osm.Coords | src/deepfield_jobs/deepfield_jobs/osm.py:64-75 | the coordinates of the points, one per point in order |
| Osm.DetailView | src/deepfield_jobs/deepfield_jobs/osm.py:51-77 | no collection without a job run; otherwise the grouping loop gives the grouping of the specification, or its error |
| Trajectories.Run | src/deepfield_jobs/deepfield_jobs/extract_trajectories.py:47-56 | the throttle records one position per logged point |
| Trajectories.RunMeaning | src/deepfield_jobs/deepfield_jobs/extract_trajectories.py:47-63 | logged points are messages of the run in their order; before the first one the threshold is 0, after each logged point it is its time plus the interval, so logged times lie at least the interval apart |
| Trajectories.RunPicks | src/deepfield_jobs/deepfield_jobs/extract_trajectories.py:47-56 | a message is logged exactly when its time has reached the threshold the messages before it left, so every message not logged arrived before the threshold then in force |
| Trajectories.FirstLogged | src/deepfield_jobs/deepfield_jobs/extract_trajectories.py:47-56 | the first message at or after time 0 is the first point logged |
| Trajectories.NoneLogged | src/deepfield_jobs/deepfield_jobs/extract_trajectories.py:47-56 | messages before time 0 log nothing and leave the threshold at 0 |
| Trajectories.Job | src/deepfield_jobs/deepfield_jobs/extract_trajectories.py:43-63 | the job's loop logs exactly the points of the throttle run |
| Metadata.First | src/deepfield_jobs/deepfield_jobs/metadata.py:49-57 | the position of the first robot-name message, with no robot-name message before it; none exactly when there is no such message |
| Metadata.Job | src/deepfield_jobs/deepfield_jobs/metadata.py:46-64 | a record exactly for a fileset with a bag |
| Metadata.Search | src/deepfield_jobs/deepfield_jobs/metadata.py:43-64 | the search loop stops at the first robot-name message and falls back to the directory path without one, agreeing with the specification |
| Metadata.FirstIs | src/deepfield_jobs/deepfield_jobs/metadata.py:49-57 | the loop's stopping point is the first robot-name message, or the end |
| Metadata.FromPathOf | src/deepfield_jobs/deepfield_jobs/metadata.py:58-61 | for a path of separator-free components, robot and use case are the fourth and seventh components, `unknown` for each the path lacks |
| Metadata.Listing | src/deepfield_jobs/deepfield_jobs/metadata.py:79-93 | no listing without a record; otherwise exactly the robot and use-case columns of the record |

## Left out

- Filesystem effects (`os.walk`, `os.access`, `os.stat`, opening the sidecar, `os.path.exists`) are oracle maps from path to readable, size, sidecar first line and existence; `os.path.isdir(basedir)` is a boolean parameter of `detect_filesets`. No I/O is modelled.
- MD5 (`hashlib.md5`, the `md5sum` subprocess) is an uninterpreted digest function on strings. The streaming hasher is the digest of the concatenation.
- Threads and queues in `bagbunker/cli.py` and `_utils.make_async_job` are sequential. A queue is the sequence of items put into it, so interleavings, joins and daemon threads are not modelled.
- The SQLAlchemy session, commit and rollback become in-memory sequences of rows whose ids are their positions plus one. A query's `.first()` is the first matching row. The listing-cache triggers are not modelled.
- JSON and pickle encoding of stored results and streamed messages are not modelled. Values are stored as the datatypes they encode, and unpickling is not part of this model.
- The job configuration file is read by `ConfigParser.RawConfigParser` (an INI parser, which also lower-cases option names). That parsing is not modelled: the parsed sections are an input.
- `inspect.cleandoc` is a parameter `clean` of the widget factories; `inspect.getdoc(f)` is `clean` applied to the docstring, or `None` without one (`GetDoc`).
- SQL `LIKE` wildcards are not modelled, because they are SQL glue. This applies to the substring filters and to the `--fileset` md5 prefix match `Fileset.md5.like('{}%'.format(x))` of `run-jobs` (cli.py:312). Cli.Eligible reads that match as a plain prefix test, so a `%` or `_` in the given value is not a wildcard in the model.
- `fnmatch` bracket sets are not modelled. Only `*` and `?` patterns are, which is what the scanners register.
- Float arithmetic is exact `real` arithmetic. This covers `math.ceil(float(count) / max_frames)` (an exact ceiling), `float()` of a file-size string (an exact fraction), and the sanity check's `np.round` (the bag figures are inputs already rounded).
- `str()` of a float is a parameter `show`. In the sanity-check view a single `show: real -> string` stands for both the integer and the float bounds, so the model does not distinguish `19` from `19.0` in the rendered interval.
- `Trajectories.Job`: the `timestamp` column is declared `db.Integer`, but the model stores the time as a real, so the truncation on storage is not modelled.
- Metadata: the `String(42)` and `String(126)` column limits are not modelled.
- The loop variable `distance_traveled` in `extract_trajectories.py` is never updated, so it is not modelled.
- Reading a bag is not part of this model. The bag summary, GPS track and diagnostics topic are `BagFacts` inputs. This covers `load_bagfile`, `first_message`, `last_message`, `diagnostic_messages`, `gps_errors`, `gps_track_length` and `topics_frequencies`.
- Decoding, resizing and writing the camera images is not modelled. Only the frame names and counters are.
- Dictionary iteration order is given as a sequence in five places:
  - the synced groups and the diagnostic names, in first-seen order;
  - the `SCANNER` registry, whose `scanner.values()` order (scanner.py:143) decides the processor order kept by Utils.Start and MarvScanner.Processors;
  - `MODULE_NAME_MAP` (see `Widgeting.FirstPrefix`);
  - the filter request's keys;
  - the `topics` section of the sanity-check configuration (`SanityCheck.RenamedTopics`: which of two keys renamed to the same topic wins depends on this order).
- The job settings' declared defaults (`max_frames` 50 in `camera_frames.py`, `pose_logging_interval` 1 in `extract_trajectories.py`) are applied by the configuration plumbing; the jobs take the setting as a parameter.
- Diagnostics: the per-name `DiagCounter` objects are map values, not objects updated in place.
- The `detail` and `summary` decorators only append to the serializer lists (`DETAIL`, `SUMMARY`), so they are not modelled.
- The sanity-check detail view looks up its topics under the configured names, not the module-renamed ones. As a result, `camX` topics are never annotated with their bounds. The model keeps this as written.
- Filtering.NormalizeScalar: the text `str()` gives for a float, a list or an object is the symbolic `VStrOf(v)`; its spelling (`repr` of floats, brackets and quotes of containers) is not modelled.
- Filtering.NormalizeScalar: JSON floats are exact reals, so `int()` of an infinity (`OverflowError`) and of a NaN (`ValueError`) cannot arise; `json.loads` accepts `Infinity` and `NaN`, which are not modelled.
- Filtering.NormalizeInput: inherits the two Filtering.NormalizeScalar gaps above and the FloatOfText gaps below, element by element for lists.
- Filtering.FloatOfText: exponent notation (`"1e3"`), `"inf"`, `"infinity"` and `"nan"` are accepted by `float()` but rejected by the model.
- Filtering.FloatOfText and Strings.IntOfText: Python accepts non-ASCII Unicode digits and whitespace in a unicode string; the model accepts only ASCII digits and the ASCII whitespace characters.
- Reader.TopicTable: each topic's entry holds its position and message type but not the third component, `get_message_class(msg_type)._md5sum` (reader.py:95), which needs the ROS message classes.
- Jobs.SplitNamespace: the `assert kw.get('name') is None` of `Job.__init__` (job.py:67) is not modelled. The assertion fails when the job decorator is given an explicit `name` (widgeting.py:80, 92). The model takes only the namespace, so it does not cover that raising case.
- Jobs.Configs: states which parameters are configs, not that they keep their declaration order.
- Jobs.Inputs: states which parameters are inputs, not that they keep their declaration order.
- HTTP routing, login, the REST APIs, the frontend, the command-line option plumbing, plotting jobs and the SQL-only views are not modelled. They are web, UI or database glue with no logic of their own.

## Findings

| source | as written | input that shows it | evidently intended | confidence | as-written member | corrected member |
|---|---|---|---|---|---|---|
| src/marv/marv/storage.py:191-193 | `verify_md5` calls `subprocess.call(['md5sum', '-c', ...])`, but `subprocess` is never imported (imports at lines 25-35), so it raises `NameError`; the bare `except:` of `scan_all` (lines 184-188) catches it, rolls the session back and skips the new fileset, so no new fileset with at least one file is ever added | any new fileset reaching the md5 verification | each file of the new fileset is checked against its own `.md5` sidecar and the fileset is added when all of them match | not executed | Storage.NewFilesetAsWritten | Storage.NewFilesetVerified |
| src/deepfield_jobs/deepfield_jobs/sanity_check.py:300-321 | the diagnostic level indexes a six-entry table by the result code, so a code of 6 or more, or below -6, raises `IndexError` | a result with status code 6 | unknown codes map to the error level | not executed | SanityCheck.UnknownCodeRaises | SanityCheck.Diagnose |
| src/deepfield_jobs/deepfield_jobs/sanity_check_job.py:167-173 | membership is looked up over all tags, but the fileset is removed from `invalid`, so `list.remove` raises `ValueError`; in the opposite case the failing fileset is not added | a passing fileset that is in another tag but not in `invalid` | the fileset is in `invalid` exactly while its check fails | not executed | SanityJob.ToggleAsWrittenFails | SanityJob.ToggleMarks |
| src/deepfield_jobs/deepfield_jobs/sanity_check_job.py:141-148 | a missing `invalid` tag is built with `model.Tag(label='invalid')` but never added to the session before the commit, so it is stored only if a failing fileset is appended to it | a fileset without tags whose bags all pass the check | the `invalid` tag exists after the job, as the comment at line 141 says | not executed | SanityJob.ToggleAsWrittenFails | SanityJob.Toggle |
