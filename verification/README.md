# Models and proofs for the LiCO core components

A Dafny model of the parts of LiCO (cluster management software) that carry state, protocols or
arithmetic, with proofs of what they guarantee. `dafny verify dfyconfig.toml` checks the project.

Each module follows one component. Where the source changes objects step by step, a class or a method with
loops does the same and is proved equal to a specification function; the lemmas then say what that function
means, over all inputs, all runs or all reachable states.

| module | component |
|---|---|
| `ChunkUpload` | the file manager's out-of-order chunk upload (`.parts` file and record of `X` marks) |
| `FreshName` | its search for an unused copy name |
| `HashRoutes` | path hashes and the three routes (cache, decoding, directory walk) back to a path |
| `TreeCopy`, `Duplicate` | recursive copy, every system call of which may fail, the guard of pasting, and the duplicate command |
| `LsfReader`, `LsfEvents`, `LsfRecords`, `LsfQuery`, `LsfSamples` | the LSF accounting tokenizer, record parser and block-skipping query |
| `LsfLayout`, `LsfPositions`, `LsfColumns` | the columns of a job-finish record, written down apart from the parser, and what the parser makes of them |
| `Lockout`, `LockoutOverlap` | the login failure counter and its lock deadline, for attempts one by one and for overlapping ones |
| `KeyRotation` | signing-key rotation and token checks |
| `BuildJobs` | admission of build jobs among scheduler events |
| `Charging`, `Tres`, `Ledger` | bills, rounding, resource strings, and balances |
| `Accounts`, `StorageRuns` | the ledger kept in place, the storage run, and several such runs |
| `Base64Url` | unpadded base64url tokens (section 5 of RFC 4648) and the console lookup |
| `Series`, `Durations` | alignment of time series, durations as text |
| `Decimals`, `Utf8`, `Wrappers` | decimal numbers, UTF-8 and result types shared by the others |

Some properties one would expect do not hold of the code. Each of these is stated with the exact condition
under which it does, and with an input for which it does not:

- the tokenizer reads a printed line back exactly if no string is a lone quote, begins with a quote and a blank,
  or ends with two quotes, and no unquoted text is empty, begins with a quote or a line break, or has a blank after
  its first character (`TokenizerUndoesPrinter`; `LoneQuoteIsLost`);
- the time query raises exactly if a block of 5001 lines begins or ends with an unreadable header
  (`QueryFailsAtBoundaries`; `EmptyFirstLineRaises`), and gives what a filter of the file gives exactly if, besides,
  no block that is passed over holds a selected line (`QueryIsFilterExactly`; `UnorderedBlockIsDropped`);
- `clear_expired` clears everything expired exactly if no two expired keys stand side by side (`SweepClearsAll`;
  `ThreeRotationsRun` reaches such keys, and `ExpiredKeyStays` leaves one);
- a token of the latest key is refused exactly if that key has run out unrefreshed, the check is the first to
  notice a rotation, and the history holds no valid entry of it (`LatestTokenVerdict`; `FreshTokenRefused`);
- a job counts as running exactly if the last of its events is ADDED or SUBMITTED, so a late SUBMITTED counts for
  good (`LastEventDecides`, `LateSubmittedIsCounted`; `OneLateJob`), and the admission bound then grows by exactly the
  number of such jobs, for serial callers too (`AdmissionBoundAnyOrder`, `LateBoundIsAttained`);
- a console token is understood exactly if its host has no colon (`LookupUndoesEncode`; `Ipv6HostRefused`);
- a resource string is read as it was meant exactly if no gres code begins or ends with `G` or `/`
  (`TresRoundTrip`; `CodesLost`);
- a manual deposit keeps the books consistent exactly if it is a whole number of cents (`DepositConsistent`;
  `HalfCentVanishes`);
- runs of the storage billing one after another charge nobody twice, complete or not (`RunsChargeNobodyTwice`), but
  two at once charge a user twice exactly if at some moment both have looked up the recorded users and neither has
  come to him (`TwoRunsChargeTwice`; `NestedRunChargesTwice`): the record table has no unique constraint
  (models.py, lines 214-218), and the recorded users are looked up once;
- the lockout bound for login attempts one by one (`FailureRateBound`) holds in every run and window exactly if at most
  one attempt is under way at once (`SerialBoundExactly`; `LockWrittenAway`), because an attempt writes back the whole
  record it has read; with at most k at once the factor MAX_CHANCE becomes C(k + MAX_CHANCE, MAX_CHANCE) - 1, and that
  bound is attained (`OverlapRateBound`, `OverlapBoundIsAttained`);
- deleting a deposit keeps the books consistent exactly if the row is worth nothing (`DeleteConsistent`;
  `DeletedDepositStays`).

Besides the root and what is below it, the path pattern matches the root followed by a line feed (`FoundStaysBelow`).

Where documentation and code differ, the code is modelled.

## Model

| member | source | states |
|---|---|---|
| ChunkUpload.CopyBuffers | daemon/file-manager/lico/filesystem/manager/imjoy_elfinder/elfinder.py:777-788 | the buffered copy writes what the announced length allows and reports a size error exactly if the body is longer |
| ChunkUpload.UploadDirectory.UploadPart | daemon/file-manager/lico/filesystem/manager/imjoy_elfinder/elfinder.py:755-804 | every reply of a part request and the whole new state of the directory, refused requests changing nothing |
| ChunkUpload.UploadDirectory.CloseUpload | daemon/file-manager/lico/filesystem/manager/imjoy_elfinder/elfinder.py:805-831 | the closing request renames `.parts` into place, or discards it when too large or not allowed; if the file system refuses, everything stays |
| ChunkUpload.BuffersAsOne | daemon/file-manager/lico/filesystem/manager/imjoy_elfinder/elfinder.py:1788-1796 | however a body is split into buffers, the same bytes end up in the file |
| ChunkUpload.FullRecord | daemon/file-manager/lico/filesystem/manager/imjoy_elfinder/elfinder.py:790-804 | the record equals `total_chunks + 1` marks exactly if every index is marked |
| ChunkUpload.RunKeepsInv | daemon/file-manager/lico/filesystem/manager/imjoy_elfinder/elfinder.py:755-831 | in every run of parts, closings and foreign changes, `.parts` holds the pieces received and the record marks exactly the indices since it was last removed |
| ChunkUpload.MergedExactlyWhenComplete | daemon/file-manager/lico/filesystem/manager/imjoy_elfinder/elfinder.py:755-804 | for every arrival order with repeats, a part is reported merged exactly if it completes the index set since the last removal, and then `.parts` is the original |
| ChunkUpload.ClosingPutsOriginal | daemon/file-manager/lico/filesystem/manager/imjoy_elfinder/elfinder.py:805-831 | once every piece has arrived, the closing request puts exactly the original under its name |
| ChunkUpload.ClosingExactly | daemon/file-manager/lico/filesystem/manager/imjoy_elfinder/elfinder.py:805-831 | in every state, what the closing request does to every path: the final name is written exactly if `.parts` is there, small enough, of an allowed type, and the file system permits it |
| ChunkUpload.FinalNameKept | daemon/file-manager/lico/filesystem/manager/imjoy_elfinder/elfinder.py:755-831 | whatever parts arrive, without such a closing and without a foreign change the file of the final name is what it was |
| ChunkUpload.OverlongPart | daemon/file-manager/lico/filesystem/manager/imjoy_elfinder/elfinder.py:777-788 | of a part longer than announced, the buffers up to the one that passes the length are written |
| ChunkUpload.OutOfOrderUpload | daemon/file-manager/lico/filesystem/manager/imjoy_elfinder/elfinder.py:755-831 | the working files, mark by mark and byte by byte, of an upload in two parts, the second first |
| ChunkUpload.AnyOrderMergesAtTheLast | daemon/file-manager/lico/filesystem/manager/imjoy_elfinder/elfinder.py:790-804 | if each piece arrives once, in any order, exactly the last one is reported merged |
| FreshName.CandidatesDiffer | daemon/file-manager/lico/filesystem/manager/imjoy_elfinder/elfinder.py:2312-2317 | different numbers give different candidates |
| FreshName.SearchNumbered | daemon/file-manager/lico/filesystem/manager/imjoy_elfinder/elfinder.py:2312-2317 | the endless loop ends within one probe more than there are existing paths, at the first free number |
| FreshName.UniqueName | daemon/file-manager/lico/filesystem/manager/imjoy_elfinder/elfinder.py:2259-2318 | with either suffix callers pass, for a path with a directory part: a non-existing path in the same directory, the plain name if it may be used and is free, otherwise the first free number |
| FreshName.PlanOfNumbered | daemon/file-manager/lico/filesystem/manager/imjoy_elfinder/elfinder.py:2281-2310 | a stem that ends with the suffix and a number goes on from the next number |
| FreshName.PlanOfCopy | daemon/file-manager/lico/filesystem/manager/imjoy_elfinder/elfinder.py:2281-2310 | a stem that ends with the suffix gets numbers from two |
| FreshName.PlanOfOther | daemon/file-manager/lico/filesystem/manager/imjoy_elfinder/elfinder.py:2281-2310 | any other stem gets the suffix, alone first, then with numbers from two |
| FreshName.SplitsAtDot | daemon/file-manager/lico/filesystem/manager/imjoy_elfinder/elfinder.py:2281-2293 | a file name comes apart before its last dot |
| FreshName.OnlyArchives | daemon/file-manager/lico/filesystem/manager/imjoy_elfinder/elfinder.py:2281-2285 | exactly the names with three characters between a dot and `.gz`, `.bz` or `.bz2` end in a double extension |
| HashRoutes.DecodeInvertsHash | daemon/file-manager/lico/filesystem/manager/imjoy_elfinder/elfinder.py:2358-2369 | base16 decoding (section 8 of RFC 4648) inverts `make_hash` |
| HashRoutes.HashInvertsDecode | daemon/file-manager/lico/filesystem/manager/imjoy_elfinder/elfinder.py:2358-2369 | every decodable hash is the hash of the path it decodes to |
| HashRoutes.FilesConnector.Hash | daemon/file-manager/lico/filesystem/manager/imjoy_elfinder/elfinder.py:1879-1885 | hashing keeps every cache entry a path under its own hash |
| HashRoutes.FilesConnector.Find | daemon/file-manager/lico/filesystem/manager/connector.py:615-647 | `_find` answers as the cache and decoding alone would, whatever the walk meets, forgets nothing, and keeps the cache below the root if the walk is |
| HashRoutes.FilesConnector.FindDir | daemon/file-manager/lico/filesystem/manager/connector.py:417-447 | the same for `_find_dir` |
| HashRoutes.LookupIsInverse | daemon/file-manager/lico/filesystem/manager/connector.py:615-647 | a path is found for a hash exactly if it has that hash and was hashed before or matches the path pattern |
| HashRoutes.PatternIsBelow | daemon/file-manager/lico/filesystem/manager/connector.py:52-59 | the path pattern matches exactly the root, or the root followed by components none of which is `..`, without line breaks but a final line feed |
| HashRoutes.LookupBelowRoot | daemon/file-manager/lico/filesystem/manager/connector.py:615-647 | with nothing cached, a hash finds exactly the path it is the hash of, if that is the root or below it |
| HashRoutes.FoundStaysBelow | daemon/file-manager/lico/filesystem/manager/connector.py:615-647 | resolving a path so found, component by component, never climbs above the root |
| HashRoutes.FoundIsBelow | daemon/file-manager/lico/filesystem/manager/connector.py:615-647 | with only paths below the root cached, only such paths are found |
| HashRoutes.HashAllBelow | daemon/file-manager/lico/filesystem/manager/imjoy_elfinder/elfinder.py:1879-1885 | hashing paths below the root keeps the cache so |
| HashRoutes.ParentRefused | daemon/file-manager/lico/filesystem/manager/connector.py:52-59 | the hash of `/r/../x` finds nothing under `/r`, that of `/r/..x` does |
| HashRoutes.LookupUnique | daemon/file-manager/lico/filesystem/manager/connector.py:615-647 | whatever has been cached, two lookups find the same path exactly for the same hash |
| HashRoutes.HashedStaysFindable | daemon/file-manager/lico/filesystem/manager/imjoy_elfinder/elfinder.py:1879-1885 | a hashed path stays findable, whatever is hashed afterwards |
| TreeCopy.FileStore.Copy | daemon/file-manager/lico/filesystem/manager/connector.py:159-187 | `_copy` ends; True means an equal tree at the target; success or not, the source and everything outside the target are unchanged; with no refusals it succeeds exactly if the source exists and the target is free in a directory |
| TreeCopy.FileStore.CopyDir | daemon/file-manager/lico/filesystem/manager/connector.py:189-213 | the same for a directory, child by child |
| TreeCopy.DirCopied | daemon/file-manager/lico/filesystem/manager/connector.py:199-213 | children copied one by one make up the whole tree, with nothing besides |
| TreeCopy.SourceKept | daemon/file-manager/lico/filesystem/manager/connector.py:159-213 | changes confined to the target leave the source and its listing as they were |
| TreeCopy.PasteTargetOutside | daemon/file-manager/lico/filesystem/manager/imjoy_elfinder/elfinder.py:940-943 | the string test of `__paste` keeps the copy's target out of its source |
| Duplicate.FreshTargetOutside | daemon/file-manager/lico/filesystem/manager/imjoy_elfinder/elfinder.py:993-1000 | a free name in the directory of a path is another component beside it: it is neither the source nor inside it |
| Duplicate.Duplicated | daemon/file-manager/lico/filesystem/manager/imjoy_elfinder/elfinder.py:980-1004 | the name search and the copy together: an equal tree under a free name beside the source, nothing else changed, and no failure but by refusal or a missing source |
| LsfReader.LSBAcctLineReader.ReadNextField | library/scheduler/lico/scheduler/adapter/lsf/lsf_acct_parser.py:48-83 | each read yields the field its specification names; a successful one advances strictly within the line, a failed one leaves the offset alone |
| LsfReader.ScanStopsAt | library/scheduler/lico/scheduler/adapter/lsf/lsf_acct_parser.py:52-73 | a string field closes at the first candidate that the quote tests do not take for a doubled quote |
| LsfReader.StringFieldReadBack | library/scheduler/lico/scheduler/adapter/lsf/lsf_acct_parser.py:57-73 | a printed string, anywhere on a line, is read back exactly if it is quotable |
| LsfReader.TextFieldReadBack | library/scheduler/lico/scheduler/adapter/lsf/lsf_acct_parser.py:74-83 | unquoted text such as a decimal is read back exactly if it is plain |
| LsfReader.IntFieldReadBack | library/scheduler/lico/scheduler/adapter/lsf/lsf_acct_parser.py:74-83 | a printed integer is read back in place |
| LsfReader.TokenizerUndoesPrinter | library/scheduler/lico/scheduler/adapter/lsf/lsf_acct_parser.py:48-83 | repeated reads of a printed line return exactly its fields, in order, if and only if all of them are readable |
| LsfReader.FieldExactly | library/scheduler/lico/scheduler/adapter/lsf/lsf_acct_parser.py:48-83 | on any line, a field is read exactly if it ends somewhere by the quote tests or at a blank, and then up to there |
| Decimals.OnlyIntegersRead | library/scheduler/lico/scheduler/adapter/lsf/lsf_acct_parser.py:103-109 | `int()` reads only blanks, a sign, digits with single underscores, and blanks |
| LsfEvents.SkipDynamicField | library/scheduler/lico/scheduler/adapter/lsf/lsf_acct_parser.py:98-116 | a counted group is skipped row by row, with the error of the first missing field |
| LsfEvents.LSBAcctEvent.BatchParseFields | library/scheduler/lico/scheduler/adapter/lsf/lsf_acct_parser.py:142-210 | the policy loop sets the attributes, moves the offset and raises as its specification says |
| LsfEvents.NewJobFinishEvent | library/scheduler/lico/scheduler/adapter/lsf/lsf_acct_parser.py:213-286 | the attributes of a job-finish record, or its exception |
| LsfRecords.SkipsRead | library/scheduler/lico/scheduler/adapter/lsf/lsf_acct_parser.py:85-116 | fixed and counted skips consume exactly the printed fields they name, for all group sizes |
| LsfRecords.HostRowsRead | library/scheduler/lico/scheduler/adapter/lsf/lsf_acct_parser.py:185-206 | the rows of a host field are read back in order |
| LsfRecords.PoliciesRead | library/scheduler/lico/scheduler/adapter/lsf/lsf_acct_parser.py:142-210 | parsing fields printed for any policy list consumes exactly them and sets their values |
| LsfRecords.NamesRecovered | library/scheduler/lico/scheduler/adapter/lsf/lsf_acct_parser.py:142-210 | with distinct names, no later policy overwrites an attribute |
| LsfRecords.JobFinishRoundTrip | library/scheduler/lico/scheduler/adapter/lsf/lsf_acct_parser.py:213-286 | for arbitrary group sizes, a printed JOB_FINISH record parses, every named integer and string comes back, and the hosts come back as sets |
| LsfLayout.PoliciesReadLayout | library/scheduler/lico/scheduler/adapter/lsf/lsf_acct_parser.py:119-286 | the columns that the parser's policies name and skip are those of the layout, in order |
| LsfLayout.LayoutRecovered | library/scheduler/lico/scheduler/adapter/lsf/lsf_acct_parser.py:213-286 | from a record written column by column, every attribute is the field under its own column |
| LsfPositions.AttributesByPosition | library/scheduler/lico/scheduler/adapter/lsf/lsf_acct_parser.py:213-286 | the 24 attributes by field number, shifted by the rows of the groups before them |
| LsfColumns.JobFinishIsColumns | library/scheduler/lico/scheduler/adapter/lsf/lsf_acct_parser.py:119-286 | on any line, parsing succeeds exactly if the columns can be read from the line's fields and the version is supported, with those attributes |
| LsfColumns.SelectedIsColumns | library/scheduler/lico/scheduler/adapter/lsf/lsf_acct_parser.py:449-455 | on any line, what the query selects, column by column |
| LsfRecords.ParsedAlike | library/scheduler/lico/scheduler/adapter/lsf/lsf_acct_parser.py:142-286 | two printed records parse to the same event exactly if they agree on everything the policies name |
| LsfRecords.OtherVersionRefused | library/scheduler/lico/scheduler/adapter/lsf/lsf_acct_parser.py:119-140 | a printed record of another version is refused |
| LsfQuery.QueryEventsByTime | library/scheduler/lico/scheduler/adapter/lsf/lsf_acct_parser.py:404-433 | the reading loop with its line cache computes the query block by block |
| LsfQuery.ParseEventsFromLines | library/scheduler/lico/scheduler/adapter/lsf/lsf_acct_parser.py:436-460 | one block: skipped by its first and last times, otherwise filtered |
| LsfQuery.BlockRefinesFilter | library/scheduler/lico/scheduler/adapter/lsf/lsf_acct_parser.py:436-460 | on ordered times, skipping a block loses nothing |
| LsfQuery.QueryRefinesFilter | library/scheduler/lico/scheduler/adapter/lsf/lsf_acct_parser.py:404-460 | on a log of any length with ordered times and readable block ends, the query returns exactly the plain filter of the file |
| LsfQuery.QueryFailsAtBoundaries | library/scheduler/lico/scheduler/adapter/lsf/lsf_acct_parser.py:404-460 | the query raises exactly if some block begins or ends with an unreadable header |
| LsfQuery.QueryIsFilterExactly | library/scheduler/lico/scheduler/adapter/lsf/lsf_acct_parser.py:404-460 | on any log, ordered or not, the query is the plain filter exactly if every block has readable ends and, if it is passed over, holds no selected line |
| LsfSamples.UnorderedBlockIsDropped | library/scheduler/lico/scheduler/adapter/lsf/lsf_acct_parser.py:436-447 | two records out of order: the query for the earlier one's time finds nothing |
| LsfSamples.EmptyFirstLineRaises | library/scheduler/lico/scheduler/adapter/lsf/lsf_acct_parser.py:440-443 | an empty first line: the query raises though the file holds an event |
| Lockout.User.LoginFail | core/apps/user/lico/core/user/models.py:62-71 | a failure counts up, and at the limit resets the counter and sets the lock |
| Lockout.User.RemainTime | core/apps/user/lico/core/user/models.py:77-86 | the remaining time is zero exactly if the account is active, and waiting it out activates it |
| Lockout.User.Login | core/apps/user/lico/core/user/authentication.py:34-54 | a locked account rejects every attempt unchanged; otherwise the outcome decides the step |
| Lockout.CounterBelowLimit | core/apps/user/lico/core/user/models.py:57-75 | every run keeps the counter below MAX_CHANCE |
| Lockout.AttemptCounts | core/apps/user/lico/core/user/models.py:57-71 | what each outcome of an attempt does to the chances and the lock |
| Lockout.CounterCounts | core/apps/user/lico/core/user/models.py:57-71 | in every run the counter is the number of failures since the last login or lock, and a lock begins exactly at the failure that makes it MAX_CHANCE |
| Lockout.LoginGivesChancesBack | core/apps/user/lico/core/user/models.py:57-60 | after a login, the next MAX_CHANCE - 1 failures do not lock |
| Lockout.User.RemainChances | core/apps/user/lico/core/user/models.py:73-75 | one chance is left exactly if the next failure locks |
| Lockout.FailureRateBound | core/apps/user/lico/core/user/models.py:57-86 | in any run, a closed window of length T without a login holds at most `MAX_CHANCE * (T div L + 1)` failures |
| LockoutOverlap.RestAfterFailure | core/apps/user/lico/core/user/models.py:62-71 | a failure uses up at least one of the C(k + MAX_CHANCE, MAX_CHANCE) - 1 that k attempts at once have before everything is locked, also when it writes a lock away |
| LockoutOverlap.OverlapRateBound | core/apps/user/lico/core/user/authentication.py:34-54 | with at most k attempts at once, each writing back what it read, a window without a login holds at most `(C(k + MAX_CHANCE, MAX_CHANCE) - 1) * (T div L + 1 + administrators' writes)` failures |
| LockoutOverlap.AdminPays | core/apps/user/lico/core/user/views/lock.py:48-93 | an administrator's lock or unlock costs at most one round of failures more |
| LockoutOverlap.OverlapBoundIsAttained | core/apps/user/lico/core/user/models.py:62-71 | for all settings, every k, any idle pool of at least k workers and every window, some run has exactly that many |
| LockoutOverlap.SerialBoundExactly | core/apps/user/lico/core/user/authentication.py:34-54 | the serial bound holds in every run and window exactly if at most one attempt is under way at once |
| LockoutOverlap.SerialIsOneWorker | core/apps/user/lico/core/user/authentication.py:34-54 | attempts one by one are the runs of one worker, with the same records and failures |
| LockoutOverlap.LockWrittenAway | core/apps/user/lico/core/user/models.py:62-71 | for all settings and any pool with two idle workers, two overlapping workers give MAX_CHANCE + 1 failures in one moment and, unless one failure locks, leave the account unlocked |
| Lockout.BoundIsAttained | core/apps/user/lico/core/user/models.py:62-71 | for every window there is a run with exactly that many failures |
| KeyRotation.KeyGroup.Update | library/auth/lico/auth/key.py:41-54 | the same key is refreshed; another one supersedes it and moves it to the history with the grace period |
| KeyRotation.KeyGroup.ClearExpired | library/auth/lico/auth/key.py:56-60 | the loop that removes from the list it walks leaves what its specification says |
| KeyRotation.SharedSecret.VerifyJwt | library/auth/lico/auth/secret.py:99-117 | the verdict and the key group after it: the first key that does not raise DecodeError, otherwise a refreshed key |
| KeyRotation.SharedSecret.GenerateJwt | library/auth/lico/auth/secret.py:119-135 | a token is signed by the latest key, fetched first if there is none |
| KeyRotation.SweepIsSurvivors | library/auth/lico/auth/key.py:56-60 | the index-shifting loop removes an expired key and passes over the one behind it |
| KeyRotation.SweepKeepsValid | library/auth/lico/auth/key.py:56-60 | no valid key is dropped, none is added, and one expired key goes whenever there is one |
| KeyRotation.SweepClearsAll | library/auth/lico/auth/key.py:56-60 | all expired keys go exactly if no two of them are adjacent |
| KeyRotation.SupersededKeyStays | library/auth/lico/auth/key.py:41-60 | over every run of updates a superseded key stays in the history for its whole grace period |
| KeyRotation.LiveTokenAccepted | library/auth/lico/auth/secret.py:99-117 | a token signed before its key was superseded is accepted at every moment of a life within the grace period, across any rotations |
| KeyRotation.LatestAfterRun | library/auth/lico/auth/key.py:41-54 | after every run the latest key is the last one fetched, with the full time from then on, refreshed or new |
| KeyRotation.CurrentTokenAccepted | library/auth/lico/auth/secret.py:99-117 | a token of the last fetched key is accepted until that time is up, whatever the database holds |
| KeyRotation.HistoryOnlySuperseded | library/auth/lico/auth/key.py:41-60 | only superseded keys enter the history, with the grace period from then on |
| KeyRotation.VerdictExactly | library/auth/lico/auth/secret.py:99-117 | the verdict on any token, and whether the keys are updated |
| KeyRotation.GeneratedTokenLives | library/auth/lico/auth/secret.py:119-135 | a token generated before its key is superseded is accepted for its whole life |
| KeyRotation.LatestTokenVerdict | library/auth/lico/auth/secret.py:99-117 | a token of the latest key is accepted exactly if the key is valid, still current, or held by a valid history entry, and at the latest by the next check |
| KeyRotation.ExpiredKeyStays | library/auth/lico/auth/key.py:56-60 | after a run with two expired keys side by side, a rotation leaves one of them |
| KeyRotation.FreshTokenRefused | library/auth/lico/auth/secret.py:99-117 | a token just signed with a key that ran out unnoticed is refused |
| BuildJobs.BuildJobManager.RunningJobs | daemon/async-task/lico/async/task/manager.py:123-132 | counts exactly the pending and submitted jobs |
| BuildJobs.BuildJobManager.CheckAdmission | daemon/async-task/lico/async/task/manager.py:64-66 | admits exactly below the limit |
| BuildJobs.BuildJobManager.Listener | daemon/async-task/lico/async/task/manager.py:99-121 | what each event does to records, workspaces and errors |
| BuildJobs.ReachableInv | daemon/async-task/lico/async/task/manager.py:64-132 | an invariant of every interleaving, events in any order: the admission bound with callers past their check, and known workspaces |
| BuildJobs.AdmissionBoundAnyOrder | daemon/async-task/lico/async/task/manager.py:64-132 | with at most k callers at once and events in any order, running jobs stay within `max_jobs + k - 1` plus the finished ones submitted late |
| BuildJobs.AdmissionBound | daemon/async-task/lico/async/task/manager.py:64-74 | with events in the scheduler's order, running jobs stay within `max_jobs + k - 1`, and within `max_jobs` if k is one |
| BuildJobs.LateBoundIsAttained | daemon/async-task/lico/async/task/manager.py:64-132 | for every limit, every k and every n, some reachable state has n late jobs and `max_jobs + k - 1 + n` running ones |
| BuildJobs.BoundIsAttained | daemon/async-task/lico/async/task/manager.py:64-74 | with no job finished, for every limit and k some interleaving reaches exactly `max_jobs + k - 1` |
| BuildJobs.LastEventDecides | daemon/async-task/lico/async/task/manager.py:99-132 | after any events of any jobs, a job counts exactly if its last event is ADDED or SUBMITTED |
| BuildJobs.LateSubmittedIsCounted | daemon/async-task/lico/async/task/manager.py:99-132 | any events of new jobs raise the count by exactly the jobs whose last event is ADDED or SUBMITTED |
| Charging.ComputeBill | core/apps/accounting/lico/core/accounting/charge_job.py:112-135 | the loops over gres kinds and counts compute the total and the billed cost |
| Charging.GetChargeRate | core/apps/accounting/lico/core/accounting/charge_job.py:204-219 | the latest policy that lists the queue, otherwise the group's own rates |
| Charging.GresKindIs | core/apps/accounting/lico/core/accounting/charge_job.py:120-122 | a gres type counts for a kind exactly if it is the kind, or the kind, a slash and more |
| Charging.BillError | core/apps/accounting/lico/core/accounting/charge_job.py:53-135 | a bill is within `0.005 * (1 + d * (2 + g))` of the discounted exact cost |
| Charging.IncrementalBillsError | core/apps/accounting/lico/core/accounting/charge_job.py:53-135 | n incremental bills are within n times that of one exact bill for the whole runtime |
| Charging.StorageBillError | core/apps/accounting/lico/core/accounting/charge_storage.py:96-104 | a storage bill is within half a cent times one plus the discount |
| Tres.GetTresDict | core/apps/accounting/lico/core/accounting/charge_job.py:192-201 | the loop over a resource string: the dictionary, or the first exception |
| Tres.GresKeyKeepsCode | core/apps/accounting/lico/core/accounting/charge_job.py:197-198 | which gres codes survive `strip('G/')` |
| Tres.TresRoundTrip | core/apps/accounting/lico/core/accounting/charge_job.py:192-201 | a written resource string is read as it was meant exactly if every gres code survives |
| Tres.TresReads | core/apps/accounting/lico/core/accounting/charge_job.py:192-201 | a string is read exactly if every item is a key and a number and no plain `G` comes before a gres |
| Ledger.PostedConsistent | core/apps/accounting/lico/core/accounting/charge_job.py:137-187 | one posted statement keeps balances, deposits and statements in agreement |
| Ledger.DepositConsistent | core/apps/accounting/lico/core/accounting/views/deposit.py:62-75 | a manual deposit does so exactly if it is a whole number of cents |
| Ledger.LedgerConsistent | core/apps/accounting/lico/core/accounting/charge_storage.py:76-146 | after every interleaving of job charges, storage charges and whole-cent deposits, a balance is its opening value plus its credits, charges' credits are minus the statements' costs, and every deposit row shows the running sum |
| Ledger.LedgerFromEmpty | core/apps/accounting/lico/core/accounting/charge_job.py:137-187 | the same for books that start without statements |
| Ledger.HalfCentVanishes | core/apps/accounting/lico/core/accounting/views/deposit.py:62-75 | half a cent is credited and the balance does not move |
| Ledger.DeleteConsistent | core/apps/accounting/lico/core/accounting/views/deposit.py:92-94 | deleting a deposit row keeps the books consistent exactly if its credits are zero |
| Ledger.JobPaysExactCost | core/apps/accounting/lico/core/accounting/charge_job.py:59-189 | in every interleaving, what a job pays in all is within one error bound per statement of the exact cost of its largest reported runtime |
| Ledger.RuntimeTelescopes | core/apps/accounting/lico/core/accounting/charge_job.py:79-101 | in every interleaving, the runtimes billed for a job sum to the largest effective runtime reported for it |
| Ledger.LargestReportedIs | core/apps/accounting/lico/core/accounting/charge_job.py:79-89 | the largest report bounds the job's own and the scheduler's summed runtimes, and is one of them |
| Ledger.StatementsAreIncrements | core/apps/accounting/lico/core/accounting/charge_job.py:89-169 | one statement for each report not below the largest before it, billing the increment |
| Ledger.StorageChargePays | core/apps/accounting/lico/core/accounting/charge_storage.py:92-139 | what a user pays for a path is its size at each policy's rate, discounted, within the rounding bound for each listing |
| Ledger.PostedInOrder | core/apps/accounting/lico/core/accounting/charge_storage.py:92-126 | one statement for each path, in order |
| Ledger.LowerReportIgnored | core/apps/accounting/lico/core/accounting/charge_job.py:90-101 | a lower report changes nothing |
| Accounts.Account.ChargeJob | core/apps/accounting/lico/core/accounting/charge_job.py:59-189 | the whole new state of a job charge |
| Accounts.Account.StorageCharge | core/apps/accounting/lico/core/accounting/charge_storage.py:76-155 | the nested loops charge every path and record the date, or, when a row is refused, leave the ledger as it was |
| Accounts.Account.Billing | core/apps/accounting/lico/core/accounting/charge_storage.py:61-74 | a storage run among other processes' steps is one sequence of atomic steps, cut off where a row is refused |
| Accounts.JobAllRuntime | core/apps/accounting/lico/core/accounting/charge_job.py:222-226 | sums the runtimes the scheduler reports |
| StorageRuns.TimesAfterRun | core/apps/accounting/lico/core/accounting/charge_storage.py:61-74 | how often each user is charged for each date after a run among other steps |
| StorageRuns.NobodyChargedTwice | core/apps/accounting/lico/core/accounting/charge_storage.py:61-74 | a run leaves nobody charged twice exactly if the steps during it charge nobody it bills, nobody recorded, and nobody twice |
| StorageRuns.RunsChargeOnce | core/apps/accounting/lico/core/accounting/charge_storage.py:61-74 | over any sequence of runs one after another, complete or cut short, with job charges and deposits in between, a user is charged once for a date if some run came to him, else as often as before |
| StorageRuns.RunsChargeNobodyTwice | core/apps/accounting/lico/core/accounting/charge_storage.py:61-74 | that nobody is charged twice is an invariant of every such sequence |
| StorageRuns.BilledExactly | core/apps/accounting/lico/core/accounting/charge_storage.py:61-74 | the users a run reports are those with a group who were not recorded, each once |
| StorageRuns.TurnsAreRun | core/apps/accounting/lico/core/accounting/charge_storage.py:61-74 | a lookup followed by one turn for each user is the run of `billing` |
| StorageRuns.TwoRunsChargeTwice | core/apps/accounting/lico/core/accounting/charge_storage.py:61-74 | two runs interleaved in any way charge a user of both twice exactly if both look up before either comes to him, else once |
| StorageRuns.NestedRunChargesTwice | core/apps/accounting/lico/core/accounting/charge_storage.py:61-74 | a run within the other, between its lookup and its charge, charges twice |
| Base64Url.EncodedIs | core/contrib/lico/core/contrib/base64.py:19-23 | encoding and stripping the padding gives the unpadded groups |
| Base64Url.TokenRoundTrip | core/contrib/lico/core/contrib/base64.py:19-30 | decoding undoes encoding for every byte string, also when four padding characters are appended |
| Base64Url.SymbolsAreAlphabet | core/contrib/lico/core/contrib/base64.py:19-23 | the symbols are those of the URL-safe alphabet (table 2 in section 5 of RFC 4648) |
| Base64Url.TokensAreUrlSafe | core/contrib/lico/core/contrib/base64.py:19-23 | tokens hold URL-safe characters only, and no padding |
| Base64Url.LookupExactly | daemon/vnc-proxy/lico/vnc/proxy/plugin.py:21-45 | any token is understood exactly if it decodes to a host, one colon and an integer |
| Base64Url.LookupUndoesEncode | daemon/vnc-proxy/lico/vnc/proxy/plugin.py:21-45 | the lookup of an encoded host and port gives them back exactly if the host has no colon |
| Series.CutData | core/apps/monitor/lico/core/monitor_host/utils.py:524-530 | the search from either end finds the first point at the time, or raises IndexError |
| Series.AlignmentExact | core/apps/monitor/lico/core/monitor_host/utils.py:490-518 | for all four settings of the flags, two increasing overlapping series align exactly if the shared times to cut at occur in both, each cut to its points in its range |
| Series.WindowsAligned | core/apps/monitor/lico/core/monitor_host/utils.py:490-530 | overlapping windows of one timeline give contiguous parts whose times are identical and are the intersection, and never run out of range |
| Series.WindowsApart | core/apps/monitor/lico/core/monitor_host/utils.py:498-504 | disjoint windows give no data |
| Durations.Second2Str | core/apps/monitor/lico/core/monitor_host/utils.py:533-547 | the printer writes the parts its strict comparisons split off |
| Durations.Str2Second | core/apps/monitor/lico/core/monitor_host/utils.py:550-574 | the parser adds up the leftmost number of each unit |
| Durations.FindPrinted | core/apps/monitor/lico/core/monitor_host/utils.py:550-574 | searching printed parts for a unit finds the number printed with it |
| Durations.DurationRoundTrip | core/apps/monitor/lico/core/monitor_host/utils.py:533-574 | parsing a printed duration gives it back, exact multiples of a unit included |
| Durations.PrintedExactly | core/apps/monitor/lico/core/monitor_host/utils.py:533-547 | the numbers printed are the only ones that make up the duration with no unit split off that is left whole by itself |
| Durations.WeeksParsed | core/apps/monitor/lico/core/monitor_host/utils.py:550-574 | weeks are parsed too |

## Left out

- Strings of LSF records keep their doubled quotes, as in the code; the join order of host names (the order of a
  Python set) and the unused float policy are not modelled; `int()` is modelled on ASCII digits, sign and blanks.
- Chunk upload: negative chunk indices and starts (Python exceptions), file modes and the response's fields. Each request
  is one step; two first parts handled at once may both find no `.parts` and both begin it anew.
- File names: random text, the existing paths, directory listings and permission bits are inputs. Paths are UTF-8
  bytes in `HashRoutes`; names with lone surrogates and roots with regular-expression characters are not modelled.
- TreeCopy.FileStore.Copy: symbolic links, modes and owners are not modelled; refusals are arbitrary. Pasting into
  the source's own directory, which removes data, is not stated as a theorem, nor is copying into the source itself.
- LockoutOverlap.OverlapRateBound: reading the record and testing its lock are one step, and so is an administrator's
  read and write.
- Key rotation: each call reads the clock once, keys are values, and cryptography is abstract (a token verifies
  under exactly the key that signed it).
- Build jobs: a job's ADDED event comes before its others. Reading the records is one step, and the workspace's
  removal from disk is not modelled; the interleaved steps keep the set of noted workspaces, the class keeps their paths.
- Accounting: deleting a deposit is modelled by itself, not as a step of the runs. Money is in exact hundredths, rates and counts are reals, so floating-point representation error is
  absent; what `float()` reads is a parameter; record ids, file locks and logging are not modelled.
- Accounts.Account.ManualDeposit: the deposit view takes no row lock, so two of them may overwrite each other's
  balance; here each is one atomic step.
- Storage sizes come from outside: the GPFS command and its parsing are not part of this model.
- Cron schedules, time zones, HTTP views, database queries, archive commands, thumbnails and MIME types are plumbing
  over libraries that are not part of this model.
- Workflow status transitions, role checks and permission bits are settled by reading one branch each.
