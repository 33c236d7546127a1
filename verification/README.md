# A verified model of the MCP bridge's stateful cores

The bridge is a daemon that runs tools for its tenants, together with a small setuid helper. This project
models the parts of it that carry state or arithmetic and proves what they are for.

- **Sudo grants** (`StateFiles`, `GrantTemplate`, `GrantFiles`, `Grants`, `GrantProtocol`,
  `GrantRefinement`). A grant lives in four stores: the
  in-memory map, `grants.json`, the pending `.spec` files and the sudoers directory. `Grants` holds the
  daemon's methods and the helper's commands as they run alone. `GrantProtocol` makes every locked block, file
  replacement and helper call one step, lets any number of requests and revocations interleave with the
  sweeper, and allows a crash between any two steps; its theorems are about every such run. `GrantRefinement` shows that each
  method of the manager, run on its own, ends where a sequence of the protocol's steps ends.
- **Cron scheduling** (`FieldScanner`, `CronStore`, `CrontabText`, `CronOps` on Linux; `Calendar`,
  `CronToSchtasks`, `WindowsTasks` on Windows). The store is written through to disk, the crontab is rewritten
  around other people's lines, and on Windows a cron expression is compiled to schtasks flags. Both schedule
  languages have a meaning, a predicate on minutes since 1970.
- **Codecs and hashing** (`Sha256`, `Sha256Laws`, `Sha256Vector`, `Base64`, `ArgvQuoting`). SHA-256 with its tail buffer against FIPS 180-4,
  the daemon's Base64 encoder against the helper's decoder (RFC 4648), and the Windows command-line quoting
  against the rules by which it is parsed.
- **Rate limiter and sessions** (`RateLimiter`, `SessionStore`). Both forget; each is proved to answer as if it
  never had.

Text is a sequence of characters, one per byte; Base64 and SHA-256 work on 8-bit vectors. Clock readings,
random ids and the outcomes of the file, process and system calls named in a method's fault parameters are
inputs, including the failures the code swallows (a directory or state file it cannot open, a helper that does
not report, a crontab it cannot read, tasks it cannot list or delete); each contract holds for every
combination of them. A thrown exception is a `Failure`.

Some definitions are shared by the code and by what it is proved against: the functions and constants of SHA-256, the
Base64 alphabet, the names of the days, the placeholders of a template, the crontab block, file and task names.
Each of them is pinned down by laws that do not use it, or by a known answer (`Sha256Laws`, `Sha256Vector`,
`LettersAreTheAlphabet`, `DayNamedMeaning`, `PlaceholderWord`, `OutputIsRun` and others in the table).

## Assumptions of the grant theorems

`GrantProtocol.Benign` lists them, and for each that the code itself does not ensure a lemma shows what goes
wrong without it:

- unlinks succeed (`FailedUnlinkLosesTrack`);
- a helper that installed a drop-in reports it (`UnreportedInstallLosesTrack`);
- nobody revokes an id whose request has not returned (`RevokeInFlightLosesTrack`);
- an install finishes before its own grant expires (`ExpiryInFlightLosesTrack`);
- a startup's listing of the sudoers directory misses no hex-named drop-in (`UnreadableStartLosesTrack`);
- an install helper that outlives the daemon is done before the next startup (`LateInstallLosesTrack`);
- ids are fresh, and sweeps, the startup reconciliation counting as the first, start at most `interval` seconds
  apart.

Reading and writing the state file, writing a spec, installing and tidying up may fail at any time.
`InstallIsReachable` shows the assumptions can be met. Recovery needs none of them about the past: it starts from
arbitrary contents, and says exactly what an incomplete listing costs.

## Where the code and its documentation differ

- `run_system_tool` says it quotes by the `CommandLineToArgvW` rules; it does not double backslashes, so a
  backslash before a quote or at the end of an argument is lost. `ArgsRoundTripIff` gives the exact condition
  under the documented rules, `LenientRoundTripIff` under either form of the undocumented rule by which two quotes in
  a row are a literal quote; the latter read back more (`LenientReadsMore`).
- `cron_to_schtasks.hpp` offers `*/N` for every N up to 1439. The task runs on from the minute in which it was
  registered, which no flag sets, so it runs when cron would exactly if N divides 60 and that minute
  (`StepPreservesMeaningIff`).
- `cron_backend.hpp` says Linux accepts any 5-field expression; the backend's own check accepts five or more
  fields and only the store insists on five (`SixFieldsDiffer`).
- `grants.hpp` says every `mcp_grant_*` file without an entry is revoked at startup. One is revoked exactly when
  its id is 16 lower-case hex digits (`StraysAreRevokedIffHex`): the helper refuses other ids of that length, such as
  upper-case ones (`UpperCaseStrayStays`), and the scan never lists names of another length.
- `reconcile_at_startup` promises agreement between the directory and the state. A sudoers directory that cannot be
  opened looks empty to it; then it forgets every grant and removes nothing. `RecoveryTheorem` and
  `AllSeenIffOpenedOrEmpty` say exactly when the promise is kept.
- `cron_backend.hpp` says every function throws on failure. A failed `crontab -l` is taken for what it printed, which
  costs the user's own lines, and failed task queries and deletions on Windows are taken for missing tasks
  (`EmptyReadKeepsForeignIff`, `RebuiltIsReconciledIff`).

## Model

| member | source | states |
|---|---|---|
| GrantProtocol.WriteAheadSafety | src/core/grants.cpp:376-425 | in every run under the assumptions, with any failed persists and installs and any crashes, each installed drop-in has an entry in memory and in grants.json whenever the daemon is up |
| GrantProtocol.BoundedLifetime | src/core/grants.cpp:323-500 | an installed grant has an entry and is younger than its ttl plus one sweep interval, or the sweep that still has to remove it started when it was; the ttl is at most 86400 |
| GrantProtocol.SweepIsComplete | src/core/grants.cpp:427-441 | once a sweep has finished nothing is installed that had expired when it read its clock |
| GrantProtocol.SweepSparesLiveGrants | src/core/grants.cpp:427-441 | no sweep step removes the drop-in or the entry of a grant that has not expired |
| GrantProtocol.DropInsAreRendered | src/core/grants.cpp:334-373 | every drop-in installed during a run is byte for byte the line that its own grant's shortid, template and arguments were entitled to when requested, and is in the language both validators accept |
| GrantProtocol.FailedUnlinkLosesTrack | src/core/grants.cpp:406-425 | revoking an installed grant leaves it installed without an entry exactly when the unlink failed, because the entry goes whatever the helper returned |
| GrantProtocol.UnreportedInstallLosesTrack | src/core/grants.cpp:386-398 | an undone request leaves its drop-in without an entry exactly when the helper had installed it without saying so |
| GrantProtocol.RevokeInFlightLosesTrack | src/core/grants.cpp:406-425 | an id revoked while its install is under way ends installed without an entry when the install falls between the unlink and the erasing |
| GrantProtocol.ExpiryInFlightLosesTrack | src/core/grants.cpp:427-441 | the same when the sweeper revokes a grant that expired during its install |
| GrantProtocol.UnreadableStartLosesTrack | src/core/grants.cpp:443-484 | a start that cannot open the sudoers directory forgets every grant in memory and file, removes nothing, and leaves each hex-named drop-in without an entry |
| GrantProtocol.LateInstallLosesTrack | src/core/grants.cpp:236-276 | an install helper that outlives the daemon and renames after the next startup's listing leaves its drop-in without an entry |
| GrantProtocol.SweepsMissLost | src/core/grants.cpp:427-441 | no sweep collects an installed drop-in that has no entry |
| GrantProtocol.RevokingFindsLost | src/core/grants.cpp:406-425 | revoking its id removes such a drop-in exactly when the unlink works |
| GrantProtocol.RecoveryTheorem | src/core/grants.cpp:443-484 | from any contents of grants.json and the sudoers directory, load then reconcile leaves memory and file with the same ids: those loaded, listed and unexpired; the hex-named drop-ins are these ids too exactly when the listing missed none of them, and then they are the ones persisted, still installed and unexpired |
| GrantProtocol.RecoveryReconciles | src/core/grants.cpp:443-484 | the invariant of a startup in progress, after every one of its steps |
| GrantProtocol.StraysAreRevokedIffHex | src/core/grants.cpp:464-481 | a file named like a drop-in and without an entry is gone after a startup that listed the directory exactly when its id is 16 lower-case hex digits |
| GrantProtocol.UpperCaseStrayStays | src/priv/main.c:83-92 | one with an upper-case id is listed and stays |
| GrantProtocol.StepKeepsInv | src/core/grants.cpp:318-500 | every step of request, revoke, sweep, crash, late helper and startup keeps the inductive invariant |
| GrantProtocol.RunKeepsInv | src/core/grants.cpp:318-500 | the invariant holds after every run from any initial contents |
| GrantProtocol.InstallIsReachable | src/core/grants.cpp:318-404 | for every grant and line some run under the assumptions ends with the drop-in installed |
| GrantRefinement.RequestIsSteps | src/core/grants.cpp:376-404 | what a request leaves that saved its entry is where beginning, saving, writing the spec, installing and tidying up or undoing end, with the same failures |
| GrantRefinement.UnsavedRequestIsSteps | src/core/grants.cpp:376-385 | what a request leaves whose saving failed is where beginning and a failed saving end |
| GrantRefinement.RevokeIsSteps | src/core/grants.cpp:406-425 | what a revocation leaves is where its unlink and its erasing end |
| GrantRefinement.SweepIsSteps | src/core/grants.cpp:427-441 | what a sweep leaves is where collecting the expired ids and revoking them one by one end |
| GrantRefinement.StartupIsSteps | src/core/grants.cpp:443-484 | what construction and reconciliation leave is where loading, saving and the queued unlinks end, the daemon being up |
| GrantFiles.SaveLoadRoundTrip | src/core/grants.cpp:137-174 | loading what was persisted restores the map, whatever order the entries were written in |
| GrantFiles.ListingIsOnDisk | src/core/grants.cpp:94-119 | the directory scan lists exactly the 16-character ids of files named like drop-ins, hex or not |
| GrantFiles.DropInNames | src/priv/main.c:432-433 | drop-ins are named mcp_grant_ and the id, their staging files .mcp_grant_, the id and .tmp, and no two coincide |
| GrantFiles.InstallEffect | src/priv/main.c:396-475 | the helper installs exactly under the listed conditions and then adds exactly one drop-in holding exactly the pending, well-formed spec; otherwise no file but the staging one changes |
| GrantFiles.InstallExitCodes | src/priv/main.c:396-488 | 10 for an invalid id, 13 for an ill-formed or rejected spec, 14 for a drop-in that is there, 11 for failed operations |
| GrantFiles.RevokeEffect | src/priv/main.c:477-488 | revoking removes at most the one drop-in, and twice is the same as once |
| GrantFiles.RevokedAllEffect | src/core/grants.cpp:434-440 | revoking several ids one by one removes exactly their entries and, of all files, exactly the drop-ins whose unlink succeeds; with every saving working the file still loads to the map |
| GrantFiles.QueuedIsTheRest | src/core/grants.cpp:443-469 | what reconciliation queues is exactly what was listed and does not survive, and what survives is installed and was listed |
| GrantFiles.AgreesIffAllSeen | src/core/grants.cpp:94-119 | after a startup the hex-named drop-ins are the surviving ids exactly when the listing missed none of them |
| GrantFiles.AllSeenIffOpenedOrEmpty | src/core/grants.cpp:107-119 | which is when the directory could be opened or holds no hex-named drop-in |
| Grants.CmdInstallGrant | src/priv/main.c:396-475 | the helper's command, staging and renaming included, does to the stores what the protocol's install step does, with the same exit code |
| Grants.CmdRevokeGrant | src/priv/main.c:477-488 | the helper's command does to the stores what the protocol's revoke step does, with the same exit code |
| Grants.GrantManager.constructor | src/core/grants.cpp:123-126 | a new manager holds what the state file loads to, nothing when it cannot be opened |
| Grants.GrantManager.LoadState | src/core/grants.cpp:137-160 | entries of the file override those in memory; entries without a valid id are ignored |
| Grants.GrantManager.PersistState | src/core/grants.cpp:162-174 | the file afterwards lists exactly the map, or is unchanged when the write fails |
| Grants.GrantManager.Render | src/core/grants.cpp:334-373 | a line is rendered exactly when the request is entitled to one under the first template of that name, or full_admin; an unknown template and an ill-formed line are reported exactly when they are the reason |
| Grants.GrantManager.InstallGrantViaHelper | src/core/grants.cpp:236-276 | does to the stores what writing the spec, the protocol's install step and tidying up do, with the exit code that is reported |
| Grants.HelperEffect | src/core/grants.cpp:236-276 | that is 0 exactly when the helper installed and said so; the sudoers directory gains exactly the one drop-in if it installed and is otherwise the same up to the staging name; the pending spec stays unless it could not be written or was tidied up |
| Grants.GrantManager.RequestGrant | src/core/grants.cpp:318-404 | succeeds exactly when the request is entitled to a line and every step works, adding exactly one saved entry and one drop-in with that line; a failure under a fresh id leaves memory as it was and, before the helper's turn, every file; a failed helper leaves the pending spec, the drop-ins as they were unless an install went unreported, and the saved entry exactly if the second saving fails; no file of another id ever changes |
| Grants.RequestedEffect | src/core/grants.cpp:376-404 | what the stores hold after a request that saved its entry, for every combination of failures |
| Grants.GrantManager.RevokeGrant | src/core/grants.cpp:406-425 | the entry goes in any case, the drop-in when the unlink succeeds, and the file follows only if an entry existed |
| Grants.GrantManager.SweepExpired | src/core/grants.cpp:427-441 | exactly the expired entries go, of the sudoers files exactly their drop-ins whose unlink succeeds, and no pending spec |
| Grants.GrantManager.OnDiskGrants | src/core/grants.cpp:94-119 | each listed id once; all of them when the directory is read whole, none when it cannot be opened |
| Grants.GrantManager.DropStale | src/core/grants.cpp:450-462 | entries that are expired or not on disk go, and the expired installed ones are queued once each |
| Grants.GrantManager.QueueStrays | src/core/grants.cpp:464-469 | every installed id without an entry is queued once more, and nothing else is |
| Grants.GrantManager.ReconcileAtStartup | src/core/grants.cpp:443-484 | the survivors of what was listed stay, everything else listed is queued, expired installed ids exactly twice; of the sudoers files exactly the queued hex-named drop-ins whose unlink succeeds go, and no pending spec |
| Grants.GrantManager.RemoveDropIns | src/core/grants.cpp:476-481 | of all files exactly the drop-ins of queued hex ids whose unlink succeeds are gone |
| Grants.StartDaemon | src/core/server.cpp:51-73 | construction then reconciliation: drop-ins, memory and file agree on the live grants exactly when the listing missed no hex-named drop-in; of all files only queued drop-ins go |
| GrantTemplate.ArgValueCharsetOk | src/core/grant_template.cpp:37-46 | true exactly for non-empty text over the whitelisted characters |
| GrantTemplate.PlaceholderMeaning | src/core/grant_template.cpp:28-32 | a piece is the placeholder of `name` exactly when it is `{name}` with a non-empty name |
| GrantTemplate.ArgCharsAreWhitelisted | src/core/grant_template.cpp:37-46 | the accepted characters, one by one |
| GrantTemplate.ArgValuesAreInert | src/core/grant_template.cpp:34-46 | no accepted value has a sudoers wildcard, a backslash, a quote or a blank |
| GrantTemplate.ValidateCapturedArgs | src/core/grant_template.cpp:85-117 | no error exactly when every placeholder has a regex and a string value in the charset that matches it; otherwise the error names the placeholder of the first bad piece |
| GrantTemplate.RenderCommand | src/core/grant_template.cpp:119-140 | succeeds exactly when each `{name}` has a pattern and a matching string of whitelisted characters and every other piece consists of them, with the command text as result |
| GrantTemplate.RendersMeaning | src/core/grant_template.cpp:85-140 | the condition in terms of the pieces' shapes |
| GrantTemplate.PlaceholderWord | src/core/grant_template.cpp:119-140 | the word of a piece `{name}` is the value captured under that name |
| GrantTemplate.LiteralWord | src/core/grant_template.cpp:119-140 | the word of any other piece is the piece |
| GrantTemplate.CommandParsesBack | src/core/grant_template.cpp:119-140 | the text after the binary splits into exactly one non-empty field per argv piece, literal or captured value |
| GrantTemplate.RenderIsInjective | src/core/grant_template.cpp:119-140 | two argument objects rendering to the same command agree on every placeholder used |
| GrantTemplate.RenderSudoersSpec | src/core/grant_template.cpp:142-150 | succeeds exactly for a valid shortid and a renderable command |
| GrantTemplate.RenderFullAdminSpec | src/core/grant_template.cpp:152-157 | succeeds exactly for a valid shortid, with that shortid's admin line, which both validators accept |
| GrantTemplate.RenderedSpecIsInLanguage | src/core/grant_template.cpp:142-150 | a rendered line with a printable absolute binary is installable unless it is longer than 4096 |
| GrantTemplate.ChecksAreTheLanguage | src/core/grant_template.cpp:288-328 | the positional checks accept exactly the per-command lines and the admin line |
| GrantTemplate.SpecLanguageWritten | src/core/grant_template.cpp:288-328 | the installable lines, written out |
| GrantTemplate.SpecIsWellFormed | src/core/grant_template.cpp:288-328 | the daemon's validator accepts exactly that language |
| GrantTemplate.SpecWellFormed | src/priv/main.c:356-394 | the helper's validator accepts exactly the same language |
| FieldScanner.FieldsMeaning | src/tools/scheduling/cron_to_schtasks.cpp:12-24 | fields are non-empty and blank-free, lose nothing but blanks, and are as many as the runs of non-blanks |
| FieldScanner.JoinRoundTrip | src/tools/scheduling/cron_to_schtasks.cpp:12-24 | fields written with a space before each are read back exactly |
| FieldScanner.SplitFields | src/tools/scheduling/cron_to_schtasks.cpp:12-24 | the splitter yields those fields |
| FieldScanner.ValidSchedule | src/core/cron_store.cpp:72-86 | accepts exactly 1 to 200 of the characters 0-9 * / , - space and tab, ending in a non-blank and having five fields |
| FieldScanner.ValidateScheduleLinux | src/tools/scheduling/cron_backend_linux.cpp:161-176 | the counter is the number of fields; accepts exactly newline-free text with five or more |
| FieldScanner.LinuxAcceptsWhatStoreAccepts | src/core/cron_store.cpp:72-86 | every schedule the store accepts is accepted by the Linux backend |
| FieldScanner.SixFieldsDiffer | src/tools/scheduling/cron_backend_linux.cpp:161-176 | six stars are accepted by the Linux backend and refused by the store |
| StateFiles.ListedLoadsBack | src/core/cron_store.cpp:95-139 | loading what was persisted restores the map, whatever order the entries were written in |
| StateFiles.EntriesAreKeyed | src/core/cron_store.cpp:104-119 | every loaded entry is under its own valid id |
| StateFiles.IdsAreHex | src/core/cron_store.cpp:58-67 | an id is 16 of the characters 0123456789abcdef |
| StateFiles.LastRecordCounts | src/core/grants.cpp:137-160 | what is loaded for an id is its last record, if the id is valid, and nothing else is loaded |
| CronStore.CronStore.constructor | src/core/cron_store.cpp:88-93 | a store loaded from a file holds what the file says, each job under its own valid id |
| CronStore.CronStore.LoadFile | src/core/cron_store.cpp:95-121 | the loading loop rebuilds that map |
| CronStore.CronStore.Persist | src/core/cron_store.cpp:123-139 | afterwards a fresh load gives the map back, or the file is unchanged when the write fails |
| CronStore.CronStore.Add | src/core/cron_store.cpp:141-176 | succeeds exactly for a valid schedule, a command, a free id and a working write, adding that one job; otherwise nothing changes; map and file stay in agreement |
| CronStore.CronStore.Update | src/core/cron_store.cpp:178-207 | succeeds exactly for the owner of an existing job with valid fields and a working write, changing only the given fields; otherwise nothing changes |
| CronStore.CronStore.Remove | src/core/cron_store.cpp:209-222 | succeeds exactly for the owner with a working write, removing that one job; otherwise nothing changes |
| CronStore.CronStore.ListForUser | src/core/cron_store.cpp:224-231 | each of the user's jobs exactly once, and nobody else's |
| CronStore.RunsAreIsolated | src/core/cron_store.cpp:141-231 | no run of one user's operations changes what another user lists |
| CrontabText.BuildCrontabText | src/tools/scheduling/cron_backend_linux.cpp:54-83 | the rewriting loop produces the foreign lines followed by one block per job |
| CrontabText.RewriteRoundTrip | src/tools/scheduling/cron_backend_linux.cpp:54-83 | rescanning the output finds the input's foreign lines in order, none of them tagged, and exactly one tagged block per job in order |
| CrontabText.BlocksReadBackIff | src/tools/scheduling/cron_backend_linux.cpp:54-83 | the output rescans to one block per job exactly when no id and no schedule has a newline |
| CrontabText.OutputIsRun | src/tools/scheduling/cron_backend_linux.cpp:54-83 | read as cron reads it, each block of the output names its job's id and schedule and then runs the runner with that id |
| CrontabText.RewriteIsAbsorbing | src/tools/scheduling/cron_backend_linux.cpp:54-83 | rewriting twice is rewriting with the last jobs only |
| CrontabText.UntouchedIsForeign | src/tools/scheduling/cron_backend_linux.cpp:54-83 | a crontab without tag lines keeps every line |
| CrontabText.UntouchedTextStays | src/tools/scheduling/cron_backend_linux.cpp:54-83 | a crontab without tag lines and jobs stays character for character, but for a missing last newline |
| CronOps.CronTools.RebuildUserSchedule | src/tools/scheduling/cron_backend_linux.cpp:153-159 | whatever the crontab held or the reading returned, the managed blocks become the user's stored jobs exactly when no stored schedule has a newline, so that cron runs the runner with each job's id on its schedule, and the foreign lines are then those of the text that was read; a failed install changes nothing |
| CronOps.EmptyReadKeepsForeignIff | src/tools/scheduling/cron_backend_linux.cpp:49-52 | after a reading that printed nothing the foreign lines are kept exactly when there were none |
| CronOps.CronTools.ApplyJobInstall | src/tools/scheduling/cron_ops.cpp:26-31 | succeeds exactly when both writes do, and then the crontab is rewritten for the stored jobs; on failure no crontab changed |
| CronOps.CronTools.CronCreate | src/tools/scheduling/cron_ops.cpp:44-75 | succeeds exactly for a user, a valid schedule, a command, a free id and working writes, adding exactly the requested job and leaving store and crontab in agreement exactly when no stored schedule of the user has a newline; failure with a working rollback leaves both as they were |
| CronOps.CronTools.CronUpdate | src/tools/scheduling/cron_ops.cpp:95-118 | succeeds exactly for the owner, valid changes and working writes, leaving store and crontab in agreement with the changed job under the same condition; nobody else is affected |
| CronOps.CronTools.CronDelete | src/tools/scheduling/cron_ops.cpp:123-136 | succeeds exactly for the owner and working writes, leaving store and crontab in agreement without the job under the same condition; nobody else is affected |
| Calendar.DecimalRoundTrip | src/tools/scheduling/cron_to_schtasks.cpp:27-37 | a number written in decimal reads back as itself |
| Calendar.TimeRoundTrip | src/tools/scheduling/cron_to_schtasks.cpp:54-58 | a formatted time of day reads back as its hour and minute |
| Calendar.WeekdaysFollow | src/tools/scheduling/cron_to_schtasks.cpp:41-52 | the days of the week both languages refer to: 1 January 1970 was a Thursday and they follow each other |
| Calendar.DatesAreNumbered | src/tools/scheduling/cron_to_schtasks.cpp:146-162 | the dates both languages refer to are valid and numbered by the usual formula for the civil calendar |
| CronToSchtasks.ParseIntInRange | src/tools/scheduling/cron_to_schtasks.cpp:27-37 | the value of a decimal numeral in range and below the overflow guard, and -1 for everything else |
| CronToSchtasks.ParseDow | src/tools/scheduling/cron_to_schtasks.cpp:41-52 | the schtasks name of day v exactly for the digit v and for cron's name of v in any case, and the empty string for everything else |
| CronToSchtasks.DayNamedMeaning | src/tools/scheduling/cron_to_schtasks.cpp:41-52 | exactly the digits 0 to 6 and the seven names in any case name a day, each its own |
| CronToSchtasks.TranslatePreservesMeaning | src/tools/scheduling/cron_to_schtasks.cpp:62-174 | every accepted schedule other than a minute step fires at the same minutes as the flags it is translated to |
| CronToSchtasks.TranslationIsFaithfulIff | src/tools/scheduling/cron_to_schtasks.cpp:62-174 | an accepted schedule keeps its meaning exactly unless it is a minute step that does not divide both |
| CronToSchtasks.TranslateSchedule | src/tools/scheduling/cron_to_schtasks.cpp:62-174 | the branches of the code compute the translation all these results are about |
| CronToSchtasks.StepPreservesMeaningIff | src/tools/scheduling/cron_to_schtasks.cpp:99-109 | a minute step and its task fire at the same minutes from registration on exactly when N divides 60 and the minute of registration |
| CronToSchtasks.StepOnTheHourIff | src/tools/scheduling/cron_to_schtasks.cpp:99-109 | registered on an hour boundary: exactly when N divides 60 |
| CronToSchtasks.SevenMinuteStepDiffers | src/tools/scheduling/cron_to_schtasks.cpp:99-109 | every seven minutes: cron fires at the next full hour and the task does not |
| CronToSchtasks.FiveMinuteStepDiffers | src/tools/scheduling/cron_to_schtasks.cpp:99-109 | every five minutes, registered at three past: the task runs at three past and not at five past |
| CronToSchtasks.AcceptsExactly | src/tools/scheduling/cron_to_schtasks.cpp:62-174 | translation succeeds exactly for the handled shapes and ranges |
| CronToSchtasks.KnownWeeklyTranslations | tests/test_cron_to_schtasks.cpp:54-72 | eight o'clock on day 1 becomes /D MON, and on fri /D FRI, at 08:00 |
| CronToSchtasks.KnownDailyTranslations | tests/test_cron_to_schtasks.cpp:40-52 | half past nine becomes DAILY at 09:30, and seventeen past HOURLY at 00:17 |
| CronToSchtasks.KnownMonthlyTranslations | tests/test_cron_to_schtasks.cpp:74-80 | midnight on the fifteenth becomes MONTHLY /D 15 at 00:00 |
| WindowsTasks.PathsAreDistinct | src/priv_win/operations.cpp:964-970 | different users or jobs have different task paths |
| WindowsTasks.TenantsAreRecognised | src/platform/windows/priv_client.cpp:90-100 | a username yields a shortid exactly when it is mcp_user_ and the shortid |
| WindowsTasks.ParseListing | src/priv_win/operations.cpp:1110-1136 | the parsing loop yields the ids on the listing's lines, in order |
| WindowsTasks.IdOfTaskLine | src/priv_win/operations.cpp:1121-1134 | a line naming a task in the user's folder yields its id exactly when that is 16 hex digits |
| WindowsTasks.BackslashIsOptional | src/priv_win/operations.cpp:1124-1130 | a listed name yields the same id with and without its leading backslash |
| WindowsTasks.ListingIsComplete | src/priv_win/operations.cpp:1097-1137 | the ids parsed are exactly those of the user's job tasks |
| WindowsTasks.TaskScheduler.InstallJob | src/priv_win/operations.cpp:995-1071 | installs or overwrites exactly the one task, or changes nothing |
| WindowsTasks.TaskScheduler.RemoveJob | src/priv_win/operations.cpp:1073-1095 | removes exactly the one task if it exists and can be deleted, and reports success either way |
| WindowsTasks.TaskScheduler.ListJobs | src/priv_win/operations.cpp:1097-1137 | the user's job tasks when the query works, none when it fails |
| WindowsTasks.TaskScheduler.InstallAll | src/tools/scheduling/cron_backend_windows.cpp:93-112 | every wanted job is installed with its translated flags, or the first that cannot be stops the run with the ones before it installed |
| WindowsTasks.TaskScheduler.RebuildUserSchedule | src/tools/scheduling/cron_backend_windows.cpp:67-126 | succeeds exactly for a tenant's username, an answered listing, translatable schedules and working installs, whatever happened to the query and the deletions; a run that stops has installed the first jobs and removed nothing |
| WindowsTasks.RebuiltMeaning | src/tools/scheduling/cron_backend_windows.cpp:67-126 | after success the user's job tasks are the wanted ids with their translated flags and exactly those stale ones that were not listed or could not be deleted |
| WindowsTasks.RebuiltIsReconciledIff | src/tools/scheduling/cron_backend_windows.cpp:113-125 | they are exactly the wanted ids, as intended, if and only if every stale task was listed and deleted |
| WindowsTasks.FailedQueryKeepsStale | src/priv_win/operations.cpp:1097-1137 | with a failed query a run reports success and leaves every stale task |
| WindowsTasks.StoppedRunSparesOthers | src/tools/scheduling/cron_backend_windows.cpp:93-112 | a run that stops part-way changes no task but the user's job tasks |
| WindowsTasks.WantedTasksFire | src/tools/scheduling/cron_backend_windows.cpp:93-112 | each wanted job runs from its registration on at the minutes its cron schedule names, exactly unless it is a minute step that does not divide 60 and the minute of registration |
| WindowsTasks.OthersAreUntouched | src/tools/scheduling/cron_backend_windows.cpp:67-126 | every task that is not one of the user's job tasks stays as it was |
| WindowsTasks.OtherUsersPathsAreOthers | src/priv_win/operations.cpp:964-970 | another user's tasks are among those |
| WindowsTasks.ReconciliationIsIdempotent | src/tools/scheduling/cron_backend_windows.cpp:67-126 | once the tasks are as intended, another run that reports success changes nothing, whatever queries and deletions fail in it |
| Sha256.Sha256 | src/core/crypto.cpp:50-84 | whole blocks followed by the tail buffer give the FIPS 180-4 digest of every message shorter than 2^64 bits |
| Sha256.ProcessBlock | src/core/crypto.cpp:21-46 | the in-place shuffle replaces the state by its compression with the block, section 6.2.2 |
| Sha256.FillTail | src/core/crypto.cpp:65-73 | the 64- or 128-byte buffer holds the rest of the message, the marker, zeros and the big-endian bit length |
| Sha256.TailOfPadded | src/core/crypto.cpp:65-75 | that is what is left of the padded message after its whole blocks |
| Sha256.Output | src/core/crypto.cpp:76-83 | the digest bytes are the state words, most significant byte first |
| Sha256.WordIsBigEndian | src/core/crypto.cpp:23-26 | a word read from four bytes has them as its bytes, most significant first |
| Sha256.PaddingIsTheStandards | src/core/crypto.cpp:65-73 | in bits, the padding is a one, the least number of zeros and the 64-bit length of section 5.1.1, a multiple of 512 in all |
| Sha256Laws.RotationBits | src/core/crypto.cpp:19 | bit i of a word rotated by n is its bit (i + n) mod 32, for every n that is used |
| Sha256Laws.ChBits | src/core/crypto.cpp:36 | choose takes the second operand's bit where the first one's is set and the third's elsewhere |
| Sha256Laws.MajBits | src/core/crypto.cpp:39 | majority has the bit that at least two of its operands have |
| Sha256Laws.BigSigma0Bits | src/core/crypto.cpp:38 | each bit is the exclusive or of bits i+2, i+13 and i+22 around the word |
| Sha256Laws.BigSigma1Bits | src/core/crypto.cpp:35 | the same with 6, 11 and 25 |
| Sha256Laws.SmallSigma0Bits | src/core/crypto.cpp:28 | the same with 7, 18 and a shift by 3 that brings in zeros |
| Sha256Laws.SmallSigma1Bits | src/core/crypto.cpp:29 | the same with 17, 19 and a shift by 10 |
| Sha256Laws.PrimesInOrder | src/core/crypto.cpp:7-17 | the table of primes lists the first 64 in order, with none left out |
| Sha256Laws.ConstantsAreCubeRoots | src/core/crypto.cpp:7-17 | the t-th constant is the first 32 bits of the fraction of the cube root of the t-th prime |
| Sha256Laws.InitialHashIsSquareRoots | src/core/crypto.cpp:51-54 | the initial hash value is the same for the square roots of the first eight primes |
| Sha256Vector.AbcDigest | tests/test_crypto.cpp:9-12 | the digest of "abc" is ba7816bf...f20015ad, worked through block, schedule and all 64 rounds |
| Base64.Encode | src/core/runtime_sync.cpp:16-41 | the loop writes the message's groups of four letters, the last one padded (`cron_backend_linux.cpp:22-46` repeats the same loop) |
| Base64.Decode | src/priv/main.c:649-684 | the C loop returns the decoded bytes or -1, and never writes past dst_sz or past the four-symbol buffer |
| Base64.WriteQuad | src/priv/main.c:664-680 | a full quartet contributes one to three bytes, each only if it fits |
| Base64.GroupRoundTrip | src/priv/main.c:664-680 | the four letters of a group decode to its one, two or three bytes |
| Base64.RoundTrip | src/priv/main.c:649-684 | decoding the daemon's encoding returns the same bytes when they fit and fails otherwise |
| Base64.SpacesAreIgnored | src/priv/main.c:656 | removing whitespace from any input does not change the result |
| Base64.LettersAreTheAlphabet | src/core/runtime_sync.cpp:17-18 | the 64 letters are the characters of the table, in order |
| Base64.OnlyLettersHaveValues | src/priv/main.c:639-647 | the decoder gives a value to exactly these letters, each its own |
| Base64.EncodedShape | src/core/runtime_sync.cpp:16-41 | four characters for every group of three bytes begun; the last two or one are `=` exactly when one or two bytes are left over, and no other character is |
| Base64.WhitespaceMayBeInserted | src/priv/main.c:656 | a tab, line feed, carriage return or space inserted anywhere changes nothing |
| Base64.LettersDecodeExactly | src/priv/main.c:649-684 | a text of letters only decodes exactly when it comes in fours and fits, and then to the message it is the encoding of |
| Base64.StrangerIsRefused | src/priv/main.c:656-663 | any character but letters, padding, whitespace and the terminator is refused, wherever it comes |
| Base64.KnownEncodings | src/core/runtime_sync.cpp:16-41 | "f", "fo" and "foo" are encoded as "Zg==", "Zm8=" and "Zm9v", the vectors in section 10 of RFC 4648 |
| ArgvQuoting.BuildCommandLine | src/priv_win/operations.cpp:412-421 | the quoting loop writes each argument in quotes with its quotes escaped |
| ArgvQuoting.ArgsRoundTripIff | src/priv_win/operations.cpp:414-421 | parsing by the documented backslash rules gives the arguments back exactly when none has a backslash right before a double quote or at its end |
| ArgvQuoting.CommandLineRoundTripIff | src/priv_win/operations.cpp:412-421 | the same for the whole command line with the program name, by the documented rules |
| ArgvQuoting.LenientRoundTripIff | src/priv_win/operations.cpp:414-421 | these parsers give the arguments back exactly when each is safe as above or ends in a safe text's backslash and quote, the latter only in the last argument where quoting is resumed |
| ArgvQuoting.SafeArgsRoundTripLeniently | src/priv_win/operations.cpp:414-421 | whatever the documented rules read back is also read back by both forms of the undocumented rule for two quotes in a row |
| ArgvQuoting.LenientReadsMore | src/priv_win/operations.cpp:414-421 | an argument of a backslash and a quote is lost by the documented rules and read back by the undocumented ones |
| ArgvQuoting.SlashBeforeQuoteMeaning | src/priv_win/operations.cpp:416-419 | the condition in terms of positions |
| ArgvQuoting.TrailingBackslashIsLost | src/priv_win/operations.cpp:416-420 | an argument ending in a backslash is not read back |
| RateLimiter.RateLimiter.constructor | src/core/rate_limiter.cpp:4-5 | a new limiter agrees with an empty history |
| RateLimiter.RateLimiter.Allow | src/core/rate_limiter.cpp:7-36 | the decision is that of the rule on the full history, and exactly an admission is remembered |
| RateLimiter.RateLimiter.CollectGarbage | src/core/rate_limiter.cpp:22-32 | dropping idle buckets keeps the agreement with the full history |
| RateLimiter.AtMostMaxPerMinute | src/core/rate_limiter.cpp:7-19 | no closed interval of 60 seconds holds more than max_rpm admissions of a key |
| RateLimiter.AdmitsByTheMinute | src/core/rate_limiter.cpp:10-19 | a request is admitted exactly when fewer than max_rpm were admitted in the 60 seconds up to it |
| SessionStore.ConstantTimeEqual | src/core/crypto.cpp:110-117 | true exactly for equal byte strings |
| SessionStore.SessionStore.constructor | src/core/session.cpp:5-6 | a new store reflects the empty trace |
| SessionStore.SessionStore.Issue | src/core/session.cpp:8-20 | the session is stored as returned, every other stored session is unchanged or was idle and collected, and issuing is all that happened |
| SessionStore.SessionStore.Validate | src/core/session.cpp:22-38 | succeeds exactly when the trace of everything that happened accepts it, returning the stored session under its own id; then only its last_seen moves, and otherwise at most an idle session goes |
| SessionStore.SessionStore.Invalidate | src/core/session.cpp:40-43 | exactly that session is gone, and that is all that happened |
| SessionStore.SessionStore.CollectGarbage | src/core/session.cpp:50-60 | after the interval exactly the idle sessions go, before it nothing changes, and the store stays in agreement with the unchanged trace |
| SessionStore.AcceptsIffDeserves | src/core/session.cpp:22-38 | with fresh ids, accepted means: issued with this bearer, not invalidated since, and touched at most idle_ttl ago |
| SessionStore.FailuresChangeNothing | src/core/session.cpp:26-36 | attempts with the wrong bearer or too late change no later answer |

## Left out

- Grant records on Windows (`render_windows_grant_record`, `validate_grant_record`): only the Linux sudoers path is modelled.
- `parse_templates`, configuration, JSON parsing and wrongly typed JSON fields: a state file is unreadable or a list of entries.
- The audit log, logging, threads and pipes; `visudo`, `crontab`, `schtasks` and account lookups are steps that succeed or fail.
- `std::regex` is an arbitrary matching function that may report a malformed pattern.
- Torn writes: a temporary file plus rename replaces a file at once or not at all; the fallback of `atomic_write` that removes the target after a failed rename is not modelled.
- CronStore.CronStore.constructor: a `crons.json` that exists but cannot be opened at startup counts as an unreadable file, so the agreement is with what that reading found.
- GrantProtocol.WriteAheadSafety: says nothing about runs outside the listed assumptions, where an entry can be erased while its drop-in stays; only a startup or a revocation of that very id repairs that.
- A revoke helper that outlives the daemon: it can only remove its drop-in later, and is not modelled.
- GrantProtocol.BoundedLifetime: bounds when the removing sweep starts, not how long its helper calls take.
- CronOps.CronTools.CronUpdate: claims no agreement after a failure, because the code neither rolls back nor orders its two writes; CronDelete likewise.
- CronOps.CronTools.CronCreate: a metadata file already written for a job that is then rolled back stays behind, as in the code; its contents are not modelled further.
- Two operations of one user racing, and the unlocked reads in `CronStore::add` and `SessionStore::validate`: the stores are modelled sequentially.
- CronToSchtasks.TranslatePreservesMeaning: the cron meaning covers `*`, steps, literals and day names; lists and ranges, which are never accepted, have none.
- ArgvQuoting.CommandLineRoundTripIff: for the documented backslash rules; with the program name in front the undocumented rule is not treated, and neither are embedded NULs.
- SHA-256 of 2^64 bits and more, where the 64-bit length wraps; `to_hex` and the salted wrappers.
- The database, firewall, web-server, file, sandbox and command tools, HTTP transport, sessions over HTTP, and the CLI.
