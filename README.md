# craftops core, modelled in Dafny

craftops keeps a Minecraft server's mods up to date, backs up the server directory, prunes old backups, warns players over Discord before maintenance, and runs health checks. The repository holds three successive implementations, and each is modelled on its own terms, because their behaviour differs:

- the single-file Python manager, `MinecraftModManager.py`;
- the Python package `minecraft_mod_manager`;
- two Go layers: the older `internal/services`, and the newer `internal/service` with `internal/domain` and `internal/config`.

The model covers the decision logic under the plumbing:

- choosing a compatible release;
- retrying requests and classifying HTTP statuses;
- taking project ids out of mod page URLs;
- looking mods up in chunks with a pause between chunks;
- sorting each mod into updated, skipped or failed;
- naming, listing, excluding and pruning backups;
- gating and truncating Discord notifications;
- the restart-warning countdown;
- defaulting and validating the configuration;
- stripping comments from JSONC;
- tallying the health checks.

Code that changes state step by step is modelled as methods with loops and invariants. This covers deletion loops, the update loops that fill result lists, in-place sorts and in-place validation. Each such method is proved against a specification function, and the properties the source promises are lemmas about that function.

Layout:

- one Dafny module per core source file: `Monolith`, `PyServices`, `ModManager`, `BackupManager`, `NotificationManager`, `PySettings`, `Jsonc`, `Domain`, `CraftopsConfig`, `Mods`, `ModService`, `Backup`, `BackupService`, `Notification`, `NotificationService` and `Health`;
- shared modules for logic that several files repeat: `Modrinth`, `ModUpdates`, `BackupPolicy`, `Retention`, `Discord` and `Batching`;
- library behaviour the code relies on: `Urls` for `urlparse` and `net/url`, `Ordering` for the sorts, `FileSystem` for a directory that operations list, write and delete in, `Text` for string helpers, and `Results`.

The network, the clock, the file system's answers and the server process are parameters. A directory that the code changes is a `FileSystem.Directory` object, which the methods modify in place.

## Model

| member | source | states |
|---|---|---|
| Monolith.SplitLinesFrom | MinecraftModManager.py:45 | `splitlines()` yields lines that contain no line boundary character |
| Monolith.Kept | MinecraftModManager.py:45 | the kept lines are the stripped non-blank lines: each is non-empty, has no surrounding whitespace and no line break |
| Monolith.PreparedLines | MinecraftModManager.py:39-45 | the text handed to the JSON decoder, split at "\n", gives back exactly the stripped non-blank lines of the comment-free text, and is empty when there are none |
| Monolith.ParseJsonc | MinecraftModManager.py:34-55 | a decoding error comes back as "Invalid JSONC format: " followed by the decoder's message |
| Monolith.BlockCommentsFirst | MinecraftModManager.py:39-42 | block comments are removed before line comments, so a "//" inside a block comment disappears with the block |
| Monolith.LineCommentsFirst | minecraft_mod_manager/utils/jsonc.py:30-33 | the package loader removes line comments first, so the same text keeps an unterminated "/*" behind: the two loaders disagree |
| Monolith.SendDiscordNotification | MinecraftModManager.py:577-605 | no webhook sends nothing; otherwise the embed carries the title, the message as Discord.Truncate caps it, and red exactly for errors; a status other than 200/204 or a failed post is only logged |
| Monolith.OperationError | MinecraftModManager.py:452-460 | the notice of a failed operation is an error notice titled "<operation> Error" |
| Monolith.FetchModInfo | MinecraftModManager.py:188-261 | every look-up starts with the two-second pause before the project request |
| Monolith.FetchVersions | MinecraftModManager.py:220-254 | the version half of the look-up also starts with a two-second pause |
| Monolith.FoundNeedsAnswers | MinecraftModManager.py:202-205 | a mod is stored only when both its project and its version endpoints answered 200 at some attempt |
| Monolith.VersionsFoundNeedsAnswer | MinecraftModManager.py:223-243 | a found release needs a 200 answer from the version endpoint |
| Monolith.Answered | MinecraftModManager.py:192-205 | a request returns a body only after a 200 reply |
| Monolith.NoCompatibleRelease | MinecraftModManager.py:244-254 | when no release is compatible, no entry is stored and exactly one failure line names the title, the game version and the loader, after three pauses |
| Monolith.ProjectRateLimited | MinecraftModManager.py:193-208 | a project endpoint that always answers 429 is asked max_retries+1 times; the mod fails under its project id with the rate-limit message wrapped once per attempt, and its versions are never requested |
| Monolith.FetchLatestModVersions | MinecraftModManager.py:130-176 | URLs are looked up chunk_size at a time in configured order with a pause only between chunks; exactly the found URLs are stored with their info, the failure lines follow URL order, and any failure sends one "Mod Update Issues" error notice; a zero chunk size raises range's ValueError |
| Monolith.SummarySections | MinecraftModManager.py:791-814 | the summary has the updated list and, only when something was updated, the failed list; otherwise the up-to-date count; the statistics come last |
| Monolith.SummaryLists | MinecraftModManager.py:796-803 | the updated mods can be read back one per line after the header; with nothing updated failures are not listed at all |
| Monolith.UpdateMods | MinecraftModManager.py:263-304 | no mod found sends "All mods are up to date" and touches no file; otherwise each stored mod is updated in mod_info order and one summary is sent; range's error is reported and re-raised |
| Monolith.StatisticsAddUp | MinecraftModManager.py:277-299 | every stored mod is counted once as updated, up to date or failed |
| Monolith.CreateBackup | MinecraftModManager.py:462-529 | True exactly when every step succeeded: then "<strftime(format)>.tar.gz" is stored, temp_backup is gone and the success notice names the archive; otherwise the error notice carries str(e) ("Command failed: <stderr>" for a command) and the directory shows how far the run got: unchanged after a setup failure, temp_backup removed, temp_backup freshly made, a partial archive stored beside it, or a complete archive beside a temp_backup whose removal failed |
| Monolith.CleanupOldBackups | MinecraftModManager.py:531-575 | run with the corrected pattern (see Findings): the archives matching it are taken newest first; each is removed when older than keep_days or at index >= max_backups; the first failed removal ends the clean-up, leaving exactly the earlier removals done |
| Monolith.CreatedBackupIsListed | MinecraftModManager.py:486-487 | with the corrected pattern a backup just stored, complete or partial, is among those the clean-up considers |
| Monolith.Window | MinecraftModManager.py:435-443 | `readlines()[-n:]` is at most n lines, the last ones of the log |
| Monolith.PlayerCount | MinecraftModManager.py:111-128 | 0 when the server is not running; otherwise the count of the newest readable count line among the last 50, else 0 |
| Monolith.LoggedLineUnread | MinecraftModManager.py:118-121 | on a logged "There are N of a max ..." line the third token is part of the log prefix, so the count as written is never read, while the corrected reading gives N |
| Monolith.AsWrittenSkips | MinecraftModManager.py:118-122 | the as-written reading of a logged count line fails, so the loop goes on to older lines |
| Monolith.CorrectedFinds | MinecraftModManager.py:118-121 | the corrected reading returns the number after "There are " |
| Monolith.CountLineShape | MinecraftModManager.py:119 | the server's reply to `list` passes the "There are" and "players online" filter |
| Monolith.ControlServer | MinecraftModManager.py:692-721 | stop succeeds exactly when the server was not running or the stop helper returned True, start likewise; restart succeeds exactly when stopping was not needed or returned True and the start helper returned True, and never starts after a failed stop; an unknown action or a helper's exception returns False with an error notice titled "Server <action> Error" |
| Monolith.Helper | MinecraftModManager.py:723-765 | one process helper call: True only when it returned True, an error notice exactly when it raised |
| Modrinth.LowerAll | minecraft_mod_manager/managers/mod.py:265 | the lower-cased loader list has one entry per loader, each lower-cased |
| Modrinth.CompatibilityFormsAgree | minecraft_mod_manager/managers/mod.py:140-145 | the filter's `any(loader.lower() == modloader.lower())` accepts exactly the releases `_check_version_compatibility` (membership in the lower-cased list, lines 259-266) accepts |
| Modrinth.CompatibleReleases | MinecraftModManager.py:228-232 | the comprehension keeps exactly the compatible releases and nothing else |
| Modrinth.FilterHeadIsFirst | MinecraftModManager.py:234-236 | `compatible_versions[0]` is the first compatible release in the order the registry returned them |
| Modrinth.Choose | MinecraftModManager.py:234-254 | a mod is found exactly when the first compatible release has a file, and then its record comes from that release's first file; with no compatible release the one failure line names the game version and the loader; a first compatible release without files fails with Python's index error text |
| Modrinth.FirstCompatibleUnique | MinecraftModManager.py:236 | the first compatible position is unique |
| Modrinth.FinalFrame | minecraft_mod_manager/managers/mod.py:72-84 | an attempt that is not retried returns the body exactly on a 200 reply, the rate-limit error exactly on a 429 reply, and a transport error exactly when the request itself failed |
| Modrinth.BackoffIsPower | minecraft_mod_manager/managers/mod.py:74 | the wait before retry k is `base_delay * 2**k` |
| Modrinth.MakeRequest | minecraft_mod_manager/managers/mod.py:64-87 | one request makes at least one GET and sleeps 2*attempts-1 times: a pause before every GET and a back-off between them |
| Modrinth.Raised | minecraft_mod_manager/managers/mod.py:86-87 | the request returns exactly when its last attempt got a body, and returns that body |
| Modrinth.RaisedFrames | minecraft_mod_manager/managers/mod.py:77-87 | a retried attempt re-raises its retry's error with one more "Request failed: " prefix; an attempt that is not retried raises its own cause with one prefix |
| Modrinth.RequestTrace | MinecraftModManager.py:188-208 | every attempt but the last answered 429 with retries left, the last was not retried, the sleeps alternate between the fixed pause and the doubling back-off, and the outcome is the last attempt's |
| Modrinth.RequestAttempts | minecraft_mod_manager/managers/mod.py:72-77 | the attempts run until one is not retried, and that attempt decides the outcome |
| Modrinth.RequestSleeps | minecraft_mod_manager/managers/mod.py:70-76 | the sleeps alternate between the pause before each GET and `base_delay * 2**retry_count` before each retry |
| Modrinth.AlwaysRateLimited | minecraft_mod_manager/managers/mod.py:72-79 | a server that always answers 429 is asked max_retries - retry_count + 1 times and "Rate limit exceeded after <max_retries> retries" comes back, wrapped once per attempt |
| Modrinth.FirstAnswerOk | minecraft_mod_manager/managers/mod.py:70-84 | a first 200 reply is returned as it is after one pause and no retry |
| ModUpdates.LastSegment | MinecraftModManager.py:212 | `url.split('/')[-1]` contains no '/' |
| ModUpdates.LastSegmentAfterSlash | minecraft_mod_manager/managers/mod.py:129 | the project id is exactly what follows the last '/', or the whole URL when it has none |
| ModUpdates.CollectedContents | minecraft_mod_manager/managers/mod.py:104-117 | after the look-ups a URL is a key of mod_info exactly when it was looked up and found, holding what was found; the failure lines are those of the failed look-ups, in URL order |
| ModUpdates.EachUrlOnce | minecraft_mod_manager/managers/mod.py:147-167 | with distinct URLs every URL lands exactly once, in mod_info or in the failure list |
| ModUpdates.SingleUpdate | minecraft_mod_manager/managers/mod.py:212-244 | each mod lands in exactly one of skipped, updated and failed, and is listed as newly added exactly when its file was missing |
| ModUpdates.SameSizeIsSkipped | minecraft_mod_manager/managers/mod.py:222-229 | an existing file of the remote size is listed as skipped and left untouched |
| ModUpdates.MissingIsAdded | minecraft_mod_manager/managers/mod.py:233-241 | a missing file is listed as newly added and, once downloaded, is the only entry of that name |
| ModUpdates.FailedReplacementLosesMod | minecraft_mod_manager/managers/mod.py:231-244 | the old file is removed before the download, so a failed download leaves no file of that name |
| ModUpdates.Tracker.constructor | minecraft_mod_manager/managers/mod.py:182-185 | the four result lists start empty |
| ModUpdates.Tracker.UpdateSingleMod | MinecraftModManager.py:306-347 | one mod's update appends to each list exactly what the single-update decision gives and changes the directory as it says |
| ModUpdates.Updates | minecraft_mod_manager/managers/mod.py:189-200 | every mod of mod_info is counted once among updated, skipped and failed; at most that many are newly added |
| ModUpdates.OrderCoversKeys | minecraft_mod_manager/managers/mod.py:205 | the mods updated are as many as the keys of mod_info, the total the summary reports |
| ModUpdates.UpdateAll | minecraft_mod_manager/managers/mod.py:189-203 | the download stage runs the single update for every mod of mod_info in key order and reaches the lists and directory the specification gives |
| ModManager.FilterFormsAgree | minecraft_mod_manager/managers/mod.py:140-145 | the comprehension keeps, in order, exactly the releases `_check_version_compatibility` accepts (lines 259-266) |
| ModManager.FetchModInfo | minecraft_mod_manager/managers/mod.py:124-168 | every look-up starts with the one-second pause of `make_request` |
| ModManager.AnsweredAtOnce | minecraft_mod_manager/managers/mod.py:132-163 | when both endpoints answer at once, the stored record is that of the first compatible release and its first file; with none compatible, one line names the title, the game version and the loader; one pause per request |
| ModManager.ProjectRateLimited | minecraft_mod_manager/managers/mod.py:72-79 | a project endpoint that always answers 429 is asked max_retries+1 times, the mod fails under its project id with the rate-limit message wrapped once per attempt, and its versions are never requested |
| ModManager.FetchLatestVersions | minecraft_mod_manager/managers/mod.py:89-122 | URLs are looked up chunk_size at a time with a pause only between chunks; exactly the found URLs are stored with their info, failures keep URL order, and the `finally` clause sends one "Mod Update Issues" notice when any failed; a zero chunk size raises range's ValueError |
| ModManager.SummaryLines | minecraft_mod_manager/managers/mod.py:287 | the summary opens with the header giving the total, then a blank line |
| ModManager.SendUpdateSummary | minecraft_mod_manager/managers/mod.py:284-295 | the message built with `+=` is the summary's lines joined by newlines: header, then the updated, skipped and failed blocks in that order, each only when its list is non-empty |
| ModManager.SummaryReadsBack | minecraft_mod_manager/managers/mod.py:289-294 | with no newline inside an entry, splitting the message at newlines gives the summary's lines back, so each list appears, in order, exactly when it has entries |
| ModManager.SummaryLineOf | minecraft_mod_manager/managers/mod.py:287-294 | every line of the message is the header, a section title, an empty line or a list entry |
| ModManager.TitlesOneLine | minecraft_mod_manager/managers/mod.py:287-294 | the header and the section titles are single lines |
| ModManager.SummaryCountsAll | minecraft_mod_manager/managers/mod.py:182-205 | the updated, skipped and failed lists together have one entry per mod of mod_info |
| ModManager.UpdateMods | minecraft_mod_manager/managers/mod.py:170-210 | nothing found sends "All mods are up to date" once and downloads nothing; otherwise each mod of mod_info is updated and one summary sent; range's error is reported as "Mod Update Error" and re-raised |
| Discord.Truncate | minecraft_mod_manager/managers/notification.py:43-44 | a message over 2000 characters becomes its first 1997 characters and "...", exactly 2000; a shorter one is kept as it is |
| Discord.TruncateIdempotent | MinecraftModManager.py:587 | a capped description is never cut again |
| Discord.Colour | minecraft_mod_manager/managers/notification.py:51 | the embed is red exactly for errors and green otherwise |
| Discord.MakeEmbed | minecraft_mod_manager/managers/notification.py:43-55 | the embed keeps the title and colour, and its description is the message as Discord.Truncate caps it |
| NotificationManager.PostError | minecraft_mod_manager/managers/notification.py:65-73 | nothing is logged exactly when the webhook answered 200 or 204 |
| NotificationManager.SendDiscordNotification | minecraft_mod_manager/managers/notification.py:28-73 | no webhook sends nothing; otherwise one embed with the title, the message as Discord.Truncate caps it, and red exactly for errors; a failure is logged, never raised |
| NotificationManager.Examine | minecraft_mod_manager/managers/notification.py:83-98 | an entry aborts the loop exactly when "time" or "unit" is missing (a KeyError naming the key, "time" first) or the unit is not a string (the AttributeError of `.lower()`); it is announced exactly when the time is a positive int, float or True and the lower-cased unit is "minutes" or "seconds", with "§c[WARNING] Server maintenance in <time> <unit>!" and a pause of 60 for minutes and 5 for seconds; every other entry is skipped |
| NotificationManager.Announcements | minecraft_mod_manager/managers/notification.py:83-98 | one sleep per announcement |
| NotificationManager.AbortIsFinal | minecraft_mod_manager/managers/notification.py:102-103 | once an entry aborted, later entries change nothing |
| NotificationManager.WarnPlayers | minecraft_mod_manager/managers/notification.py:75-103 | the loop sends, sleeps and logs exactly what the run specification gives: nothing for no entries; otherwise the announcements and then the final warning unless an entry aborted |
| NotificationManager.AnnouncementsShape | minecraft_mod_manager/managers/notification.py:87-98 | every sleep is 60 or 5 seconds, and the loop aborts exactly when some entry aborts |
| NotificationManager.WarnPlayersShape | minecraft_mod_manager/managers/notification.py:83-103 | the run completes exactly when no entry aborts, and then ends with the one final warning; an aborted run logs "Failed to send player warnings: " and sends no final warning |
| NotificationManager.ValidEntriesAnnounced | minecraft_mod_manager/managers/notification.py:83-98 | when no entry aborts, the loop sends exactly the warnings of the valid entries in order, each followed by its pause, and skips the rest |
| BackupPolicy.Padded | MinecraftModManager.py:486 | a field is written in exactly `width` decimal digits |
| BackupPolicy.Field | minecraft_mod_manager/managers/backup.py:31-33 | a directive stands for digits only |
| BackupPolicy.BackupName | minecraft_mod_manager/managers/backup.py:36 | the archive name ends in ".tar.gz" |
| BackupPolicy.StampHasNoPercent | minecraft_mod_manager/managers/backup.py:31-33 | a name formatted from a well-formed format holds no '%' |
| BackupPolicy.DateFieldsStarred | minecraft_mod_manager/managers/backup.py:91-96 | the five replacements star every directive but the seconds |
| BackupPolicy.AsWrittenPatternShape | MinecraftModManager.py:544 | the pattern as written is "*", the format with every directive but %S starred, and ".tar.gz" |
| BackupPolicy.PatternShape | minecraft_mod_manager/managers/backup.py:88-97 | the corrected pattern stars every directive |
| BackupPolicy.UnstarredKeepsPercent | minecraft_mod_manager/managers/backup.py:91-94 | a directive left out of the table keeps its '%' in the pattern |
| BackupPolicy.AsWrittenPatternMissesBackups | minecraft_mod_manager/managers/backup.py:88-97 | for every format that uses %S, the default among them, the pattern as written matches none of the backups the manager creates |
| BackupPolicy.PatternFindsBackups | minecraft_mod_manager/managers/backup.py:88-105 | with %S replaced as well, the pattern matches every backup the manager creates |
| BackupPolicy.DefaultFormatUsesSeconds | minecraft_mod_manager/settings/config.py:46 | the default name format "%Y%m%d_%H%M%S" is well formed and uses %S |
| BackupPolicy.DeleteReason | minecraft_mod_manager/managers/backup.py:68-83 | a backup is deleted exactly when it is older than keep_days or at index >= max_backups; the reason is "count" exactly when the index is past the limit, even when it is also too old |
| BackupManager.CreateBackup | minecraft_mod_manager/managers/backup.py:27-51 | True exactly when the archive was written, then stored under "<strftime(format)>.tar.gz" with the success notice; a failed open leaves the directory as it was, a failed add leaves the partial archive stored under the backup's name; both send the error notice with the exception text |
| BackupManager.GetBackupPattern | minecraft_mod_manager/managers/backup.py:88-97 | the loop applies each replacement in turn and adds "*" and ".tar.gz"; with the table as written the pattern misses every backup of a format using %S, with the corrected table it finds every backup |
| BackupManager.AsWrittenTable | minecraft_mod_manager/managers/backup.py:91-94 | the table as written performs exactly the five date and time replacements |
| BackupManager.CorrectedTable | minecraft_mod_manager/managers/backup.py:91-94 | the corrected table performs those replacements and then the seconds |
| BackupManager.CleanupOldBackups | minecraft_mod_manager/managers/backup.py:53-86 | run with the corrected pattern (see Findings): the backups it finds are visited newest first and each one with a delete reason is removed; a permission error is logged and the loop goes on; any other failure ends the clean-up |
| BackupManager.PermissionErrorsDoNotStop | minecraft_mod_manager/managers/backup.py:107-113 | removing a regular file not removed before either succeeds or fails with the tolerated permission error |
| BackupManager.SweepCompletes | minecraft_mod_manager/managers/backup.py:68-83 | with distinct regular files to delete, the loop visits every one of them |
| Retention.Matching | minecraft_mod_manager/managers/backup.py:101-104 | the glob finds exactly the entries whose names match the pattern |
| Retention.Listing | minecraft_mod_manager/managers/backup.py:99-105 | the matches sorted by modification time, newest first, and nothing else |
| Retention.ListingKeepsTies | minecraft_mod_manager/managers/backup.py:101-105 | archives with equal modification times stay in the order the glob found them, as the stable `sorted` keeps them |
| Retention.DoomedMembers | MinecraftModManager.py:556-571 | a name is deleted exactly when an archive of that name has a delete reason |
| Retention.KeptAtMost | MinecraftModManager.py:566-568 | no archive at index max_backups or later survives |
| Retention.KeptCount | MinecraftModManager.py:553-571 | the deletion rule keeps at most max_backups of the matched archives, none when the limit is not positive; what a sweep actually leaves also depends on where it stops (Monolith.CleanupOldBackups) or which failures it tolerates |
| Retention.Sweep | MinecraftModManager.py:556-575 | the loop removes the doomed archives in order; a tolerated failure is skipped, any other ends the loop, and what was removed is exactly the doomed prefix before that point |
| PyServices.RetryWithBackoff | minecraft_mod_manager/services.py:100-126 | the attempt loop makes exactly the calls and sleeps of the retry specification and hands on its result or last error |
| PyServices.RetryShape | minecraft_mod_manager/services.py:111-126 | a run makes between one call and the attempts left; every call but the last failed in a retried way and was followed by `initial_delay * 2^attempt` seconds; it stops early only on a call that is not retried, and gives the last call's value or error |
| PyServices.AllAttemptsFail | minecraft_mod_manager/services.py:117-126 | when every call fails in a retried way, all attempts are made with one sleep fewer, and the last error is raised |
| PyServices.UncaughtEscapesAtOnce | minecraft_mod_manager/services.py:113-114 | an error outside `exception_types` escapes from the first call without any sleep |
| PyServices.Classify | minecraft_mod_manager/services.py:171-187 | a reply gives its body exactly when the status is 200 and the body parses; it raises a retried error exactly for 429 and statuses of 500 or more; a 404 is "API resource not found" |
| PyServices.RetriesOnlyTransient | minecraft_mod_manager/services.py:158-195 | only replies with 429 or a status of at least 500 are followed by another request, at most max_retries in all, and the request gives the classification of the last reply |
| PyServices.PermanentFailsAtOnce | minecraft_mod_manager/services.py:174-187 | a 404, another bad status, an unparsable body or a connection error ends the request after one call with no sleep |
| PyServices.CollectModSources | minecraft_mod_manager/services.py:197-204 | every Modrinth URL tagged "modrinth", then every CurseForge URL tagged "curseforge", in configured order |
| PyServices.Tagged | minecraft_mod_manager/services.py:199-203 | one source per URL, in order, each tagged with the platform |
| PyServices.ParseProjectId | minecraft_mod_manager/services.py:206-221 | a URL whose netloc holds only one of '[' and ']' is urlparse's ValueError "Invalid IPv6 URL"; otherwise the id is the non-empty, slash-free segment after the first "/mod/" (Modrinth) or "/mc-mods/" (CurseForge) of the path urlparse yields, and every other URL or platform is a ValueError |
| PyServices.ModrinthPageId | minecraft_mod_manager/services.py:212-214 | a Modrinth page URL ".../mod/<id>" with no tab, CR, LF or bracket yields its id |
| PyServices.CurseforgePageId | minecraft_mod_manager/services.py:215-217 | a CurseForge page URL ".../minecraft/mc-mods/<slug>" with no tab, CR, LF or bracket yields its slug |
| PyServices.PageId | minecraft_mod_manager/services.py:206-221 | a path made of a prefix without the marker, the marker and an id yields that id |
| PyServices.FetchModrinth | minecraft_mod_manager/services.py:283-309 | a look-up ends in exactly one way (an entry, one failure line, or an exception), and an entry is stored under the project id |
| PyServices.ModrinthTakesFirst | minecraft_mod_manager/services.py:295-309 | with no version listed the failure is "<title> (no compatible version)"; otherwise the first version listed is recorded, with its first file's URL |
| PyServices.CompatibleFiles | minecraft_mod_manager/services.py:340-349 | the compatible files are exactly the files listing the game version and a type-68 loader entry naming the configured loader, never more than the files |
| PyServices.FilterCompatible | minecraft_mod_manager/services.py:341-349 | the loop keeps exactly the compatible files, in the order listed |
| PyServices.NewestIn | minecraft_mod_manager/services.py:353 | the index of the first file with the latest date among the first n |
| PyServices.Newest | minecraft_mod_manager/services.py:353 | the file the stable descending sort puts first: one of the files, dated no earlier than any, and the first in list order with that date |
| PyServices.CurseforgeOutcome | minecraft_mod_manager/services.py:311-360 | a chosen file is always a compatible one |
| PyServices.FetchCurseforgeAsWritten | minecraft_mod_manager/services.py:311-363 | an entry is stored under the project slug |
| PyServices.FetchCurseforge | minecraft_mod_manager/services.py:311-362 | a look-up ends in exactly one way, and an entry is stored under the slug |
| PyServices.CurseforgeTakesNewest | minecraft_mod_manager/services.py:340-362 | an entry is recorded exactly when some listed file is compatible, and then it describes a compatible file no other compatible file post-dates |
| PyServices.CurseforgeListed | minecraft_mod_manager/services.py:340-362 | once the project and its files are in, the outcome is "no compatible version" for no compatible file and otherwise the newest compatible one |
| PyServices.NewestCompatible | minecraft_mod_manager/services.py:351-353 | the compatible list is non-empty exactly when a compatible file exists, and its newest is a latest-dated compatible file of the reply |
| PyServices.RetrieveModInfoSafely | minecraft_mod_manager/services.py:262-281 | nothing escapes; each source ends with exactly one entry or exactly one failure line, and an entry is stored under its parsed id |
| PyServices.CaughtOne | minecraft_mod_manager/services.py:279-281 | catching the error of a look-up that ends one way keeps its entry and leaves exactly one line or entry |
| PyServices.RetrieveModInfoSafelyAsWritten | minecraft_mod_manager/services.py:262-281 | nothing escapes, and an entry is stored under the parsed id |
| PyServices.NoCompatibleFileReportedTwice | minecraft_mod_manager/services.py:362-363 | as written, a CurseForge mod without a compatible file gets two failure lines, the second for the undefined `mod_source`; the corrected look-up gives one |
| PyServices.FailedModsWarning | minecraft_mod_manager/services.py:256-260 | the "Failed mods" warning is logged exactly when some look-up failed |
| PyServices.RetrieveLatestVersions | minecraft_mod_manager/services.py:223-260 | no source (or a negative chunk size) requests nothing; a chunk size of zero is the ValueError of `range`; otherwise the sources run in batches with a 2-second pause between them, the result is what the look-ups gathered and the warning lists the failures (with the corrected CurseForge look-up, see Findings) |
| PyServices.GatherKeys | minecraft_mod_manager/services.py:223-260 | `version_info` holds a key exactly when some source's look-up produced it |
| PyServices.GatherRecords | minecraft_mod_manager/services.py:223-260 | the record under each key is that of a look-up that produced the key |
| PyServices.SafeLookOneLine | minecraft_mod_manager/services.py:262-281 | the safe look-up records one line or one entry for every source (with the corrected CurseForge look-up, see Findings) |
| PyServices.GatherFailureCount | minecraft_mod_manager/services.py:242-260 | there is one failure line per source that recorded no entry, so never more lines than sources (with the corrected CurseForge look-up, see Findings) |
| PyServices.SliceFrom | minecraft_mod_manager/services.py:468 | Python's `xs[start:]`: a suffix of the list, of length len-start for a start in range, empty past the end, and the last -start elements for a negative start |
| PyServices.Names | minecraft_mod_manager/services.py:470 | the names of the files, in order |
| PyServices.MaintainBackupRetention | minecraft_mod_manager/services.py:461-477 | the archives past the limit in the newest-first listing are removed in order; the first failed removal ends the loop and is only logged |
| PyServices.UnlinkEach | minecraft_mod_manager/services.py:469-471 | each name is removed in turn until the first failure, which is reported, and the rest are left |
| PyServices.RetentionKeepsNewest | minecraft_mod_manager/services.py:464-469 | with a limit of n >= 0 the newest n archives stay, every kept archive is at least as recent as every deleted one, and a negative limit deletes the oldest -n |
| PySettings.FromDictReadsEverything | minecraft_mod_manager/settings/config.py:130-175 | every setting written to a configuration file is the one `from_dict` reads back |
| PySettings.SectionsOf | minecraft_mod_manager/settings/config.py:133-139 | each section of such a file is the table of its settings |
| PySettings.SmallSectionsOf | minecraft_mod_manager/settings/config.py:155-167 | the minecraft and backup settings are read back from their sections |
| PySettings.ReadPaths | minecraft_mod_manager/settings/config.py:143-146 | the four paths are read back from the paths section |
| PySettings.ReadServer | minecraft_mod_manager/settings/config.py:149-152 | the jar, Java flags, stop command and stop wait are read back |
| PySettings.ReadMods | minecraft_mod_manager/settings/config.py:159-163 | the chunk size, retries, base delay and both source lists are read back |
| PySettings.ReadNotifications | minecraft_mod_manager/settings/config.py:170-174 | the webhook, warning template and warning intervals are read back |
| PySettings.FromDictDefaults | minecraft_mod_manager/settings/config.py:130-175 | an empty file gives the documented defaults: "server.jar", "-Xms4G -Xmx4G", "stop", 300, "1.20.1", "fabric", 5, 3, 2, no sources, 3 backups, "%Y%m%d_%H%M%S", no webhook, the restart template and intervals 15, 10, 5 and 1 |
| PySettings.FromDictDefaultPaths | minecraft_mod_manager/settings/config.py:143-146 | an empty file gives the placeholder paths under /path/to/minecraft |
| PySettings.StartCommandWords | minecraft_mod_manager/settings/config.py:62-65 | split at spaces, the start command is "java", each flag, "-jar", the jar and "nogui"; with no flag an empty word stands where the flags would be |
| PySettings.StartCommandJoined | minecraft_mod_manager/settings/config.py:62-65 | the start command is its words joined by single spaces |
| PySettings.Host.constructor | minecraft_mod_manager/settings/config.py:186-192 | the host holds the given directories and regular files |
| PySettings.LineageMembers | minecraft_mod_manager/settings/config.py:192 | the paths `mkdir(parents=True)` works through for a path are the path itself and exactly its prefixes that end before a '/', outermost first |
| PySettings.MakeChainEffect | minecraft_mod_manager/settings/config.py:192 | one `mkdir(parents=True, exist_ok=True)` adds only missing paths of the lineage that are not regular files; without a failure the whole lineage is directories; a failure names a lineage path that is a regular file and not a directory |
| PySettings.MakeDirsEffect | minecraft_mod_manager/settings/config.py:190-192 | the calls in turn add only paths on the targets' lineages that are not regular files; without a failure every target and each of its ancestors is a directory afterwards; a failure names a target with a regular file, not a directory, on its lineage |
| PySettings.MakeDirsLast | minecraft_mod_manager/settings/config.py:190-192 | the last target's call adds only paths of its own lineage, makes all of them when it does not raise, and names the target when it does |
| PySettings.PlannedHolds | minecraft_mod_manager/settings/config.py:190-192 | every target, and every path on its lineage, is among the paths the run works through |
| PySettings.ValidationErrors | minecraft_mod_manager/settings/config.py:188-197 | no error exactly when the server directory existed and either the jar exists or the directory no longer does; at most two errors |
| PySettings.Config.constructor | minecraft_mod_manager/settings/config.py:53-59 | absent source lists become empty, absent warning intervals become 15, 10, 5 and 1, and every other setting is stored as given |
| PySettings.Config.Mods | minecraft_mod_manager/settings/config.py:98-110 | the legacy mods view shows the flat chunk size, retries, delay and source lists |
| PySettings.Config.Validate | minecraft_mod_manager/settings/config.py:177-208 | a missing server directory is reported and its own check does not make it; the mods and backups directories are made with their missing parents, which can make the server directory again; a jar missing from the server directory as it stands after that is reported; the result is True exactly when nothing was reported, and a regular file on a directory's path raises |
| PySettings.TargetsPrefix | minecraft_mod_manager/settings/config.py:181-192 | the directories made for a prefix of the checked list are a prefix of those made for the whole list |
| PySettings.CheckedTargets | minecraft_mod_manager/settings/config.py:181-192 | of the three checked directories, the server's is made only when it exists; the mods and backups ones always are |
| PySettings.MakeDirsStep | minecraft_mod_manager/settings/config.py:190-192 | one more target has its lineage worked through outermost first: directories are passed, missing paths are made, and a regular file raises, naming the target |
| PySettings.MakeDirsStops | minecraft_mod_manager/settings/config.py:190-192 | once a target raised, later targets are not reached |
| PySettings.ValidWhenServerAndJarExist | minecraft_mod_manager/settings/config.py:177-208 | a configuration whose server directory and jar exist, with no regular file on any directory's path, validates |
| PySettings.ParentInLineage | minecraft_mod_manager/settings/config.py:192 | a directory is on the lineage of every path directly inside it, so `mkdir(parents=True)` of that path makes it when missing |
| PySettings.ModsRemakeMissingServer | minecraft_mod_manager/settings/config.py:186-197 | with the mods directory inside a missing server directory (the default layout), validation reports the missing server directory, the mods `mkdir` makes it again, and the missing jar is reported as well |
| PySettings.MissingServerFails | minecraft_mod_manager/settings/config.py:188-189 | a missing server directory always fails validation, with the first error naming it |
| Jsonc.EndOfLine | minecraft_mod_manager/utils/jsonc.py:31 | where `$` matches in multi-line mode: the first line break at or after the position, or the end of the text, with no line break before it |
| Jsonc.LineStripStep | minecraft_mod_manager/utils/jsonc.py:31 | at the first "//", removal keeps the text before it and goes on from the line break that ends the comment |
| Jsonc.LineStripKeepsLineBreaks | minecraft_mod_manager/utils/jsonc.py:31 | removing line comments never joins two lines: the number of line breaks is kept |
| Jsonc.LineStripLeavesNoMarker | minecraft_mod_manager/utils/jsonc.py:31 | after line-comment removal no "//" is left anywhere |
| Jsonc.LineStripCutsUrls | minecraft_mod_manager/utils/jsonc.py:31 | a "//" inside a JSON string, as in a URL, is cut like a comment |
| Jsonc.BlockStripWithoutMarker | minecraft_mod_manager/utils/jsonc.py:33 | a text without "/*" is left as it is |
| Jsonc.BlockStripUnterminated | minecraft_mod_manager/utils/jsonc.py:33 | a "/*" that is never closed is kept, with everything after it |
| Jsonc.BlockStripClosed | minecraft_mod_manager/utils/jsonc.py:33 | the first "/*" up to the first "*/" after it is removed, non-greedily, and removal goes on after it |
| Jsonc.LoadJsonc | minecraft_mod_manager/utils/jsonc.py:26-45 | a missing file raises "Configuration file not found: <path>"; a read failure is a RuntimeError; otherwise the text is decoded after line comments and then block comments are removed, and a decode error keeps its position |
| Domain.CheckPath | internal/domain/domain.go:79-88 | the check keeps the name and is OK exactly for a directory, WARN exactly for a missing path and ERROR exactly for a path that is not a directory |
| Domain.APIErrorText | internal/domain/domain.go:126-131 | with a positive status the text is "API error [<status>]: <message> (url: <url>)", otherwise "API error: <message> (url: <url>)" |
| Domain.APIErrorStatusReadable | internal/domain/domain.go:127-128 | with a positive status the message holds "[code]" and the code reads back from it |
| Domain.RetryableCases | internal/domain/domain.go:134-136 | 200, 400 and 404 are not retryable; 429, 500, 502 and 503 are |
| Domain.ServiceErrorText | internal/domain/domain.go:103-108 | the message starts with the service, and with "service.op: " when there is an operation, and ends with ": " and the wrapped error |
| Domain.ServiceErrorUnwrap | internal/domain/domain.go:110-112 | the wrapped error is exactly the text after the context |
| CraftopsConfig.ModloaderCheck | internal/config/config.go:207-215 | accepted exactly when the lower-cased loader is fabric, forge, quilt or neoforge, and then stored lower-cased; otherwise "unsupported modloader: ..." |
| CraftopsConfig.LevelCheck | internal/config/config.go:218-223 | accepted exactly when the upper-cased level is DEBUG, INFO, WARNING, ERROR or CRITICAL, and then stored upper-cased; otherwise "invalid log level: ..." |
| CraftopsConfig.FormatCheck | internal/config/config.go:225-230 | accepted exactly when the lower-cased format is json or text, and then stored lower-cased; otherwise "invalid log format: ..." |
| CraftopsConfig.Config.Default | internal/config/config.go:88-148 | the default configuration: every section its default, debug and dry-run off |
| CraftopsConfig.Config.ValidateModloader | internal/config/config.go:207-215 | a known loader is stored lower-cased; an unknown one is an error and leaves every field unchanged |
| CraftopsConfig.Config.ValidateLogging | internal/config/config.go:217-231 | the level is checked and stored upper-cased, then the format is checked and stored lower-cased; a format error keeps the rewritten level; nothing else changes |
| CraftopsConfig.Config.Validate | internal/config/config.go:184-189 | the modloader is validated, then logging, and the first error is returned; the result is that of the validation function |
| CraftopsConfig.ValidateAccepts | internal/config/config.go:184-231 | validation succeeds exactly when the loader, level and format are all known, in any case |
| CraftopsConfig.ModloaderCheckedFirst | internal/config/config.go:185-187 | a modloader error returns before any logging field is touched |
| CraftopsConfig.ValidateIdempotent | internal/config/config.go:207-231 | validating a validated configuration succeeds again and changes nothing |
| CraftopsConfig.DefaultValidates | internal/config/config.go:88-148 | the defaults pass validation unchanged |
| Mods.BeforeSlash | internal/service/mods.go:268-270 | the text up to the first '/', holding none, all of it when there is none |
| Mods.ParseProjectID | internal/service/mods.go:260-276 | an input without '/' is returned as it is; otherwise a result is a non-empty segment without '/'; a URL without "/mod/" or with an empty slug is "invalid Modrinth URL: ..." |
| Mods.ParsesModUrl | internal/service/mods.go:266-275 | the slug after the last "/mod/", up to the next '/', is the project id |
| Mods.LastIndexFinds | internal/service/mods.go:266 | `strings.LastIndex` finds the last occurrence |
| Mods.BeforeSlashOf | internal/service/mods.go:268-270 | a slash-free slug followed by a path keeps only the slug |
| Mods.RetryShape | internal/service/mods.go:124-145 | once the attempts are used up nothing happens; otherwise between one and MaxRetries+1 calls, one wait fewer than calls, every call but the last failed with a retried error, and the result is the last call's |
| Mods.RetryStopsEarly | internal/service/mods.go:130-135 | the loop ends before the last attempt only on success or on an error that is not retryable |
| Mods.AlwaysRetried | internal/service/mods.go:129-145 | an operation that always fails with a retried error is called MaxRetries+1 times, with MaxRetries waits, and its last error is returned |
| Mods.NegativeRetriesNeverCall | internal/service/mods.go:129 | with a negative retry count the operation is never called and the result is success |
| Mods.WithRetry | internal/service/mods.go:124-145 | the attempt loop makes exactly the calls and waits of the retry specification and returns the last error |
| Mods.AttemptError | internal/service/mods.go:149-168 | an attempt succeeds exactly on status 200 with a decodable body; any other status is an `APIError` with the URL, that status and "request failed" |
| Mods.ApiRequest | internal/service/mods.go:148-169 | a decoded value is the body of some attempt answered with 200; with no attempt the target keeps its zero value |
| Mods.NotRetryableStatusFailsAtOnce | internal/service/mods.go:133-135 | a status that is not retryable, such as 404, fails after one attempt with the `APIError` naming it |
| Mods.LatestVersion | internal/service/mods.go:298-313 | no version is "no compatible versions found"; a first version without files is "no files in version"; otherwise the first file of the first version, under the project id |
| Mods.DownloadMod | internal/service/mods.go:171-242 | dry-run reports written and writes nothing; a mkdir error is returned; without force an existing target is kept with no error; "written" never comes with an error |
| Mods.ExistingTargetMakesNoRequest | internal/service/mods.go:180-186 | without force an existing target is kept whatever the transfer would report, so no request is made |
| Mods.UpdateMod | internal/service/mods.go:244-258 | a URL that does not parse fails with no name; otherwise the name is the project id; an update never comes with an error |
| Mods.Land | internal/service/mods.go:66-79 | the key is the project name, or the source when the name is empty; the source fails exactly on an error and is updated exactly when written without error |
| Mods.CollectSorts | internal/service/mods.go:60-86 | every source lands in exactly one of failed, updated or skipped: the three account for all sources, the failure keys are those of the failed sources, and every listed name is the key of a source that landed there |
| Mods.CollectStep | internal/service/mods.go:60-82 | one more source is placed where it landed |
| Mods.UpdateAll | internal/service/mods.go:43-86 | with no sources the result is empty; otherwise each source is updated and placed by its outcome |
| Mods.UpdateOne | internal/service/mods.go:65-80 | one source's outcome goes to the failures, the updated list or the skipped list under its key |
| ModService.Received | internal/services/mod_service.go:366-379 | a reply gives its body exactly on status 200 with a decodable body; any other status is "API request failed with status N" |
| ModService.LatestVersion | internal/services/mod_service.go:385-404 | no version is "no compatible versions found"; a first version without files is "no files found in version"; otherwise the first file of the first version, under the project id |
| ModService.ParseModrinthProjectID | internal/services/mod_service.go:307-321 | a result is the non-empty first `/mod/([^/]+)` group of the percent-decoded path, free of '/'; a URL that url.Parse rejects gives its parse error; a path without the group is "invalid Modrinth URL format: ..." |
| ModService.ParsesModPage | internal/services/mod_service.go:307-321 | a page URL "scheme://host/mod/<id>[/...]" with a plain host and no escape, query, fragment or control byte names project id |
| ModService.ModPagePath | internal/services/mod_service.go:308-312 | the path of such a URL is "/mod/<id>" and what follows |
| ModService.EscapedSlashEndsId | internal/services/mod_service.go:308-318 | the path is decoded before the search, so an escaped '/' ends the id: ".../mod/a%2Fb" names project "a" |
| ModService.UpdateModrinthMod | internal/services/mod_service.go:271-294 | a URL that does not parse fails with "failed to parse Modrinth project ID: ..."; success means the id parsed, the latest version was found and its file downloaded |
| ModService.UpdateSingleMod | internal/services/mod_service.go:257-268 | only Modrinth sources can succeed; curseforge and github are "not yet implemented"; any other type is "unsupported mod source type: ..." |
| ModService.BadUrlMakesNoRequest | internal/services/mod_service.go:272-275 | an unparsable URL fails the same way whatever the network would answer |
| ModService.Aggregate | internal/services/mod_service.go:190-207 | nothing is ever skipped |
| ModService.AggregateSorts | internal/services/mod_service.go:190-207 | every source ends either under its URL in the failures with its error or in the updated list, which is the successful sources in order |
| ModService.SucceededHaveNoError | internal/services/mod_service.go:197-205 | a source in the updated list was configured and did not fail |
| ModService.UpdateAllMods | internal/services/mod_service.go:148-218 | a dry run reports ["example-mod (dry-run)"] and requests nothing; otherwise the result is the aggregate of every Modrinth source's update |
| ModService.Ext | internal/services/mod_service.go:239 | `filepath.Ext`: a suffix of the path that is empty or a '.' followed by no '.' or '/' |
| ModService.Base | internal/services/mod_service.go:238 | `filepath.Base` holds no '/' unless it is "/" |
| ModService.ModName | internal/services/mod_service.go:238-239 | the name followed by the extension is the file name |
| ModService.JarName | internal/services/mod_service.go:238-239 | a jar's name is its file name without ".jar" |
| ModService.InstalledShape | internal/services/mod_service.go:230-251 | every listed mod comes from a found file that could be stat-ed, and its name and extension make up its file name; never more mods than files |
| ModService.ListInstalledMods | internal/services/mod_service.go:221-254 | a failed glob is "failed to list mod files: ..."; otherwise the files that can be stat-ed, in order, each described |
| ModService.ModHealth | internal/services/mod_service.go:66-146 | three checks in order, each with an emoji status: the directory passes exactly when it is a directory, the sources pass exactly when there is one and warn otherwise, the API passes exactly on 200 and warns on another status |
| Backup.Stamp | internal/service/backup.go:25 | the layout "20060102_150405" writes a 15-character stamp |
| Backup.ArchiveName | internal/service/backup.go:128-129 | the archive name is "minecraft_backup_", the 15-character stamp and ".tar.gz" |
| Backup.StampIsStrftime | internal/service/backup.go:25 | the Go layout writes the same stamp as the Python default format "%Y%m%d_%H%M%S" |
| Backup.TimeOfDayIsStrftime | internal/service/backup.go:25 | the time part of the layout is "%H%M%S" |
| Backup.DateIsStrftime | internal/service/backup.go:25 | the date part of the layout is "%Y%m%d" |
| Backup.PaddedValue | internal/service/backup.go:25 | a zero-padded field reads back as the number it was written from |
| Backup.ArchiveNameInjective | internal/service/backup.go:127-129 | backups made at different valid times get different names |
| Backup.GzipLevel | internal/service/backup.go:139-143 | a level inside NoCompression..BestCompression is kept, any other becomes DefaultCompression, and the result is always accepted by the gzip writer |
| Backup.Retention | internal/service/backup.go:285-294 | "Backup retention" is OK exactly when max_backups is at least 1, with "Keeping N backups"; otherwise a WARN "Invalid max_backups" |
| Backup.RetentionStatesLimit | internal/service/backup.go:290-293 | the retention message reads back as the configured limit |
| Backup.Health | internal/service/backup.go:108-116 | disabled backups give the single WARN "Backup system"; otherwise the directory check and the retention check; all pass exactly when enabled, the directory exists and the limit is at least 1 |
| Backup.MatchPath | internal/service/backup.go:249-253 | a directory's path gets one trailing '/', a file's is kept |
| Backup.ShouldExclude | internal/service/backup.go:245-264 | the logs rule first, then each pattern against the directory form and the plain path; excluded exactly when one of them matches |
| Backup.LogsRuleIsExact | internal/service/backup.go:246 | "logs" and paths under "logs/" count as logs; "blogs", "logs2" and "world/logs" do not |
| Backup.NoPatternsOnlyLogs | internal/service/backup.go:245-264 | with no patterns only the logs rule excludes anything |
| Backup.Collected | internal/service/backup.go:82-97 | the archives collected are exactly the regular ".tar.gz" entries whose info can be read |
| Backup.List | internal/service/backup.go:73-105 | a missing directory lists nothing; an unreadable one is "failed to list backups: ..."; otherwise the collected archives, a permutation of them sorted newest first |
| Backup.Cleanup | internal/service/backup.go:266-283 | a failed listing removes nothing; with at most max_backups archives nothing is removed; otherwise every archive from index max_backups of the newest-first list is removed in turn, a failure being skipped; a negative limit panics on the slice |
| Backup.PruneKeepsNewest | internal/service/backup.go:274-276 | none of the archives kept is older than one removed |
| Backup.CreateArchive | internal/service/backup.go:127-188 | the archive is written at the clamped level; success leaves it stored under its name; any failure after creation removes the file again and returns the error |
| Backup.WriteArchive | internal/service/backup.go:145-188 | after the writers are set up: success returns the path and stores the archive; a failure removes the partial file |
| Backup.Create | internal/service/backup.go:44-70 | disabled is ErrBackupsDisabled before any other check; dry-run gives "dry-run-backup.tar.gz" and writes nothing; a missing server directory or a failed mkdir is an error and writes nothing; otherwise the archive is written, pruned only on success, and the directory ends as the archive step left it (AfterArchive) minus exactly the names the prune attempted and could remove; an archive newer than every other file survives a prune that keeps at least one |
| Backup.StoredUnique | internal/service/backup.go:133 | storing a file keeps the directory's names unique |
| Backup.CollectedAfterStore | internal/service/backup.go:73-97 | listing after a store gives the older archives and then the new one |
| Backup.NewArchiveNotPruned | internal/service/backup.go:68-69 | the archive just written, newer than every other, is never among those a prune with a positive limit removes |
| BackupService.Globbed | internal/services/backup_service.go:226 | the glob "*.tar.gz" finds exactly the entries, files or directories, whose name ends in ".tar.gz" |
| BackupService.Described | internal/services/backup_service.go:243-259 | each described backup comes from a globbed file whose `os.Stat` succeeds |
| BackupService.DescribedAppend | internal/services/backup_service.go:243-259 | describing two lists one after the other describes their concatenation |
| BackupService.DescribedPermutes | internal/services/backup_service.go:231-259 | describing two orderings of the same files gives the same descriptions |
| BackupService.DescribedDescending | internal/services/backup_service.go:231-259 | dropping vanished files keeps the newest-first order |
| BackupService.ListBackups | internal/services/backup_service.go:223-262 | a failed glob is "failed to list backup files: ..."; otherwise a never-nil list, sorted newest first, of exactly the described globbed archives |
| BackupService.AgeIsOldestFirst | internal/services/backup_service.go:300-307 | sorting by age newest-last is sorting by time oldest first |
| BackupService.CleanupOldBackups | internal/services/backup_service.go:291-321 | a failed glob removes nothing; with at most max_backups archives nothing is removed; otherwise the first len-max_backups of the oldest-first list are removed in turn, failures skipped; a negative limit panics on the slice |
| BackupService.PruneTakesOldest | internal/services/backup_service.go:308-309 | none of the archives removed is newer than one kept |
| BackupService.TrimSuffix | internal/services/backup_service.go:282 | `strings.TrimSuffix`: the suffix is removed exactly when present |
| BackupService.ShouldExclude | internal/services/backup_service.go:269-288 | the substring logs test, then each pattern against the base name and, trimmed of a trailing '/', as a substring of the path |
| BackupService.EmptyPatternExcludesAll | internal/services/backup_service.go:282-284 | a pattern "" or "/" is a substring of every path, so it excludes everything |
| BackupService.LogsRuleIsSubstring | internal/services/backup_service.go:271-273 | the older logs rule drops "blogs/post.txt" and "world/catalogs.dat", which the newer rule keeps |
| BackupService.Written | internal/services/backup_service.go:124-219 | once the guards pass, the backup succeeds exactly when the file is created, the level accepted, the walk completed and the archive non-empty, and then it is the path of the timestamped name |
| BackupService.CreateBackup | internal/services/backup_service.go:102-219 | disabled gives ("", nil); dry-run gives "dry-run-backup.tar.gz"; only a does-not-exist stat of the server directory and a failed mkdir are errors; a failed create changes nothing; a rejected gzip level leaves the empty file; a walk failure or an empty archive removes the file again (it stays, empty, when its removal is refused); success stores the archive and then removes exactly what the prune attempted and could remove |
| BackupService.WriteFile | internal/services/backup_service.go:129-200 | succeeds exactly when the walk completes with a non-empty file, which is then stored; a walk error or an empty file gives its error and removes the file again, which stays behind empty only when the removal is refused |
| BackupService.RejectedLevelLeavesEmptyArchive | internal/services/backup_service.go:138-141 | a rejected compression level leaves an empty archive that later listings and prunes pick up as a backup |
| BackupService.Health | internal/services/backup_service.go:44-98 | three checks in order, directory, configuration and storage; the directory passes exactly when it is a directory, with its archive count; the configuration passes exactly when backups are on; the storage passes exactly when the directory can be made |
| BackupService.OlderHealthIgnoresRetention | internal/services/backup_service.go:44-98 | the older checks all pass with a limit of zero, which the newer service reports as a warning |
| Notification.RefusedError | internal/service/notification.go:158-163 | a refused post is an `APIError` with the webhook, the status and "Discord API error" |
| Notification.FailureText | internal/service/notification.go:152-163 | a transport error is its own text; a refusal reads "API error ... (url: <webhook>)" |
| Notification.PostError | internal/service/notification.go:152-166 | a post made has no error exactly when it was answered 200 or 204; otherwise the transport error or the refusal with its status |
| Notification.SendDiscord | internal/service/notification.go:114-167 | nothing is posted exactly when the webhook is empty or in dry-run, and then there is no error; otherwise one embed with the title, the message capped at 2000 and the colour, and the post's error |
| Notification.SendSuccess | internal/service/notification.go:45-50 | nothing is sent when success notifications are off; a post is a green "Success" |
| Notification.SendError | internal/service/notification.go:53-58 | nothing is sent when error notifications are off; a post is a red "Error" |
| Notification.WarningEmbed | internal/service/notification.go:72-74 | the warning embed is the orange "Server Restart Warning" with a capped description |
| Notification.WarningPost | internal/service/notification.go:72-76 | each warning posts that embed unless muted, and its error is the post's |
| Notification.PostWarning | internal/service/notification.go:73-76 | the embed is made exactly when not muted, and the error is that of the post |
| Notification.SortedIntervals | internal/service/notification.go:62-68 | a fresh copy of the configured intervals, sorted largest first; the configured slice is not reordered |
| Notification.RunCountdown | internal/service/notification.go:72-91 | the loop posts each warning and waits for the gap to the next exactly as the countdown specification says |
| Notification.SendRestartWarnings | internal/service/notification.go:61-91 | no intervals do nothing; otherwise the copy is sorted and the countdown runs over it |
| Notification.Gaps | internal/service/notification.go:79-81 | one gap fewer than intervals |
| Notification.GapsOfDescending | internal/service/notification.go:67-81 | on intervals sorted largest first no gap is negative, and the gaps add up to the largest minus the smallest |
| Notification.Countdown | internal/service/notification.go:72-91 | when every post is delivered the countdown runs to the end, waits for each gap and announces every interval in order (none when muted) |
| Notification.RestartWarningsTotalWait | internal/service/notification.go:61-91 | with every post delivered: no error, one wait fewer than intervals, no wait negative, the waits add up to the largest minus the smallest interval, and every interval is announced once, largest first, unless muted |
| Notification.SortedLength | internal/service/notification.go:67 | sorting keeps the number of intervals |
| Notification.SortedBounds | internal/service/notification.go:67 | the first and last sorted intervals bound every configured one |
| Notification.FailedPostStops | internal/service/notification.go:74-76 | a failed post ends the countdown with its error: the intervals up to it were announced, and nothing after it is posted or waited for |
| Notification.CheckWebhook | internal/service/notification.go:169-178 | "Discord webhook" is WARN exactly when empty, ERROR exactly when set without the "https://discord.com/api/webhooks/" prefix, and OK exactly with it |
| Notification.CheckSettings | internal/service/notification.go:180-185 | "Notification settings" is WARN exactly when both success and error notifications are off, never ERROR |
| Notification.HealthCheck | internal/service/notification.go:94-99 | two checks: the webhook check, then the settings check |
| NotificationService.FailureText | internal/services/notification_service.go:144-158 | each failure carries the context its `fmt.Errorf` adds: "failed to create Discord request: ", "failed to send Discord notification: " or "discord API returned status " |
| NotificationService.PostError | internal/services/notification_service.go:143-160 | a post made has no error exactly when answered 200 or 204; otherwise the bad status, the send error or the request error |
| NotificationService.SendDiscordNotification | internal/services/notification_service.go:112-162 | nothing is posted exactly when the webhook is empty or in dry-run, with no error; otherwise one embed with the message capped at 2000, and the post's error |
| NotificationService.SendSuccessNotification | internal/services/notification_service.go:56-61 | nothing when success notifications are off; otherwise the green "Success" post |
| NotificationService.SendErrorNotification | internal/services/notification_service.go:64-69 | nothing when error notifications are off; otherwise the red "Error" post |
| NotificationService.SendAgreesWithNewer | internal/services/notification_service.go:112-162 | both generations post the same embed for the same message and fail on the same answers |
| NotificationService.Clamp | internal/services/notification_service.go:93-96 | the wait is the difference when it is not negative and 0 otherwise |
| NotificationService.PostWarning | internal/services/notification_service.go:83-88 | the embed is made exactly when not muted, and the error is that of the post |
| NotificationService.RunCountdown | internal/services/notification_service.go:82-106 | the loop posts each warning and waits the clamped gap to the next exactly as the countdown specification says |
| NotificationService.SendRestartWarnings | internal/services/notification_service.go:72-109 | no intervals do nothing; otherwise a sorted copy, largest first, and the countdown over it |
| NotificationService.ClampNeverFires | internal/services/notification_service.go:93-96 | on intervals sorted largest first the clamp never fires, so this countdown announces, waits and stops exactly as the newer one does |
| NotificationService.RestartWarningsAgree | internal/services/notification_service.go:72-109 | both generations run the same countdown over the configured intervals |
| NotificationService.CheckDiscordWebhook | internal/services/notification_service.go:177-199 | "WARN" exactly when empty, "ERROR" exactly when set without the webhook prefix, "OK" exactly with it |
| NotificationService.CheckNotificationSettings | internal/services/notification_service.go:201-214 | "WARN" exactly when both flags are off, "OK" otherwise |
| NotificationService.HealthCheck | internal/services/notification_service.go:166-175 | the webhook check, then the settings check, each with the newer layer's classification |
| Health.PathChecks | internal/cli/commands_health.go:37-44 | four checks, for the server, mods, backups and logs directories in that order; each passes exactly when its path is a directory and fails exactly when it is a regular file |
| Health.Count | internal/cli/commands_health.go:48-58 | a status is counted at most once per check |
| Health.CountsPartition | internal/cli/commands_health.go:49-58 | passed, warned and failed add up to the number of checks: every check lands in exactly one bucket |
| Health.CountPositive | internal/cli/commands_health.go:49-58 | a status's count is positive exactly when some check carries it |
| Health.CountNone | internal/cli/commands_health.go:49-58 | a status no check carries counts zero |
| Health.Summarize | internal/cli/commands_health.go:47-72 | the command fails exactly when some check is an error, with "<n> health checks failed"; the summary line is built from the three counts, and reads "All <n> checks passed!" when every check passed |
| Health.AllPassedLine | internal/cli/commands_health.go:66-70 | when every check passed the line reports all of them as passed |
| Health.Tally | internal/cli/health.go:65-78 | a status string is tallied at most once per check |
| Health.TallyPartition | internal/cli/health.go:69-78 | the three tallies never exceed the number of checks, and equal it exactly when every status is "OK", "WARN" or "ERROR" |
| Health.TallyAppend | internal/cli/health.go:39-59 | the tally of appended check lists is the sum of their tallies |
| Health.TallyNone | internal/cli/health.go:69-78 | a status no check carries tallies zero |
| Health.EmojiNotCounted | internal/cli/health.go:70-77 | the emoji statuses of the older mod and backup services are none of the three counted strings |
| Health.OlderSummarize | internal/cli/health.go:65-105 | the loop yields the three tallies; the command fails exactly when some status is "ERROR", with "health check failed: <n> checks failed" |
| Health.ModAndBackupChecksUncounted | internal/cli/health.go:41-78 | adding the mod and backup checks changes no tally, so they can never fail the older command |
| Health.OlderCheckPath | internal/cli/health.go:125-157 | "OK" exactly for a writable directory, "WARN" exactly for a missing path, "ERROR" exactly for a non-directory or a directory that cannot be written |
| Health.CheckNames | internal/cli/health.go:124-157 | the names, one per check, in order |
| Health.FourNames | internal/cli/health.go:117-122 | any iteration order of the four-entry map has four names |
| Health.OlderPathChecks | internal/cli/health.go:114-160 | four checks, one per configured directory in whatever order the map is ranged, each the check of its own path |
| Health.ProbedNames | internal/cli/health.go:124-157 | the checks carry the names in the order ranged, each checking its own path |
| Batching.Schedule | minecraft_mod_manager/services.py:241-252 | a zero chunk size is the error `range` raises, a negative one schedules nothing, a positive one schedules the slices with a pause between consecutive ones |
| Batching.ChunksCover | minecraft_mod_manager/services.py:241-242 | the slices `xs[i:i+size]` over `range(0, len(xs), size)` concatenate to the input, in order |
| Batching.ChunkSizes | minecraft_mod_manager/managers/mod.py:104-105 | every slice holds exactly `size` items except the last, which holds between 1 and `size` |
| Batching.StepsShape | MinecraftModManager.py:153-164 | the steps are the slices in order, with exactly one pause between two consecutive slices and none after the last |
| Batching.ScheduleCovers | minecraft_mod_manager/services.py:241-252 | every item is handled exactly once, in order, across the batches |
| Batching.HandleSlice | minecraft_mod_manager/services.py:243-247 | handling one slice item by item continues the fold over the input up to the slice's end |
| Batching.RunBatches | minecraft_mod_manager/services.py:240-252 | zero step fails with the `range` error; negative handles nothing; positive handles every item in order, and the steps taken are the schedule |
| FileSystem.Without | minecraft_mod_manager/managers/backup.py:110 | after an unlink of `name` exactly the entries of other names are left |
| FileSystem.RemovalsEffect | minecraft_mod_manager/services.py:468-470 | a run of unlinks leaves only entries that were there: all untried, locked or directory entries, and none of the unlocked files tried |
| FileSystem.Directory.Remove | minecraft_mod_manager/managers/backup.py:107-113 | an unlocked regular file is removed; a locked one is a permission error, a directory or a missing name another failure; any failure changes nothing |
| FileSystem.Directory.Store | internal/service/backup.go:134 | creating a file replaces any entry of that name with the new regular file |
| Ordering.InsertDescending | minecraft_mod_manager/managers/backup.py:105 | inserting into a newest-first list keeps it newest first and adds exactly the one element |
| Ordering.SortDescending | minecraft_mod_manager/managers/backup.py:105 | the result is newest first and a permutation of the input |
| Ordering.SortKeepsTies | minecraft_mod_manager/managers/backup.py:105 | the sort is stable: for every key, the elements with that key keep their input order |
| Ordering.InsertKeepsTies | minecraft_mod_manager/managers/backup.py:105 | an inserted element goes in front of the elements that share its key, and their order is kept |
| Ordering.SortInPlaceDescending | internal/services/notification_service.go:78 | the array ends up largest first and a permutation of what it held |
| Ordering.SinkToPlace | internal/services/notification_service.go:78 | one insertion step extends the sorted prefix by one element and permutes the array |
| Ordering.DescendingUnique | internal/service/notification.go:68 | two largest-first orders of the same integers are equal, so the in-place sort and the sorting function agree |
| Urls.PyUrlPath | minecraft_mod_manager/services.py:208 | the path `urlparse` yields holds no query, no fragment, no tab, CR or LF, and only characters of the URL; its only error is "Invalid IPv6 URL" |
| Urls.UnsafeCharIgnored | minecraft_mod_manager/services.py:208 | a tab, CR or LF anywhere in the URL changes neither the text that is split nor the path |
| Urls.PyWebUrlPath | minecraft_mod_manager/services.py:208 | for `scheme://host/path` without tab, CR or LF and with no query, fragment or parameters, the path is exactly `/path`, unless the host holds only one of '[' and ']', which is the "Invalid IPv6 URL" error |
| Urls.GoUrlPath | internal/services/mod_service.go:308-311 | a control byte before the fragment is the error `parse "<url>": net/url: invalid control character in URL`; a path returned comes from a URL with no control byte and is no longer than it |
| Urls.UnescapeChecksEscapes | internal/services/mod_service.go:308-311 | outside a host name, decoding succeeds exactly when every '%' is followed by two hexadecimal digits |
| Urls.UnescapeAbsent | internal/services/mod_service.go:308-311 | text without '%' decodes to itself, in a host name when every character is one a host may hold |
| Urls.EscapedSlashDecoded | internal/services/mod_service.go:308-311 | "%2F" in a path decodes to '/' |
| Urls.BadEscapeRejected | internal/services/mod_service.go:308-311 | a '%' not followed by two hexadecimal digits is an escape error |
| Urls.ParseHost | internal/services/mod_service.go:308-311 | a host without ':', '[' or '%' made of characters a host may hold parses as itself |
| Urls.PlainHostAuthority | internal/services/mod_service.go:308-311 | such a host is an authority that parses |
| Urls.GoWebUrl | internal/services/mod_service.go:308-311 | for `scheme://host/path` with such a host and no query, fragment or control byte, the result is the decoded path, or the path's escape error wrapped as `parse "<url>": ...` |
| Urls.GoWebUrlPath | internal/services/mod_service.go:308-311 | with no '%' in the path either, the parse succeeds with exactly `/path` |
| Urls.SearchGroup | minecraft_mod_manager/services.py:211 | no match exactly when the marker followed by a non-'/' character occurs nowhere; otherwise the non-empty segment after the leftmost match, free of '/' |
| Urls.SearchGroupFinds | internal/services/mod_service.go:314-319 | a marker and a segment followed only by '/'-led text yield that segment |

## Left out

- Process lifecycle: starting, stopping and polling the server process (`screen`, `pgrep`, the `ServerController` of services.py and the server services of both Go layers) is not part of this model. Whether the server runs, and what a process helper returned or raised, are inputs.
- Archive contents: the tar and gzip walk over the server directory is not modelled. How far the archive writer got is an input: whether the file could be created or opened, and the size written or the error that stopped it. What each outcome leaves in the directory is modelled. The exclusion rule that the walk applies is modelled on its own.
- Monolith.CreateBackup: what `cp -r` copies into temp_backup is not modelled. temp_backup is an empty directory entry, and the archive's size is an input.
- HTTP, JSON decoding, request headers and the exact JSON of Discord posts are not modelled. Replies are modelled as status codes, decoded records and content lengths. The embed's timestamp and footer are left out.
- Sleeps, tickers and timeouts are returned as lists of delays rather than performed. Cancellation of a Go context during a wait is not modelled.
- Concurrency: `asyncio.gather`, goroutines, semaphores and mutexes are replaced by a sequential fold over the sources in configured order. Each source's outcome does not depend on the others and results are merged by key, so the final maps are those of the fold. Under real concurrency, appends to a shared failure list and log lines may come in any order; the fold fixes one order.
- Mods.UpdateAll: the concurrency limit is not modelled. `config.Validate` never checks `ConcurrentDownloads` (internal/config/config.go:184-189). With a value of 0 or less, `sem.Acquire` can never succeed (internal/service/mods.go:57-61): each call blocks until the context ends, and the `continue` on its error then drops that source silently. The model updates every source.
- ModService.UpdateAllMods: the concurrency limit is not modelled. With `ConcurrentDownloads` 0, `make(chan struct{}, 0)` is unbuffered and every goroutine blocks forever on its send; a negative size makes `make` panic (internal/services/mod_service.go:186-195). The model updates every source.
- Floating point: `SizeFormatted` (internal/domain/domain.go:70-76), sizes in megabytes and float retry delays are not modelled. Delays are integers in the unit the code uses. Python's `st_mtime` is a float; the Retention members and the BackupManager, Monolith and PyServices members built on them take modification times as integers, so two times that differ by less than the integer unit tie and keep their listing order.
- Glob and pattern engines: `doublestar.Match` and `filepath.Match` are a `matches(pattern, path)` parameter. Python's `Path.glob` is modelled for `*` only, which is the only wildcard the backup patterns use.
- internal/util/retry.go is not part of this model: its loop is the `cenkalti/backoff` library's.
- Logging and progress bars (`tqdm`) are not modelled, except where a log text is also a returned message or a notice.
- services.py: `execute_mod_updates`, `_execute_single_mod_update`, `generate_backup`, `dispatch_discord_message` and `broadcast_player_warning` are not modelled. They are orchestration over process control, archiving and HTTP, which are outside this model.
- PyServices.Newest: CurseForge's `fileDate` is an ISO-8601 string in the API. It is modelled as an integer timestamp ordered as the strings are.
- Path handling: `filepath.Join` and `Path /` are modelled as joining with "/". Paths are not cleaned or normalised.
- PySettings.FromDictReadsEverything: TOML values of the wrong type, for example a string where a number is expected, are not modelled. Every present key is taken to have its documented type.
- PySettings.Config.Validate: `Path` normalisation is not modelled. The lineage `mkdir(parents=True)` works through is taken from the text of the path, split at each '/'; a trailing '/', a doubled '/' or a '.' component are not collapsed. The exception `mkdir` raises is modelled as the target it was raised for.
- PyServices.RetrieveLatestVersions: it runs over the corrected CurseForge look-up. As written (minecraft_mod_manager/services.py:362-363, caught at services.py:279-281), every CurseForge mod without a compatible file adds a second failure line, "<last segment> (name 'mod_source' is not defined)", to `processing_failures` and to the "Failed mods" warning, so PyServices.SafeLookOneLine and PyServices.GatherFailureCount describe the corrected program. PyServices.NoCompatibleFileReportedTwice states the doubled line.
- PySettings.Config.Mods: of the legacy property views in settings/config.py, only `mods` is modelled. The others (`paths`, `server`, `minecraft`, `backup` and `notifications`) repackage fields unchanged.
- Monolith.PlayerCount: an unreadable log file is not modelled. Its handler passes an unsupported `notify=` keyword to `_handle_operation_error` (MinecraftModManager.py:127), so that path would raise `TypeError` instead of returning 0.
- Text: case mapping is ASCII only. Python strings are sequences of code points and Go strings are sequences of bytes; both are `seq<char>`, one element per code point or per byte.
- CleanupOldBackups: Monolith.CleanupOldBackups and BackupManager.CleanupOldBackups run with the corrected glob pattern. With the pattern as written, the glob finds no backup made with the default format and nothing is deleted (BackupPolicy.AsWrittenPatternMissesBackups, under Findings).
- KeptCount: Retention.KeptCount bounds what the deletion rule keeps. A sweep can leave more: the monolith's stops at the first failed removal, and the package's skips permission errors. What each sweep leaves is stated by the two CleanupOldBackups members.
- BackupService.Health: the `os.MkdirAll` that `ensureBackupDir` performs (internal/services/backup_service.go:84, 264-265) is not modelled as a change to the directory. The storage check only reports whether it succeeded, which is an input.
- BackupService.CreateBackup: a stat error other than "does not exist" is modelled as ServerUnreadable, and the backup goes on, as in the source. What such an error would make the later walk do is part of the walk's outcome, which is an input.
- NotificationManager.Examine: an entry of `warning_intervals` that is not a table is not modelled. Python's `str.lower()` also maps non-ASCII letters; the model lower-cases ASCII only. A float time is modelled by its text and by whether it is positive.
- PyUrlPath: Urls.PyUrlPath follows current CPython `urlsplit`. Two checks are not modelled: the validation of a bracketed host as an IPv6 or IPvFuture address, and the NFKC check of a non-ASCII netloc. A URL that fails either raises ValueError there, while the model returns its path.
- GoUrlPath: Urls.GoUrlPath does not model IPv6 zone identifiers (`%25` inside brackets), the validation of a bracketed address that newer Go versions add, or `%q`'s escapes for non-ASCII bytes. The error texts are exact for ASCII URLs.
- `_check_version_compatibility`'s warning log in managers/mod.py is not modelled; only the compatibility decision is.

## Findings

| source | as written | input that shows it | evidently intended | confidence | as-written member | corrected member |
|---|---|---|---|---|---|---|
| minecraft_mod_manager/managers/backup.py:88-97 and MinecraftModManager.py:544 | the glob pattern replaces `%Y %m %d %H %M` with `*` but not `%S`, so the default format "%Y%m%d_%H%M%S" gives the pattern `****_**%S.tar.gz` | any backup made with the default format, e.g. "20240101_120000.tar.gz": the pattern needs a literal '%' that no generated name has, so retention never finds or deletes a backup | every strftime directive of the format replaced by `*`, so the pattern matches every generated name | high; not executed | BackupPolicy.AsWrittenPatternMissesBackups (with BackupManager.GetBackupPattern and BackupManager.AsWrittenTable) | BackupPolicy.PatternFindsBackups (with BackupManager.CorrectedTable and Monolith.CreatedBackupIsListed) |
| minecraft_mod_manager/services.py:362-363 | after recording "<project> (no compatible version)", the else branch logs `mod_source.url` and `processing_error`, neither of which is defined in `_fetch_curseforge_mod_info` | a CurseForge project with no file for the configured game version and loader: the `NameError` is caught by `_retrieve_mod_info_safely`, which appends a second failure for the same mod | one failure entry per mod with no compatible file | high; not executed | PyServices.NoCompatibleFileReportedTwice (with PyServices.FetchCurseforgeAsWritten and PyServices.RetrieveModInfoSafelyAsWritten) | PyServices.FetchCurseforge and PyServices.RetrieveModInfoSafely |
| MinecraftModManager.py:118-121 | the player count is `int(line.split()[2])` | a logged reply "[12:00:00] [Server thread/INFO]: There are 3 of a max of 20 players online": the third token is "thread/INFO]:", `int` fails, every such line is skipped and the count is 0 | the number after "There are" | medium; not executed | Monolith.LoggedLineUnread (with Monolith.AsWrittenSkips) | Monolith.CorrectedFinds (used by Monolith.PlayerCount) |
