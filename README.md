# server-backup-simple, modelled in Dafny

server-backup-simple is a small Go tool that backs up servers. Each job is a JSON file under `<AppDir>/config`. It:

- dumps a PostgreSQL database with `pg_dump`, locally or through `ssh`, into `<db_dest_folder>/<YYYY-MM-DD HH_MM_SS>.tar`;
- copies folder pairs with `rsync` (under `wsl` on Windows);
- then copies pairs with `rclone sync`;
- sweeps the dump folder of `.tar` files older than `days_before_delete` days.

The `scheduler` sub-command does some start-up work (a run for jobs that ask for one), registers one daily run per configured time, and then starts the scheduler. The `log` sub-command prints the last `n` lines of the log file.

This project models that decision logic, with every external effect turned into data:

- a command is an argument vector, extra environment variables and an output sink;
- a directory is a map from names to "is a directory";
- the filesystem is a map of readable files and listable directories;
- the clock is a parameter;
- JSON decoding is an abstract partial function;
- an exit status, a failed removal or a refused registration is a nondeterministic outcome;
- `log.Fatal` is an explicit `Fatal` or `Exit` outcome.

Modules, in dependency order:

- `Common`: `Option`, `Outcome`, subsequences.
- `Strings`: `HasSuffix`, `Join`, `Split`.
- `Files`: directory entries, the filesystem, `filepath.Join`.
- `Timestamps`: the `TIME_LAYOUT` name format and its parser.
- `Config`: `config.go`.
- `Retention`: `DeleteOld`.
- `Commands`: the command builders and the three step methods.
- `Orchestration`: the event orders `BackupAll` allows.
- `Scheduler`: the set-up loop of the `scheduler` sub-command.
- `Tail`: `ReadTail`.

Three behaviours of the code that a reader may not expect; the model follows the code in each:

- **`ReadTail` with a negative `n`.** The final slice `lines[len(lines)-n:]` then starts past the end, so it panics for every file, including an empty one. The model returns `SlicePanic` rather than excluding negative `n` by a precondition.
- **The retention rule.** A `.tar` file whose name does not parse is deleted (main.go:98). The model keeps that rule, and states the safer rule beside it (`ShouldRemoveSafe`).
- **The retention cutoff.** The sweep compares against the cutoff as main.go:97 computes it: `int64` nanoseconds that wrap beyond about 292 years (`ExpiredAsWritten`). The cutoff the program evidently intends, `days` whole days before `now`, is stated beside it (`Expired`, `ShouldRemoveIntended`). The two agree for retentions of at most 106751 days either way (see "## Findings").

## Model

| member | source | states |
|---|---|---|
| Timestamps.Format | main.go:55 | `now.Format(TIME_LAYOUT)`: nineteen characters, digits everywhere except "-", "-", " ", "_", "_" at their fixed places |
| Timestamps.Parse | main.go:95 | only well-formed readings are accepted: a four-digit year, month 1..12, day within its month (leap years included), hour < 24, minute and second < 60 |
| Timestamps.ParseFormat | main.go:55 | parsing the formatted reading gives back exactly that reading, to the second |
| Timestamps.FormatParse | main.go:95 | every text the parser accepts is the formatting of what it returns, so each reading has one spelling |
| Timestamps.ArtifactNameRoundTrip | main.go:55 | a dump name ends in ".tar", and stripping four characters and parsing the rest gives back the clock reading |
| Timestamps.SecondsOrdersReadings | main.go:95-98 | the seconds count used for the cutoff orders valid readings as `time.Before` does: one reading precedes another in calendar order (year, month, day, hour, minute, second) iff it names fewer seconds, and equal counts mean equal readings |
| Strings.SplitJoin | main.go:136 | splitting a `strings.Join` at its separator gives back the parts when none contains the separator: nothing is lost and nothing trails |
| Config.Registry.LoadConfig | config.go:41-44 | sets the package configuration to one with the given `AppDir`, replacing any earlier one, and returns it; `GetConfig` then returns it |
| Config.Registry.GetConfig | config.go:46-51 | fatal exactly when nothing was loaded, otherwise the loaded configuration |
| Config.ConfigPathShape | config.go:55-57 | the job file read is `AppDir/config/<name>.json`, or `config/<name>.json` for an empty `AppDir` |
| Config.ReadBackupConfig | config.go:53-67 | fatal when nothing was loaded; otherwise `Ok(c)` iff the path is readable and decodes to `c`; otherwise an error naming the path, a read error iff the file cannot be read |
| Config.JsonNames | config.go:77-80 | the names `ReadBackupConfigs` keeps: at most one per entry, each ending in ".json" |
| Config.JsonNamesInOrder | config.go:77-80 | the selected job files are ".json" names of the listing, in listing order |
| Config.JsonNamesComplete | config.go:77-80 | every ".json" name of the listing is selected, directory or not |
| Config.JsonNamesIgnoreKind | config.go:78 | the selection depends on the names only, not on the kind of entry |
| Config.ListedJobIsNamedJob | config.go:81-91 | the job taken from listed file `x.json` is the one `ReadBackupConfig("x")` returns |
| Config.ReadBackupConfigs | config.go:69-94 | returns a list exactly when the configuration is loaded, the folder can be listed and every selected file reads and decodes; the list then has one job per selected file, in order, each decoded from its file; otherwise fatal, never a partial list |
| Config.LoadJobs | config.go:77-91 | the loop over the listing: a list exactly when every selected file reads and decodes, then one job per selected file, in order, each decoded from its file; the first failure ends the process |
| Retention.Wrap64 | main.go:97 | the value Go's `int64` arithmetic leaves: within range, congruent to the exact value modulo 2^64, and unchanged when already in range |
| Retention.CutoffOffsetAsWritten | main.go:97 | the offset `-1 * time.Duration(24*days) * time.Hour` in nanoseconds, each product wrapped: always an `int64`, and exactly `-days` days for retentions of at most 106751 days either way |
| Retention.ExpiredAsWritten | main.go:97-98 | `t.Before(then)` with the cutoff as written; it is the intended strict-before-`now - days` test for retentions of at most 106751 days either way |
| Retention.CutoffAgreesWithoutOverflow | main.go:97 | for retentions of at most 106751 days either way, the cutoff as written is `now` minus that many days, and the expiry test as written equals the intended one |
| Retention.CutoffOverflowExpiresFreshDump | main.go:97 | with 106752 days the duration wraps to about +292 years, so the program removes a dump made at `now`, which the intended rule keeps |
| Retention.ShouldRemove | main.go:94-98 | the program's rule: only a non-directory "*.tar" entry is ever removed, and such an entry whose stem does not parse always is; a parsable one is removed iff it is before the cutoff as written |
| Retention.ShouldRemoveSafe | main.go:94-98 | the safer rule on the same cutoff: it only removes entries whose name parses |
| Retention.IntendedAgreesWithoutOverflow | main.go:97 | for retentions of at most 106751 days either way, the program's rule is the rule with the intended cutoff |
| Retention.IntendedRemovesIffOlder | main.go:95-98 | with the intended cutoff, for every retention, a dump is removed iff its reading is strictly before `now - days` days |
| Retention.CutoffOverflowKeepsFreshDump | main.go:97 | with -106752 days the duration wraps to about -292 years, so the program keeps a dump made at `now` that a negative retention would remove |
| Retention.Doomed | main.go:93-99 | the names the sweep tries to remove, in listing order: at most one per entry, each ending in ".tar" |
| Retention.DoomedMembers | main.go:93-98 | a name is to be removed iff some listed entry of that name is a non-directory "*.tar" whose stem fails to parse or is strictly before the cutoff as the program computes it |
| Retention.RulesDifferOnUnparsable | main.go:98 | the program's rule removes everything the safer rule removes, and more exactly for the "*.tar" files whose name does not parse |
| Retention.SafeRuleRemovesLess | main.go:98 | what the safer rule would remove is a subsequence of what the program removes |
| Retention.ForeignFilesExample | main.go:94-98 | "notanartifact.tar" is removed by the program and kept by the safer rule; "readme.txt" and a directory named like a dump are kept |
| Retention.ArtifactRemovedIffOlder | main.go:95-98 | for retentions of at most 106751 days either way, a dump is removed iff its reading is strictly before `now - days` days; the program's and the safer rule agree on dumps |
| Retention.FreshArtifactSurvives | main.go:95-98 | with a retention of 0 to 106751 days, a dump made no earlier than the sweep's clock reading is kept |
| Retention.NonPositiveRetention | main.go:97 | there is no special case: zero days removes every dump older than `now`, and a negative value down to -106751 removes every dump not from the future |
| Retention.BoundaryExample | main.go:98 | with 7 days from 2024-03-10 00:00:00, the dump of 2024-03-03 00:00:00 is kept and that of 2024-03-02 23:59:59 is removed |
| Retention.Directory.Remove | main.go:99-101 | on success the name was present and only it is gone; on failure nothing changes |
| Retention.Examine | main.go:94-102 | one entry's turn: a reported failure only for an entry the rule removes; the folder loses that entry's name exactly when the rule removes it and the removal succeeds, and is otherwise unchanged |
| Retention.DeleteOld | main.go:87-107 | with the cutoff as the program computes it (int64 wrap-around included), every listed entry is examined once; what leaves the folder is exactly the doomed names whose removal succeeded; the failures are a subsequence of the doomed names; directories and names not ending in ".tar" always stay; the kinds of the remaining entries are unchanged |
| Commands.DatabaseCommand | main.go:40-50 | `BackupDatabase`'s selection: unsupported iff a container name is set; otherwise a `pg_dump` command writing to `DBDestFolder/<now>.tar`, with the password in the environment iff there is no ssh host |
| Commands.ContainerIsFatal | main.go:40-41 | a container name gives the fatal "not implemented support for docker yet" and no command, whatever else is set |
| Commands.LocalDumpKeepsPasswordInEnv | main.go:44-47 | without ssh, argv is `pg_dump -d DB -U User -p Port -h Host -O -x -Ft` and does not depend on the password; the environment gains only `PGPASSWORD=<pw>` |
| Commands.SshDumpWrapsLocal | main.go:48-49 | with ssh, argv is `ssh <host> PGPASSWORD=<pw> pg_dump -d DB -U User -p Port -h Host -O -x -Ft`, the local argv behind the host and the password, and the environment gains nothing |
| Commands.DumpNameRoundTrip | main.go:54-56 | the dump is written to `DBDestFolder/<reading>.tar`, a name the sweep considers and parses back to that reading |
| Commands.FolderCommands | main.go:22-29 | one command per folder pair, each ending in the pair's `From To`, starting with `wsl` exactly on Windows, with no extra environment |
| Commands.FolderCommandsShape | main.go:22-29 | one command per folder pair, in order: `rsync -avvHPS --rsh='ssh' From To`, prefixed by `wsl` exactly on Windows, with no extra environment |
| Commands.RcloneCommands | main.go:111-112 | one command per rclone pair, each ending in the pair's `From To`, with no extra environment |
| Commands.RcloneCommandsShape | main.go:111-112 | one command per pair, in order: `rclone sync From To` |
| Commands.Shell.Run | main.go:32 | the command is started (appended to what was issued); its exit status is not known in advance |
| Commands.BackupFolders | main.go:21-36 | issues exactly the folder commands in configuration order, whatever fails; the failures are a subsequence of them |
| Commands.RcloneSync | main.go:109-120 | issues exactly the rclone commands in configuration order, whatever fails; the failures are a subsequence of them |
| Commands.BackupDatabase | main.go:38-66 | fatal with nothing issued iff a container name is set; otherwise issues exactly the selected dump command |
| Orchestration.IsBackupAllTrace | main.go:68-85 | the event orders `BackupAll` allows: with a dump, one event per command (1 + folders + rclone pairs); with a container name, at most the dump slot and the folder commands |
| Orchestration.RemoteAfterBarrier | main.go:69-84 | in every order `BackupAll` allows, each rclone command comes after the dump and after every folder command |
| Orchestration.EveryCommandOnce | main.go:68-85 | with a dump, the events are the dump, the folder commands and the rclone commands, each exactly once |
| Orchestration.StepsKeepConfigurationOrder | main.go:68-85 | with a dump, the folder commands and the rclone commands each occur in configuration order |
| Orchestration.FatalStopsRun | main.go:71-76 | with a container name, the run ends with the fatal exit; no rclone command runs; what ran before is a first part of the folder commands |
| Orchestration.SequentialSchedulesAllowed | main.go:69-83 | both sequential orders, dump then folders and folders then dump, followed by rclone, are allowed |
| Scheduler.Cron.Every | main.go:192-198 | on success the job is appended to gocron's list; on error the list is unchanged |
| Scheduler.RegisterTimes | main.go:191-199 | registers `backup_times` in order and stops at the first refusal; gocron gains exactly the jobs of the times registered |
| Scheduler.ScheduleOne | main.go:186-199 | one job's events are its block (start-up run if asked, then registrations), or a cut of it ending the process: right after a fatal start-up run with no registration, otherwise just before a refused registration; gocron gains exactly the jobs registered |
| Scheduler.SetUp | main.go:185-202 | either the trace is the plan ending in `Start`, no start-up run was fatal, and gocron holds every job; or the process ends while handling some job, after the plan's blocks before it and a cut of its own; gocron holds the jobs registered so far |
| Scheduler.CutIsPlanPrefix | main.go:185-202 | a cut-off set-up has done a proper first part of the plan, without `Start`; it stopped right after the start-up run when that run was fatal, and otherwise just before a planned registration |
| Scheduler.CutJobs | main.go:191-198 | after a cut-off set-up, gocron holds exactly the jobs its trace registered, a first part of the full job list |
| Scheduler.Plan | main.go:185-202 | the set-up trace when nothing fails: the configurations' blocks, then `Start` as the last event |
| Scheduler.RegisteredPlan | main.go:191-199 | the plan registers exactly `JobsOf`: one job per configured time of each job, in order |
| Scheduler.StartOnlyAtEnd | main.go:201-202 | `Start` is the last event of the plan and occurs nowhere before it |
| Scheduler.PlanEvents | main.go:186-195 | sweeps and runs occur at start-up exactly for the jobs with `backup_at_startup`; every registration is of a configured job at one of its times, and its action is that job's sweep, then its run |
| Scheduler.SweepThenRun | main.go:187-188 | in the plan, every sweep is immediately followed by the run of the same job, before `Start` |
| Tail.ReadTail | main.go:122-139 | an unopenable file gives the open error; a negative `n` panics; otherwise the text is the last `min(n, lines)` lines joined by "\n" |
| Tail.LastLines | main.go:135-138 | the selection has `min(n, lines)` lines and is the end of the file's lines |
| Tail.LastLinesNested | main.go:135-138 | fewer lines give the end of more lines, and taking the tail again changes nothing |
| Tail.TailTextSplitsBack | main.go:136-138 | the text splits back at "\n" into exactly the selected lines: no trailing separator |
| Tail.EmptyTail | main.go:135-138 | `n = 0` or an empty file gives the empty text |

## Left out

- **Running processes.** `exec.Command(...).Run`, the wiring of stdout and stderr, and the exit status are I/O. A command is data, and its success is a nondeterministic outcome.
- **`os.Create` failure** (main.go:56-61). When it fails, the error is logged and the dump still runs with a nil output file. Only the path and the command are modelled.
- **Goroutines and the `sync.WaitGroup`** (main.go:69-83). Only the orders of command starts they allow are modelled, as traces.
- **Log lines.** The log lines around the steps are output and are not modelled.
- **gocron.** Its timing is not modelled: when registered jobs fire, the blocking `<-gocron.Start()`, and its validation of the "hh:mm" text. Registration is modelled as an operation that may fail, and firing as the action `Fire`.
- **Loop-variable capture** (main.go:192). Each closure is modelled as bound to the configuration of its own iteration. That is Go 1.22 semantics. Before Go 1.22, every closure registered in the `for _, c := range` loop shares one `c`, so every daily run would use the last configuration. The Go version is not fixed by the repository files modelled here.
- **Time zones and the real clock.** The name is formatted from local time, and `time.Parse` yields UTC, so the real cutoff shifts by the UTC offset. The model uses one wall-clock frame, passes the clock in as `now`, and takes one `now` for the whole sweep, whereas the program reads the clock again for each entry.
- **Sub-second precision.** `now` and parsed readings are whole seconds. The program's `now` has nanoseconds, which only matters for a dump stamped in the same second as the cutoff.
- **`time.Parse` leniencies.** Go's parser also accepts a few non-canonical texts (a one-digit hour, fractional seconds after the seconds field). `Timestamps.Parse` accepts only the canonical nineteen-character shape. It does not claim that other texts are rejected by Go. Such a file would only be kept by Go where the model deletes it as unparsable.
- **`os.ReadDir` failure in `DeleteOld`** (main.go:89-91). The error is only logged, and the sweep goes on over the entries `os.ReadDir` read before the error: none when the folder cannot be opened, possibly some when reading fails part-way. `DeleteOld` takes the listing as a parameter, and `IsListingOf` does not require it to be complete, so both cases are covered.
- **`fmt.Println(t)`** (main.go:104). It is output only.
- **The command line.** Argument parsing, log-file wiring, the `backup`, `delete-old` and `log` dispatch, and printing (main.go:141-183, 203-213) are glue code.
- **JSON decoding and file reading** (config.go:58-65, 83-90). They are library calls. The decoder is an abstract partial function, and the filesystem a map.
- **`bufio.Scanner` line splitting** (main.go:130-133). The file is given as the lines the scanner yields. The scanner's limit on line length is not modelled.
- **`filepath.Join` cleaning.** `..` and duplicate separators are not modelled, and the separator is "/" (the Windows separator is not modelled).
- **`install.py`.** It is installation I/O only: it scans `~/.ssh` and writes a systemd unit.
- ArtifactRemovedIffOlder: stated for retentions of at most 106751 days either way, where the cutoff as written is the intended one; beyond that the duration wraps, and `CutoffOverflowExpiresFreshDump` and `CutoffOverflowKeepsFreshDump` show what the program then does.
- FreshArtifactSurvives: stated for retentions of 0 to 106751 days; from 106752 days on the program removes a dump made at `now` (`CutoffOverflowExpiresFreshDump`).
- NonPositiveRetention: stated for retentions down to -106751 days; at -106752 days the duration wraps and the program keeps recent dumps (`CutoffOverflowKeepsFreshDump`).
- **What a fatal `BackupAll` leaves behind.** `Orchestration.IsBackupAllTrace`, with a container name, lets the folder goroutine have started any first part of its commands before the process ends. Which part that is depends on the goroutine scheduler.

## Findings

| source | as written | input that shows it | evidently intended | confidence | as-written member | corrected member |
|---|---|---|---|---|---|---|
| main.go:97 | `-1 * time.Duration(24*c.DaysBeforeDelete) * time.Hour` multiplies in `int64` nanoseconds and wraps beyond about 292 years | `days_before_delete` = 106752: the offset wraps to +9223371273709551616 ns (about 292 years ahead), so the cutoff lies in the future and the sweep deletes every dump | keep dumps younger than `days_before_delete` days, for any configured value | not executed | Retention.CutoffOverflowExpiresFreshDump | Retention.IntendedRemovesIffOlder |
