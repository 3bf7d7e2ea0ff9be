# Video delivery watcher: a Dafny model

`handbrakevidz.py` watches a directory for newly delivered folders. For each one it
selects the video files whose names pass `is_valid_suffix`: an unanchored search for one
or two whitespace characters, two letters from `[xX]`, a dot and one of `mp4`, `mkv`,
`avi` or `wmv` at the end. Because the search is unanchored on the left, longer runs of
whitespace pass too. Because the letters come from the class `[xX]`, the mixed-case
markers `Xx` and `xX` also pass. It queues them and compresses them one
after another with HandBrakeCLI (NVEnc H.265). Four JSON files serve as a dashboard:
the queue, the current job, the completed jobs and the errors.

This project models the part of the program that turns a delivered folder into
encoder jobs. It proves properties of that model:

- `PathMatcher` (path_matcher.dfy): the filename gate `is_valid_suffix` and the
  output-name derivation of `compress_video`.
  - The gate is given twice: as the literal semantics of `re.search` of the pattern,
    and as an executable suffix check. The two are proved equal.
  - `re.sub` of the marker is modelled as Python's leftmost, greedy scan.
  - `PurePath.stem` is modelled with pathlib's rule: a final `.` counts only when it
    is neither the first nor the last character.
- `SuffixTable` (suffix_table.dfy): the copy of the gate in test_suffix_validation.py,
  which also accepts `mpg`, and the script's twenty expected results.
- `Resolution` (resolution.dfy): the downscale decision inlined in `compress_video`,
  and the tuple-returning `should_downscale` of test_resolution_logic.py, whose reasons
  use Python's `str(int)`.
- `EncoderCommand` (encoder_command.dfy): the POSIX argument list for HandBrakeCLI.
- `StateStore` (state_store.dfy): the four collections of `StateManager` as in-memory
  sequences and an optional record.
- `JobRunner` (job_runner.dfy): `compress_video` as a pure transition of the state.
  The outside world is given as facts:
  - which paths exist;
  - whether the input can be stat'ed and its size;
  - the probed height, or none;
  - how the encoder ended;
  - what it left at the output path.
- `Orchestrator` (orchestrator.dfy): the `on_created` filter, `find_video_files` over
  the steps of a directory walk, and `process_folder`.

The model follows the code where its descriptions promise more:

- The gate accepts three or more whitespace characters before the marker. It also
  accepts the mixed-case markers `Xx` and `xX`, because the search is not anchored on
  the left and the class is `[xX]{2}`.
- Three rows of test_suffix_validation.py expect a rejection that its own pattern does
  not give: line 37 (`"video   xx.mp4"`), line 40 (`"video Xx.mp4"`) and line 41
  (`"video xX.mp4"`). `SuffixTable.TableRowsThatFail` proves that the search finds a
  match in each of them.
- A file with a video extension but no marker is only logged. It gets no error
  record.
- The skip set of `process_folder` is never added to, so processing the same folder
  twice runs its jobs twice.
- A failing `stat()` of the input (line 246) lies outside the `try`. The exception
  escapes `compress_video` with the current-job slot still set, and the folder loop
  stops there.
- There is no operation that drains or clears all the state.

## Model

| member | source | states |
|---|---|---|
| `PathMatcher.IsValidSuffixIsRegexSearch` | handbrakevidz.py:166-174 | The suffix check `PathMatcher.IsValidSuffix` holds exactly when `re.search` of `[\s]{1,2}[xX]{2}\.(exts)$` finds a match at some start, width and alternative, including a match that ends before a final newline. |
| `PathMatcher.EndsWithAnyMarkerIff` | handbrakevidz.py:173 | The name ends with the marker followed by one of the alternatives exactly when it ends with the marker followed by some listed extension. |
| `PathMatcher.MarkerGivesMatch` | handbrakevidz.py:173 | A marker that ends the name, or ends it before a final newline, is a match of the pattern that ends at `$`. |
| `PathMatcher.MatchGivesMarker` | handbrakevidz.py:173 | Any match of the pattern ending at `$` means the name, or the name without its final newline, ends with whitespace, two of `[xX]`, a dot and an extension. |
| `PathMatcher.AcceptsAnyMarkerAfterAnyPrefix` | handbrakevidz.py:166-174 | Whatever precedes the last whitespace character, the name passes. So runs of three or more spaces and the mixed-case markers `Xx` and `xX` are accepted. |
| `PathMatcher.GateIgnoresDirectories` | handbrakevidz.py:166-174 | The gate gives the same answer to a name and to that name with any text and a '/' in front. It looks only at the end of a name, and no character of a marker or extension is a '/'. |
| `PathMatcher.SamePathSameVerdict` | handbrakevidz.py:166-174 | Two files whose stored paths are the same text get the same answer from the gate, however that text splits into directory and name. |
| `PathMatcher.MarkedFilePasses` | handbrakevidz.py:173 | Any stem followed by one or two whitespace characters, two of `[xX]`, a dot and a listed extension passes the gate. |
| `PathMatcher.StripMarkers` | handbrakevidz.py:232 | The substitution never lengthens the name, and never empties a non-empty one. |
| `PathMatcher.StripWithoutSpaces` | handbrakevidz.py:232 | Text with no whitespace is left unchanged by the substitution. |
| `PathMatcher.StripKeepsFront` | handbrakevidz.py:232 | A front in which no match starts is copied unchanged, and the substitution continues on the rest. |
| `PathMatcher.StripAfterCleanStem` | handbrakevidz.py:232 | A marker-free stem that does not end in whitespace, followed by text starting with whitespace, is kept as it is. |
| `PathMatcher.StripMarkedTail` | handbrakevidz.py:232 | One or two whitespace characters, two of `[xX]`, a dot and a whitespace-free extension become a dot followed by the extension. |
| `PathMatcher.StripMarkedFile` | handbrakevidz.py:232 | For a clean stem, the substitution turns stem + marker + `.` + ext into exactly stem + `.` + ext. |
| `PathMatcher.RFind` | handbrakevidz.py:235 | The result is -1 or an index of the character, and no later index holds it. |
| `PathMatcher.Stem` | handbrakevidz.py:235 | The stem is the whole name, or a proper non-empty prefix followed by the last `.` of the name, with no `.` after it. |
| `PathMatcher.StemOfDotted` | handbrakevidz.py:235 | The stem of stem + `.` + a non-empty dot-free extension is that stem. |
| `PathMatcher.OutputName` | handbrakevidz.py:232-235 | The output name always ends in `.mp4`. It is the stem of `Path(...).name` of the substituted name; `PathMatcher.PathName` models `.name`, which gives `""` for `"."`. |
| `PathMatcher.OutputPath` | handbrakevidz.py:232-236 | The output lies in the input's directory, and its name ends in `.mp4`. |
| `PathMatcher.OutputNameOfMarkedFile` | handbrakevidz.py:232-236 | For a non-empty stem that does not end in whitespace and holds no marker, a name made of stem + one or two whitespace characters + two of `[xX]` + `.` + a listed extension gets the output name stem + `.mp4`. |
| `PathMatcher.MarkedFilesShareOutput` | handbrakevidz.py:232-236 | Marked files with the same clean stem get the same output name, stem + `.mp4`, whatever their whitespace, marker case and extension. |
| `PathMatcher.NoMarkerInExtended` | handbrakevidz.py:232 | A clean stem followed by whitespace and a marker pair (without the dot) is still clean. |
| `PathMatcher.StripCanExposeMarker` | handbrakevidz.py:232 | The substitution is not idempotent. In `stem xx xx.ext` it removes only the second marker, and a second pass removes the first. |
| `PathMatcher.DoubledMarkerOutputName` | handbrakevidz.py:232-236 | A name with a doubled marker gets the output name stem + ` xx.mp4`. |
| `PathMatcher.MarkedMp4Passes` | handbrakevidz.py:173 | Every name ending in ` xx.mp4` passes the gate. |
| `PathMatcher.OutputOfDoubledMarkerIsEligible` | handbrakevidz.py:173-236 | The output of a doubled-marker name itself passes the gate. |
| `SuffixTable.TestGateIsWatcherGatePlusMpg` | test_suffix_validation.py:15-16 | The test copy `SuffixTable.IsValidSuffixTest` accepts exactly what the watcher's gate accepts, plus the names whose marker is followed by `mpg`. |
| `SuffixTable.EndsWithAnyMarkerAppend` | test_suffix_validation.py:15 | Joining two extension lists joins the alternatives of the marker check. |
| `SuffixTable.TestGateAgreesAwayFromMpg` | test_suffix_validation.py:15 | On every name that does not end in `.mpg` (or `.mpg` and a newline), the two copies of the gate agree. |
| `SuffixTable.NoMpgMarker` | test_suffix_validation.py:15 | A name that does not end in `.mpg` (or `.mpg` and a newline) has no `mpg` marker. |
| `SuffixTable.MpgMarkerEndsInMpg` | test_suffix_validation.py:15 | A name whose marker is followed by `mpg` ends in `.mpg`. |
| `SuffixTable.RowPasses` | test_suffix_validation.py:15-16 | A name ending in a marker and one of the five alternatives passes the test copy. |
| `SuffixTable.ValidRowsMp4` | test_suffix_validation.py:22-24 | The first three rows expect True, and the test copy returns True. |
| `SuffixTable.ValidRowsMp4More` | test_suffix_validation.py:25-30 | The rows `"video  XX.mp4"` and `"my video xx.mp4"` expect True, and the test copy returns True. |
| `SuffixTable.ValidRowsMkv` | test_suffix_validation.py:26-31 | The three `.mkv` rows expect True, and the test copy returns True. |
| `SuffixTable.ValidRowsAviWmv` | test_suffix_validation.py:28-29 | The `.avi` and `.wmv` rows expect True, and the test copy returns True. |
| `SuffixTable.InvalidRowsRejected` | test_suffix_validation.py:34-43 | The seven rows on lines 34-36, 38-39 and 42-43 expect rejection and are rejected. These are the names with no marker, one `x`, three `x`, `.txt` or `.mov`. |
| `SuffixTable.TableRowsThatFail` | test_suffix_validation.py:37-41 | The rows on lines 37, 40 and 41 expect rejection, but the search finds a match in each. |
| `SuffixTable.MpgOnlyInTestCopy` | test_suffix_validation.py:15 | `video xx.mpg` passes the test copy but not the watcher's gate. |
| `SuffixTable.ExtensionIsCaseSensitive` | handbrakevidz.py:173 | `video xx.MP4` is rejected by both copies: the extension match is case-sensitive. |
| `Resolution.ShouldDownscaleCases` | handbrakevidz.py:258-263 | The flag `Resolution.ShouldDownscale` is set exactly when the height is unknown or above 540. Exactly 540 keeps its height, and 541 is downscaled. |
| `Resolution.Decide` | test_resolution_logic.py:7-17 | The target never exceeds 540. A downscale always targets 480, and keeping means the height was known and is the target. |
| `Resolution.DecideAgreesWithWatcher` | test_resolution_logic.py:7-17 | For every input, the flag of the test copy equals the flag the watcher computes. |
| `Resolution.ResolutionTable` | test_resolution_logic.py:21-30 | 360, 480 and 540 keep their height. 720, 1080, 1440, 2160 and an unknown height go to 480. |
| `EncoderCommand.BuildCommand` | handbrakevidz.py:266-288 | The command starts with the executable, `-i` input, `-o` output, no presets, `nvenc_h265` and quality 22. `--height 480` follows when downscaling, and the eight common flags end it. Its length is 21 or 19. |
| `EncoderCommand.HeightLimitIffDownscale` | handbrakevidz.py:276-277 | For any executable and paths, the command holds `--height 480` exactly when downscaling. |
| `EncoderCommand.ExampleCommands` | test_resolution_logic.py:48-51 | 360 and 480 line sources get no height flag, and 720 and 1080 line sources get `--height 480`. |
| `StateStore.AddToQueue` | handbrakevidz.py:55-62 | Exactly one entry for the path is appended. Earlier entries and the other collections are unchanged. |
| `StateStore.RemoveFromQueue` | handbrakevidz.py:64-69 | No entry with the path remains. Every other entry stays, in its original order and as often as it was queued (the comprehension of line 68, modelled by `StateStore.Without` and, for a set of paths, `StateStore.WithoutAny`). The other collections are unchanged. |
| `StateStore.WithoutMultiset` | handbrakevidz.py:68 | Removing a path keeps each entry with another path exactly as often as it occurred, and keeps no entry with that path. |
| `StateStore.WithoutMembers` | handbrakevidz.py:68 | An entry survives the removal of a path exactly when it was queued and has a different path. |
| `StateStore.WithoutAnyMembers` | handbrakevidz.py:68 | An entry survives the removal of a set of paths exactly when it was queued and its path is not in the set. |
| `StateStore.WithoutAnyIsSubsequence` | handbrakevidz.py:68 | Removal keeps the surviving entries in their original order. |
| `StateStore.WithoutIsWithoutAny` | handbrakevidz.py:68 | Removing one path is removing the singleton set. |
| `StateStore.WithoutAnyAppend` | handbrakevidz.py:68 | Removal distributes over concatenation of queues. |
| `StateStore.WithoutAfterWithoutAny` | handbrakevidz.py:68 | Removing a set of paths and then one more path removes the enlarged set. |
| `StateStore.WithoutNothing` | handbrakevidz.py:68 | Removing no path keeps the queue. |
| `StateStore.SetCurrent` | handbrakevidz.py:71-80 | The slot holds exactly the given job, and nothing else changes. |
| `StateStore.ClearCurrent` | handbrakevidz.py:82-85 | The slot is empty, and nothing else changes. |
| `StateStore.AddCompleted` | handbrakevidz.py:87-98 | Exactly one completed record is appended, and nothing else changes. |
| `StateStore.AddError` | handbrakevidz.py:100-109 | Exactly one error record is appended, and nothing else changes. |
| `StateStore.RecordsExtendTransitive` | handbrakevidz.py:87-109 | Keeping the records of a state across two steps keeps them across both. |
| `StateStore.OperationsAreAppendOnly` | handbrakevidz.py:55-109 | Every operation keeps the existing records in order at the front. Only the two add operations add records, one each. |
| `StateStore.RemoveAfterAdd` | handbrakevidz.py:55-69 | Removing a just-added path removes that entry and every older one with the same path, and nothing else. Removing twice is removing once. |
| `JobRunner.Fail` | handbrakevidz.py:241-242 | An error outcome appends one error record and leaves the slot empty. |
| `JobRunner.RunEncoder` | handbrakevidz.py:290-394 | Every way out of the `try` block returns, appends exactly one record and clears the slot. The record is completed exactly when True is returned, and it names the input. The slot shows 10%, then 95% only after a zero exit, then nothing. At most the output path is new among the files, and it is there afterwards exactly when it was before or the encoder left something there, whether the run exited or raised. |
| `JobRunner.Finalize` | handbrakevidz.py:362-381 | After a zero exit the job returns True exactly when the output exists and can be stat'ed, and appends one record either way. |
| `JobRunner.CompressVideo` | handbrakevidz.py:220-394 | Every entry with the job's path leaves the queue. The slot is empty exactly when the job returns, and exactly one record is added per return. The encoder starts only when the output does not exist, and only the output path can appear among the files. |
| `JobRunner.SlotLifetime` | handbrakevidz.py:226-394 | The slot first shows the job at 0%, then only that job at strictly rising progress. It ends empty, or still at 0% when the job raised. |
| `JobRunner.StartThenRise` | handbrakevidz.py:226-362 | The 0% start followed by what the `try` block writes is a whole job lifetime. |
| `JobRunner.JobRecordsName` | handbrakevidz.py:241-392 | The record a job appends, if any, names its input. |
| `JobRunner.OverwriteGuard` | handbrakevidz.py:239-243 | An existing output gives the error "Output file already exists", an empty slot and False. No command is built and no completed record is added. |
| `JobRunner.StatFailureEscapes` | handbrakevidz.py:246 | A failing stat() of the input raises with the slot still showing the job at 0%. Nothing is recorded and no command is built. |
| `JobRunner.EncoderGetsPolicyCommand` | handbrakevidz.py:254-288 | Past the guard and the stat(), the encoder gets the command of lines 266-288. That command is the 11-argument head, then `--height 480` unless the height is known and ≤ 540, then the eight common flags in their order. It has 19 arguments without the height flag and 21 with it. |
| `JobRunner.ToolFailureRecorded` | handbrakevidz.py:383-389 | A non-zero exit appends one error for the input that starts with `HandbrakeCLI error: `, and returns False. |
| `JobRunner.UnexpectedFailureRecorded` | handbrakevidz.py:357-394 | An encoder run that raises (the process could not be started, or its output could not be decoded after it ran), or an output whose size cannot be read, appends one error starting with `Unexpected error: `, and returns False. Whatever the encoder left at the output path stays among the files. |
| `JobRunner.LeftoverOutputBlocksSibling` | handbrakevidz.py:232-243 | When two inputs share an output path and the job for the first left a file there, whatever its verdict, the job for the second stops at the overwrite guard with "Output file already exists" and no command. |
| `JobRunner.MissingOutputRecorded` | handbrakevidz.py:374-378 | A zero exit with no output appends "Output file not created", and returns False. |
| `JobRunner.SuccessRecorded` | handbrakevidz.py:365-381 | A zero exit with a readable output appends one completed record carrying both sizes, and returns True. |
| `JobRunner.SucceedsExactlyWhen` | handbrakevidz.py:239-381 | The job returns True exactly when the output is absent, the input can be stat'ed, the encoder exits 0 and the output is then readable. |
| `JobRunner.SecondRunHitsGuard` | handbrakevidz.py:239-243 | Running a job again after it succeeded stops at the overwrite guard, with an error and without a command. |
| `Orchestrator.OnCreated` | handbrakevidz.py:129-139 | Only a directory created directly in the watched directory (`Orchestrator.IsDeliveryEvent`) is processed, and processing keeps the existing records. |
| `Orchestrator.FilesOf` | handbrakevidz.py:180-184 | The files of one walk step are `Path(root) / name` for each name, in order. |
| `Orchestrator.Eligible` | handbrakevidz.py:183-184 | Exactly the files that pass the gate are kept. |
| `Orchestrator.EligibleIn` | handbrakevidz.py:181-184 | The files kept in one walk step lie in its root, have one of its names and pass the gate. |
| `Orchestrator.FindVideoFiles` | handbrakevidz.py:176-189 | Every file found passes the gate. |
| `Orchestrator.EligibleAppend` | handbrakevidz.py:180-184 | Filtering distributes over concatenation. |
| `Orchestrator.EligibleInIsEligible` | handbrakevidz.py:181-184 | Filtering the names of a step is filtering its files. |
| `Orchestrator.FindVideoFilesIsEligibleWalk` | handbrakevidz.py:176-189 | The files found are exactly the walk-ordered files that pass the gate, and a file is found exactly when it is in the walk and passes. |
| `Orchestrator.SkippedWithWarning` | handbrakevidz.py:185-187 | A file is only logged exactly when it is in the walk, fails the gate and has a video extension in some letter case (`Orchestrator.HasVideoExtensionIgnoringCase`, the `lower().endswith` test of line 185). |
| `Orchestrator.WarnedAmong` | handbrakevidz.py:185-187 | Within one step, a file is only logged exactly when it fails the gate and has a video extension in some letter case. |
| `Orchestrator.WarnedAreNotFound` | handbrakevidz.py:183-187 | A file only logged is never among the files found. |
| `Orchestrator.Entries` | handbrakevidz.py:159-160 | There is one queue entry per file, holding its path, in order. |
| `Orchestrator.PathsAreTheFiles` | handbrakevidz.py:159-160 | A path is among the paths of the files (`Orchestrator.Paths`) exactly when it is the stored path of one of them. |
| `Orchestrator.EnqueueAll` | handbrakevidz.py:159-160 | The queue gains one entry per found file at its end, in order. Nothing else changes. |
| `Orchestrator.RunAll` | handbrakevidz.py:163-164 | At most one job per file is started. Without a raise every file gets a result, and each result adds one record. The completed records grow by the number of True results. |
| `Orchestrator.RunAllSlot` | handbrakevidz.py:163-164 | After the loop the slot is empty, or, when a job raised, shows that job's file at 0%. |
| `Orchestrator.SlotStep` | handbrakevidz.py:163-164 | The slot property of the loop carries over one returned job. |
| `Orchestrator.RunAllQueue` | handbrakevidz.py:163-164 | After the loop the queue is the old queue without every entry whose path is that of a started job. |
| `Orchestrator.QueueFirstOnly` | handbrakevidz.py:223 | The queue after the first job alone is the queue without its path. |
| `Orchestrator.RunAllStep` | handbrakevidz.py:163-164 | Removal for the first job, then for n more, is removal for the first n + 1. |
| `Orchestrator.WithoutAnyTwice` | handbrakevidz.py:68 | Removing one set of paths and then another removes their union. |
| `Orchestrator.EntriesRemoved` | handbrakevidz.py:159-164 | Removing all the found paths removes all the entries added for them. |
| `Orchestrator.ProcessFolder` | handbrakevidz.py:141-164 | The records are kept, and the result is "already processed" exactly when the folder name is in the skip set. |
| `Orchestrator.SkippedFolderChangesNothing` | handbrakevidz.py:146-148 | A folder in the skip set leaves the state and the files unchanged. |
| `Orchestrator.EmptyFolderRecordsOneError` | handbrakevidz.py:151-156 | A folder without eligible files gets exactly one error, "No files with required suffix found", naming the folder. The queue, slot, completed records and files are unchanged. |
| `Orchestrator.NoneEligible` | handbrakevidz.py:183 | Nothing is kept when no file passes the gate. |
| `Orchestrator.FolderRunFootprint` | handbrakevidz.py:151-164 | When no job raises, every found file has a result, as many records are added as files were found, and the slot is empty. The queue is the old queue minus the entries with a found path: the new entries are gone and the other entries stay. |
| `Orchestrator.FolderAbortFootprint` | handbrakevidz.py:151-164 | When job k raises, the slot shows file k at 0% and k records are added. Every later file whose path differs from those started stays queued. |
| `Orchestrator.FolderRecordsPerFile` | handbrakevidz.py:151-164 | Once the jobs have run, to the end or up to the one that raised, each file whose job returned has exactly one new record naming it, in the order of the found files, and there are no other new records. The record is completed when the job returned True and an error when it returned False. |
| `Orchestrator.RunAllRecordsFollow` | handbrakevidz.py:163-164 | The loop's new completed records name, in order, the files whose jobs returned True. Its new error records name, in order, the files whose jobs returned False. |
| `Orchestrator.RecordsFollowStep` | handbrakevidz.py:163-164 | The per-file record property of the loop carries over its first job, whether it returned or raised. |
| `Orchestrator.PickedCoversRun` | handbrakevidz.py:163-164 | Together, the files with a completed record and those with an error record are the files that ran, each exactly once. |
| `Orchestrator.FolderRecordsNameFoundFiles` | handbrakevidz.py:151-189 | Every record `process_folder` appends names either the folder or a found file. |
| `Orchestrator.WarnedPathsAreNotFound` | handbrakevidz.py:176-189 | No file that is only logged has the same stored path as a file found. |
| `Orchestrator.LoggedFilesGetNoRecord` | handbrakevidz.py:151-189 | A file only logged gets no record of its own: no new error or completed record names its path. This needs every walked file's path to differ from the folder's, which holds for `os.walk(folder)` because its files lie below the folder. |
| `Orchestrator.RunAllRecordsName` | handbrakevidz.py:163-164 | Every record the loop appends names one of the files it ran. |

## Left out

- JSON loading and saving, and their swallowed I/O exceptions (handbrakevidz.py lines 35-52). The collections are kept in memory.
- Timestamps (`datetime.now()`) and the rounding of sizes to megabytes with floats (lines 94-95). Sizes are kept in bytes.
- The watchdog observer, the five-second sleep, `scan_existing_folders` and `main()`: these are event plumbing and command-line handling. Only the event filter of `on_created` is modelled.
- `get_video_resolution` (lines 191-218): ffprobe is not run. Its result is an input, an optional height.
- The encoder's and the filesystem's behaviour: the exit status, the error text, the output file and the stat() results are inputs (`JobRunner.ToolFacts`).
- The Windows branch (lines 297-354): it uses a shell string, sleep-polling, simulated progress and a different flag set.
- Logging, including the warning for files that have a video extension but no marker. Which files draw it is modelled (`Orchestrator.SkippedWithWarning`).
- Concurrency between the watcher and the dashboard reading the JSON files.
- The directory walk: `os.walk(folder)` is an input list of steps, and nothing ties it to the folder. `Orchestrator.LoggedFilesGetNoRecord` therefore requires that no walked file has the folder's own path, which every real walk of the folder meets.
- `Orchestrator.LowerChar`: `str.lower()` is modelled only for the characters whose lower case can end in one of the letters of the four extensions (A-Z and KELVIN SIGN). No other character can lower-case into the last three letters of one of the extensions, so the `endswith` test gives the same answer. For example, U+0130 lower-cases to `i` followed by U+0307, which ends in U+0307.
- web_monitor.py, verify_implementation.py and test_final_modifications.py: they are a dashboard and checks that search the source text, and they are not part of this model.
