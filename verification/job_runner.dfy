/**
  `VideoFolderHandler.compress_video` (handbrakevidz.py lines 220-394) on POSIX systems,
  as a transition of the stored state. What the operating system and the two external
  tools do is given as facts: which paths exist, whether the input can be stat'ed, what
  the probe reported, how the encoder ended and what it left at the output path.
*/
module JobRunner {
  import opened Optional
  import opened PathMatcher
  import opened StateStore
  import Resolution
  import EncoderCommand

  /** How the encoder run ended. */
  datatype ToolRun =
    | Exited(code: int, message: string)  // message: the text of the error raised for a non-zero code
    | RunRaised(message: string)          // `subprocess.run` raised: the encoder could not be
                                          // started, or its captured output could not be
                                          // decoded after it ran (the output may then exist)

  /** What lies at the output path once the encoder has run. */
  datatype Produced =
    | NotProduced
    | Written(size: nat)
    | Unreadable(message: string)         // exists, but stat() raised

  /** The environment of one job. */
  datatype ToolFacts = ToolFacts(
    inputSize: Option<nat>,    // stat() of the input at line 246; None when it raises
    height: Option<int>,       // `get_video_resolution`: None when probing failed
    run: ToolRun,
    produced: Produced)

  /** `compress_video` returns a boolean, or the exception from line 246 escapes. */
  datatype Verdict = Returned(ok: bool) | Raised

  /** The effect of one job: the state, the set of existing paths, the verdict, the
      argument list the encoder was started with (if it was) and every value written
      to the current-job slot, in order. */
  datatype JobOutcome = JobOutcome(
    state: State,
    files: set<string>,
    verdict: Verdict,
    command: Option<seq<string>>,
    published: seq<Option<CurrentJob>>)

  const AlreadyExistsReason := "Output file already exists"
  const NotCreatedReason := "Output file not created"
  const ToolErrorPrefix := "HandbrakeCLI error: "
  const UnexpectedPrefix := "Unexpected error: "

  /** The current-job slot over one job: it first shows path at 0%, then only path,
      at strictly rising progress, and ends either cleared or (when the job raised)
      still showing path. */
  ghost predicate JobLifetime(published: seq<Option<CurrentJob>>, path: string) {
    && |published| >= 1
    && published[0] == Some(CurrentJob(path, 0, "Unknown"))
    && (forall i | 0 <= i < |published| - 1 :: published[i].Some? && published[i].value.path == path)
    && (forall i, j | 0 <= i < j < |published| - 1 ::
          published[i].Some? && published[j].Some? && published[i].value.progress < published[j].value.progress)
    && (published[|published| - 1].None? || published[|published| - 1] == published[0])
  }

  /** What the try block writes to the slot: 10% while the encoder runs, 95% after a
      zero exit, and finally nothing. */
  function EncoderTrace(path: string, finalized: bool): seq<Option<CurrentJob>> {
    [Some(CurrentJob(path, 10, "Calculating..."))]
      + (if finalized then [Some(CurrentJob(path, 95, "Finalizing..."))] else [])
      + [None]
  }

  /** The records the job appended: exactly one completed or error record when it
      returned, none when it raised. */
  ghost predicate OneRecordPerReturn(st: State, o: JobOutcome) {
    && RecordsExtend(st, o.state)
    && RecordCount(o.state) == RecordCount(st) + (if o.verdict.Returned? then 1 else 0)
    && (|o.state.completed| == |st.completed| + 1 <==> o.verdict == Returned(true))
  }

  /** Every record st' has beyond those of st names path. */
  ghost predicate NewRecordsName(st: State, st': State, path: string) {
    && (forall i | |st.errors| <= i < |st'.errors| :: st'.errors[i].path == path)
    && (forall i | |st.completed| <= i < |st'.completed| :: st'.completed[i].input == path)
  }

  /** An outcome recorded as an error: the record is appended, then the slot cleared. */
  function Fail(st: State, path: string, reason: string): (r: State)
    ensures r.current.None? && r.queue == st.queue && r.completed == st.completed
    ensures r.errors == st.errors + [ErrorRecord(path, reason)]
  {
    ClearCurrent(AddError(st, path, reason))
  }

  /** The try block of lines 290-394, entered with the slot showing path at 0% and the
      command built: every way out appends one record and clears the slot. */
  function RunEncoder(started: State, fs: set<string>, path: string, out: string, cmd: seq<string>,
                      inputSize: nat, f: ToolFacts): (o: JobOutcome)
    ensures o.verdict.Returned? && o.state.current.None? && o.command == Some(cmd)
    ensures o.state.queue == started.queue
    ensures RecordsExtend(started, o.state) && RecordCount(o.state) == RecordCount(started) + 1
    ensures |o.state.completed| == |started.completed| + 1 <==> o.verdict.ok
    ensures fs <= o.files && o.files <= fs + {out}
    ensures out in o.files <==> out in fs || !f.produced.NotProduced?
    ensures o.published == EncoderTrace(path, f.run.Exited? && f.run.code == 0)
    ensures |o.state.errors| > |started.errors| ==> o.state.errors[|started.errors|].path == path
    ensures |o.state.completed| > |started.completed| ==> o.state.completed[|started.completed|].input == path
  {
    var running := SetCurrent(started, path, 10, "Calculating...");
    var fs' := if f.produced.NotProduced? then fs else fs + {out};
    match f.run
    case RunRaised(m) =>
      JobOutcome(Fail(running, path, UnexpectedPrefix + m), fs', Returned(false),
                 Some(cmd), [running.current, None])
    case Exited(code, m) =>
      if code != 0 then
        JobOutcome(Fail(running, path, ToolErrorPrefix + m), fs', Returned(false),
                   Some(cmd), [running.current, None])
      else
        var o := Finalize(running, fs', path, out, cmd, inputSize, f.produced);
        o.(published := [running.current] + o.published)
  }

  /** Lines 365-381, after a zero exit: the slot shows 95%, then the output is checked
      and one record is appended. */
  function Finalize(running: State, fs: set<string>, path: string, out: string, cmd: seq<string>,
                    inputSize: nat, produced: Produced): (o: JobOutcome)
    ensures o.verdict.Returned? && o.state.current.None? && o.command == Some(cmd)
    ensures o.state.queue == running.queue && o.files == fs
    ensures RecordsExtend(running, o.state) && RecordCount(o.state) == RecordCount(running) + 1
    ensures |o.state.completed| == |running.completed| + 1 <==> o.verdict.ok
    ensures o.verdict.ok <==> produced.Written?
    ensures o.published == [Some(CurrentJob(path, 95, "Finalizing...")), None]
    ensures |o.state.errors| > |running.errors| ==> o.state.errors[|running.errors|].path == path
    ensures |o.state.completed| > |running.completed| ==> o.state.completed[|running.completed|].input == path
  {
    var finishing := SetCurrent(running, path, 95, "Finalizing...");
    var trace := [finishing.current, None];
    match produced
    case NotProduced =>
      JobOutcome(Fail(finishing, path, NotCreatedReason), fs, Returned(false), Some(cmd), trace)
    case Written(size) =>
      JobOutcome(ClearCurrent(AddCompleted(finishing, path, out, inputSize, size)), fs, Returned(true), Some(cmd), trace)
    case Unreadable(m) =>
      JobOutcome(Fail(finishing, path, UnexpectedPrefix + m), fs, Returned(false), Some(cmd), trace)
  }

  /** `compress_video(video)`. */
  function CompressVideo(st: State, fs: set<string>, handbrake: string, video: FilePath, f: ToolFacts): (o: JobOutcome)
    ensures o.state.queue == Without(st.queue, video.Str())
    ensures o.state.current.None? <==> o.verdict.Returned?
    ensures OneRecordPerReturn(st, o)
    ensures |o.published| >= 1 && o.published[|o.published| - 1] == o.state.current
    ensures o.command.Some? ==> OutputPath(video).Str() !in fs
    ensures fs <= o.files && o.files <= fs + {OutputPath(video).Str()}
  {
    var path := video.Str();
    var out := OutputPath(video).Str();
    var started := SetCurrent(RemoveFromQueue(st, path), path, 0, "Unknown");
    if out in fs then
      JobOutcome(Fail(started, path, AlreadyExistsReason), fs, Returned(false), None, [started.current, None])
    else if f.inputSize.None? then
      JobOutcome(started, fs, Raised, None, [started.current])
    else
      var cmd := EncoderCommand.BuildCommand(handbrake, path, out, Resolution.ShouldDownscale(f.height));
      var o := RunEncoder(started, fs, path, out, cmd, f.inputSize.value, f);
      o.(published := [started.current] + o.published)
  }

  /** Whatever happens, the slot shows only this job while it runs (at-most-one job in
      flight), and the last value written is what the state holds. */
  lemma SlotLifetime(st: State, fs: set<string>, handbrake: string, video: FilePath, f: ToolFacts)
    ensures JobLifetime(CompressVideo(st, fs, handbrake, video, f).published, video.Str())
  {
    var path := video.Str();
    var out := OutputPath(video).Str();
    if out !in fs && f.inputSize.Some? {
      var started := SetCurrent(RemoveFromQueue(st, path), path, 0, "Unknown");
      var cmd := EncoderCommand.BuildCommand(handbrake, path, out, Resolution.ShouldDownscale(f.height));
      var o := RunEncoder(started, fs, path, out, cmd, f.inputSize.value, f);
      assert CompressVideo(st, fs, handbrake, video, f).published == [started.current] + o.published;
      StartThenRise(path, f.run.Exited? && f.run.code == 0);
    }
  }

  /** The slot at 0% followed by what the try block writes is a whole job lifetime. */
  lemma StartThenRise(path: string, finalized: bool)
    ensures JobLifetime([Some(CurrentJob(path, 0, "Unknown"))] + EncoderTrace(path, finalized), path)
  {
  }

  /** The record a job appends, if any, names its input. */
  lemma JobRecordsName(st: State, fs: set<string>, handbrake: string, video: FilePath, f: ToolFacts)
    ensures NewRecordsName(st, CompressVideo(st, fs, handbrake, video, f).state, video.Str())
  {
    var path := video.Str();
    var out := OutputPath(video).Str();
    var o := CompressVideo(st, fs, handbrake, video, f);
    if out in fs {
      assert o.state.errors == st.errors + [ErrorRecord(path, AlreadyExistsReason)];
    } else if f.inputSize.Some? {
      var started := SetCurrent(RemoveFromQueue(st, path), path, 0, "Unknown");
      var cmd := EncoderCommand.BuildCommand(handbrake, path, out, Resolution.ShouldDownscale(f.height));
      var e := RunEncoder(started, fs, path, out, cmd, f.inputSize.value, f);
      assert o.state == e.state;
      forall i | |st.errors| <= i < |o.state.errors| ensures o.state.errors[i].path == path {
        assert i == |st.errors|;
      }
      forall i | |st.completed| <= i < |o.state.completed| ensures o.state.completed[i].input == path {
        assert i == |st.completed|;
      }
    }
  }

  /** Overwrite guard: when the output path exists the job records "Output file already
      exists", clears the slot and returns False, without building or starting the
      encoder command and without a completed record. */
  lemma OverwriteGuard(st: State, fs: set<string>, handbrake: string, video: FilePath, f: ToolFacts)
    requires OutputPath(video).Str() in fs
    ensures var o := CompressVideo(st, fs, handbrake, video, f);
      && o.verdict == Returned(false)
      && o.command.None?
      && o.files == fs
      && o.state.errors == st.errors + [ErrorRecord(video.Str(), AlreadyExistsReason)]
      && o.state.completed == st.completed
      && o.state.current.None?
  {
  }

  /** A failing stat() of the input lies outside the try block: the exception escapes
      with the slot still showing the job and nothing recorded. */
  lemma StatFailureEscapes(st: State, fs: set<string>, handbrake: string, video: FilePath, f: ToolFacts)
    requires OutputPath(video).Str() !in fs && f.inputSize.None?
    ensures var o := CompressVideo(st, fs, handbrake, video, f);
      && o.verdict == Raised
      && o.command.None?
      && o.state.current == Some(CurrentJob(video.Str(), 0, "Unknown"))
      && o.state.errors == st.errors && o.state.completed == st.completed
  {
  }

  /** Once past the guard and the stat(), the encoder is started with the command of
      lines 266-288: the head, then `--height 480` exactly when the resolution policy
      downscales, then the common flags in their order. */
  lemma EncoderGetsPolicyCommand(st: State, fs: set<string>, handbrake: string, video: FilePath, f: ToolFacts)
    requires OutputPath(video).Str() !in fs && f.inputSize.Some?
    ensures var o := CompressVideo(st, fs, handbrake, video, f);
      && o.command.Some?
      && o.command.value[..11] == EncoderCommand.CommandHead(handbrake, video.Str(), OutputPath(video).Str())
      && |o.command.value| == (if f.height.Some? && f.height.value <= 540 then 19 else 21)
      && (EncoderCommand.HasHeightLimit(o.command.value) <==> f.height.None? || f.height.value > 540)
      && o.command.value[11..] == (if f.height.Some? && f.height.value <= 540 then [] else EncoderCommand.HeightFlag)
                                  + EncoderCommand.CommonFlags
  {
    var o := CompressVideo(st, fs, handbrake, video, f);
    var down := Resolution.ShouldDownscale(f.height);
    assert o.command.value == EncoderCommand.BuildCommand(handbrake, video.Str(), OutputPath(video).Str(), down);
    PolicyCommandShape(handbrake, video.Str(), OutputPath(video).Str(), f.height);
  }

  /** The shape of the command for a probed height, away from the job's state. */
  lemma PolicyCommandShape(handbrake: string, input: string, output: string, height: Option<int>)
    ensures var cmd := EncoderCommand.BuildCommand(handbrake, input, output, Resolution.ShouldDownscale(height));
      && cmd[..11] == EncoderCommand.CommandHead(handbrake, input, output)
      && |cmd| == (if height.Some? && height.value <= 540 then 19 else 21)
      && (EncoderCommand.HasHeightLimit(cmd) <==> height.None? || height.value > 540)
      && cmd[11..] == (if height.Some? && height.value <= 540 then [] else EncoderCommand.HeightFlag)
                      + EncoderCommand.CommonFlags
  {
    var down := Resolution.ShouldDownscale(height);
    EncoderCommand.HeightLimitIffDownscale(handbrake, input, output, down);
  }

  /** A non-zero exit records an error that starts with "HandbrakeCLI error: ". */
  lemma ToolFailureRecorded(st: State, fs: set<string>, handbrake: string, video: FilePath, f: ToolFacts)
    requires OutputPath(video).Str() !in fs && f.inputSize.Some?
    requires f.run.Exited? && f.run.code != 0
    ensures var o := CompressVideo(st, fs, handbrake, video, f);
      && o.verdict == Returned(false)
      && |o.state.errors| == |st.errors| + 1
      && o.state.errors[|st.errors|].path == video.Str()
      && o.state.errors[|st.errors|].reason[..|ToolErrorPrefix|] == ToolErrorPrefix
      && o.state.completed == st.completed
  {
  }

  /** An encoder run that raises (it could not be started, or its output could not be
      decoded), or an output whose size cannot be read, ends in the generic handler: an
      error that starts with "Unexpected error: ". Whatever the encoder left at the
      output path stays there. */
  lemma UnexpectedFailureRecorded(st: State, fs: set<string>, handbrake: string, video: FilePath, f: ToolFacts)
    requires OutputPath(video).Str() !in fs && f.inputSize.Some?
    requires f.run.RunRaised? || (f.run == Exited(0, f.run.message) && f.produced.Unreadable?)
    ensures var o := CompressVideo(st, fs, handbrake, video, f);
      && o.verdict == Returned(false)
      && |o.state.errors| == |st.errors| + 1
      && o.state.errors[|st.errors|].path == video.Str()
      && o.state.errors[|st.errors|].reason[..|UnexpectedPrefix|] == UnexpectedPrefix
      && o.state.completed == st.completed
      && o.state.current.None?
      && (OutputPath(video).Str() in o.files <==> !f.produced.NotProduced?)
  {
  }

  /** A zero exit without an output file records "Output file not created". */
  lemma MissingOutputRecorded(st: State, fs: set<string>, handbrake: string, video: FilePath, f: ToolFacts)
    requires OutputPath(video).Str() !in fs && f.inputSize.Some?
    requires f.run == Exited(0, f.run.message) && f.produced.NotProduced?
    ensures var o := CompressVideo(st, fs, handbrake, video, f);
      && o.verdict == Returned(false)
      && o.state.errors == st.errors + [ErrorRecord(video.Str(), NotCreatedReason)]
      && o.state.completed == st.completed
      && o.files == fs
  {
  }

  /** A zero exit with a readable output appends one completed record with both sizes
      and returns True; the output now exists. */
  lemma SuccessRecorded(st: State, fs: set<string>, handbrake: string, video: FilePath, f: ToolFacts)
    requires OutputPath(video).Str() !in fs && f.inputSize.Some?
    requires f.run == Exited(0, f.run.message) && f.produced.Written?
    ensures var o := CompressVideo(st, fs, handbrake, video, f);
      && o.verdict == Returned(true)
      && o.state.completed == st.completed + [CompletedRecord(video.Str(), OutputPath(video).Str(), f.inputSize.value, f.produced.size)]
      && o.state.errors == st.errors
      && OutputPath(video).Str() in o.files
  {
  }

  /** The job returns True exactly on a zero exit with a readable output. */
  lemma SucceedsExactlyWhen(st: State, fs: set<string>, handbrake: string, video: FilePath, f: ToolFacts)
    ensures CompressVideo(st, fs, handbrake, video, f).verdict == Returned(true) <==>
      && OutputPath(video).Str() !in fs && f.inputSize.Some?
      && f.run.Exited? && f.run.code == 0 && f.produced.Written?
  {
  }

  /** Running a job again after it succeeded cannot overwrite its output: the guard
      stops it before the encoder. */
  lemma SecondRunHitsGuard(st: State, fs: set<string>, handbrake: string, video: FilePath, f: ToolFacts, g: ToolFacts)
    requires CompressVideo(st, fs, handbrake, video, f).verdict == Returned(true)
    ensures var o := CompressVideo(st, fs, handbrake, video, f);
      var o2 := CompressVideo(o.state, o.files, handbrake, video, g);
      && o2.verdict == Returned(false) && o2.command.None?
      && o2.state.errors == o.state.errors + [ErrorRecord(video.Str(), AlreadyExistsReason)]
  {
    var o := CompressVideo(st, fs, handbrake, video, f);
    SucceedsExactlyWhen(st, fs, handbrake, video, f);
    OverwriteGuard(o.state, o.files, handbrake, video, g);
  }

  /** Two inputs with the same output path: once a job for the first has left a file
      there, whatever its verdict, the job for the second stops at the overwrite guard. */
  lemma LeftoverOutputBlocksSibling(st: State, fs: set<string>, handbrake: string, video: FilePath,
                                    sibling: FilePath, f: ToolFacts, g: ToolFacts)
    requires OutputPath(video) == OutputPath(sibling)
    requires OutputPath(video).Str() !in fs && f.inputSize.Some? && !f.produced.NotProduced?
    ensures var o := CompressVideo(st, fs, handbrake, video, f);
      var o2 := CompressVideo(o.state, o.files, handbrake, sibling, g);
      && OutputPath(video).Str() in o.files
      && o2.verdict == Returned(false) && o2.command.None?
      && o2.state.errors == o.state.errors + [ErrorRecord(sibling.Str(), AlreadyExistsReason)]
  {
    var o := CompressVideo(st, fs, handbrake, video, f);
    var path := video.Str();
    var out := OutputPath(video).Str();
    var started := SetCurrent(RemoveFromQueue(st, path), path, 0, "Unknown");
    var cmd := EncoderCommand.BuildCommand(handbrake, path, out, Resolution.ShouldDownscale(f.height));
    var e := RunEncoder(started, fs, path, out, cmd, f.inputSize.value, f);
    assert o.files == e.files;
    OverwriteGuard(o.state, o.files, handbrake, sibling, g);
  }
}
