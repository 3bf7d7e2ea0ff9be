/**
  Folder processing of `VideoFolderHandler` (handbrakevidz.py lines 129-189): the event
  filter, the search for eligible files, and `process_folder`, which enqueues every
  eligible file of a folder and then runs one job per file, in order. The directory walk
  is given as its sequence of (root, file names) steps.
*/
module Orchestrator {
  import opened Optional
  import opened PathMatcher
  import opened StateStore
  import opened JobRunner

  /** One step of `os.walk`: a directory and the names of the files directly in it. */
  datatype WalkStep = WalkStep(root: string, files: seq<string>)

  /** `on_created` acts only on directories created directly in the watched directory. */
  predicate IsDeliveryEvent(isDirectory: bool, created: FilePath, watchDir: string) {
    isDirectory && created.parent == watchDir
  }

  // ---------------------------------------------------------------------------
  // Finding the files
  // ---------------------------------------------------------------------------

  /** Every file of the walk as `Path(root) / name`, in walk order. */
  function AllFiles(walk: seq<WalkStep>): seq<FilePath>
    decreases |walk|
  {
    if |walk| == 0 then []
    else FilesOf(walk[0].root, walk[0].files) + AllFiles(walk[1..])
  }

  function FilesOf(root: string, names: seq<string>): (r: seq<FilePath>)
    ensures |r| == |names|
    ensures forall i | 0 <= i < |r| :: r[i] == FilePath(root, names[i])
    decreases |names|
  {
    if |names| == 0 then [] else [FilePath(root, names[0])] + FilesOf(root, names[1..])
  }

  /** The files of vs that pass the gate, in order. */
  function Eligible(vs: seq<FilePath>): (r: seq<FilePath>)
    ensures forall v | v in r :: v in vs && IsValidSuffix(v.name)
    ensures forall v | v in vs && IsValidSuffix(v.name) :: v in r
    decreases |vs|
  {
    if |vs| == 0 then []
    else (if IsValidSuffix(vs[0].name) then [vs[0]] else []) + Eligible(vs[1..])
  }

  /** The eligible files among names in root, in order (the inner loop of line 181). */
  function EligibleIn(root: string, names: seq<string>): (r: seq<FilePath>)
    ensures forall v | v in r :: v.parent == root && v.name in names && IsValidSuffix(v.name)
    decreases |names|
  {
    if |names| == 0 then []
    else (if IsValidSuffix(names[0]) then [FilePath(root, names[0])] else []) + EligibleIn(root, names[1..])
  }

  /** `find_video_files`: the nested loops of lines 180-184. */
  function FindVideoFiles(walk: seq<WalkStep>): (found: seq<FilePath>)
    ensures forall v | v in found :: IsValidSuffix(v.name)
    decreases |walk|
  {
    if |walk| == 0 then []
    else EligibleIn(walk[0].root, walk[0].files) + FindVideoFiles(walk[1..])
  }

  lemma {:induction false} EligibleAppend(a: seq<FilePath>, b: seq<FilePath>)
    ensures Eligible(a + b) == Eligible(a) + Eligible(b)
    decreases |a|
  {
    if |a| == 0 {
      assert a + b == b;
    } else {
      assert (a + b)[1..] == a[1..] + b;
      EligibleAppend(a[1..], b);
    }
  }

  lemma {:induction false} EligibleInIsEligible(root: string, names: seq<string>)
    ensures EligibleIn(root, names) == Eligible(FilesOf(root, names))
    decreases |names|
  {
    if |names| > 0 {
      EligibleInIsEligible(root, names[1..]);
      assert FilesOf(root, names)[1..] == FilesOf(root, names[1..]);
    }
  }

  /** The files found are exactly the walk-ordered files that pass the gate. */
  lemma {:induction false} FindVideoFilesIsEligibleWalk(walk: seq<WalkStep>)
    ensures FindVideoFiles(walk) == Eligible(AllFiles(walk))
    ensures forall v :: v in FindVideoFiles(walk) <==> v in AllFiles(walk) && IsValidSuffix(v.name)
    decreases |walk|
  {
    if |walk| > 0 {
      FindVideoFilesIsEligibleWalk(walk[1..]);
      EligibleInIsEligible(walk[0].root, walk[0].files);
      EligibleAppend(FilesOf(walk[0].root, walk[0].files), AllFiles(walk[1..]));
    }
  }

  /** `c.lower()` for the characters whose lower case ends in one of the ASCII letters
      the extension check compares against: A-Z and KELVIN SIGN (to 'k'). No other
      character can lower-case into the last three letters of an extension (U+0130, for
      one, becomes "i" followed by U+0307), so keeping it as it is gives the same
      answer to the `endswith` test. */
  function LowerChar(c: char): char {
    if 'A' <= c <= 'Z' then (c as int + 32) as char
    else if c == '\U{212A}' then 'k'
    else c
  }

  /** `name.lower().endswith(('.mp4', '.mkv', '.avi', '.wmv'))` (line 185). */
  predicate HasVideoExtensionIgnoringCase(name: string) {
    && |name| >= 4 && name[|name| - 4] == '.'
    && [LowerChar(name[|name| - 3]), LowerChar(name[|name| - 2]), LowerChar(name[|name| - 1])] in VideoExtensions
  }

  /** The files that are only logged as "missing required suffix pattern" (lines 185-187):
      a video extension in any case, but no marker. */
  function SkippedWithWarning(walk: seq<WalkStep>): (r: seq<FilePath>)
    ensures forall v :: v in r <==> v in AllFiles(walk) && !IsValidSuffix(v.name) && HasVideoExtensionIgnoringCase(v.name)
    decreases |walk|
  {
    if |walk| == 0 then []
    else
      WarnedAmong(FilesOf(walk[0].root, walk[0].files)) + SkippedWithWarning(walk[1..])
  }

  function WarnedAmong(vs: seq<FilePath>): (r: seq<FilePath>)
    ensures forall v :: v in r <==> v in vs && !IsValidSuffix(v.name) && HasVideoExtensionIgnoringCase(v.name)
    decreases |vs|
  {
    if |vs| == 0 then []
    else (if !IsValidSuffix(vs[0].name) && HasVideoExtensionIgnoringCase(vs[0].name) then [vs[0]] else [])
         + WarnedAmong(vs[1..])
  }

  /** A warned file is never among the files found. */
  lemma WarnedAreNotFound(walk: seq<WalkStep>)
    ensures forall v | v in SkippedWithWarning(walk) :: v !in FindVideoFiles(walk)
  {
    FindVideoFilesIsEligibleWalk(walk);
  }

  // ---------------------------------------------------------------------------
  // Enqueueing and running
  // ---------------------------------------------------------------------------

  /** The queue entries for vs, in order. */
  function Entries(vs: seq<FilePath>): (r: seq<QueueEntry>)
    ensures |r| == |vs|
    ensures forall i | 0 <= i < |vs| :: r[i] == QueueEntry(vs[i].Str())
    decreases |vs|
  {
    if |vs| == 0 then [] else [QueueEntry(vs[0].Str())] + Entries(vs[1..])
  }

  /** The paths of vs as stored. */
  function Paths(vs: seq<FilePath>): (ps: set<string>)
    ensures forall i | 0 <= i < |vs| :: vs[i].Str() in ps
    decreases |vs|
  {
    if |vs| == 0 then {} else {vs[0].Str()} + Paths(vs[1..])
  }

  /** The paths are those of the files and nothing else. */
  lemma {:induction false} PathsAreTheFiles(vs: seq<FilePath>)
    ensures forall p :: p in Paths(vs) <==> exists i | 0 <= i < |vs| :: vs[i].Str() == p
    decreases |vs|
  {
    if |vs| > 0 {
      PathsAreTheFiles(vs[1..]);
      forall p | p in Paths(vs[1..]) ensures exists i | 0 <= i < |vs| :: vs[i].Str() == p {
        var i :| 0 <= i < |vs[1..]| && vs[1..][i].Str() == p;
        assert vs[i + 1].Str() == p;
      }
    }
  }

  /** The loop of lines 159-160. */
  function EnqueueAll(st: State, vs: seq<FilePath>): (r: State)
    ensures r.queue == st.queue + Entries(vs)
    ensures r.current == st.current && r.completed == st.completed && r.errors == st.errors
    decreases |vs|
  {
    if |vs| == 0 then st
    else
      QueueAppendAssoc(st.queue, [QueueEntry(vs[0].Str())], Entries(vs[1..]));
      EnqueueAll(AddToQueue(st, vs[0].Str()), vs[1..])
  }

  /** Associativity of queue concatenation, stated apart so that `EnqueueAll` does not
      have the solver rediscover it in a large context. */
  lemma QueueAppendAssoc(a: seq<QueueEntry>, b: seq<QueueEntry>, c: seq<QueueEntry>)
    ensures (a + b) + c == a + (b + c)
  {
  }

  /** Where the loop of lines 163-164 stopped: the state, the existing paths, the value
      each job returned and whether a job raised (ending the loop). */
  datatype Run = Run(state: State, files: set<string>, results: seq<bool>, aborted: bool) {
    /** How many jobs were started. */
    function Started(): nat { |results| + (if aborted then 1 else 0) }
  }

  /** The number of jobs that returned True. */
  function CountTrue(bs: seq<bool>): nat
    decreases |bs|
  {
    if |bs| == 0 then 0 else (if bs[0] then 1 else 0) + CountTrue(bs[1..])
  }

  /** The loop of lines 163-164: one job per file, in order, until one raises. Each job
      that returns adds one record, and only those that return True a completed one. */
  function RunAll(st: State, fs: set<string>, handbrake: string, vs: seq<FilePath>,
                  facts: FilePath -> ToolFacts): (r: Run)
    ensures r.Started() <= |vs|
    ensures !r.aborted ==> |r.results| == |vs|
    ensures RecordsExtend(st, r.state) && RecordCount(r.state) == RecordCount(st) + |r.results|
    ensures |r.state.completed| == |st.completed| + CountTrue(r.results)
    decreases |vs|
  {
    if |vs| == 0 then Run(st, fs, [], false)
    else
      var o := CompressVideo(st, fs, handbrake, vs[0], facts(vs[0]));
      if o.verdict.Raised? then Run(o.state, o.files, [], true)
      else
        var rest := RunAll(o.state, o.files, handbrake, vs[1..], facts);
        RecordsExtendTransitive(st, o.state, rest.state);
        Continued(o, rest)
  }

  /** After the loop the slot is clear, unless a job raised: then it still shows that
      job's file at 0%. */
  lemma {:induction false} RunAllSlot(st: State, fs: set<string>, handbrake: string, vs: seq<FilePath>,
                                      facts: FilePath -> ToolFacts)
    ensures SlotAfter(vs, RunAll(st, fs, handbrake, vs, facts))
    decreases |vs|
  {
    if |vs| > 0 {
      var o := CompressVideo(st, fs, handbrake, vs[0], facts(vs[0]));
      RunAllUnfold(st, fs, handbrake, vs, facts);
      if o.verdict.Raised? {
        SlotLifetime(st, fs, handbrake, vs[0], facts(vs[0]));
      } else {
        RunAllSlot(o.state, o.files, handbrake, vs[1..], facts);
        SlotStep(vs, o, RunAll(o.state, o.files, handbrake, vs[1..], facts));
      }
    }
  }

  /** What the slot holds after the loop over vs ended in r. */
  ghost predicate SlotAfter(vs: seq<FilePath>, r: Run) {
    && (!r.aborted && |vs| > 0 ==> r.state.current.None?)
    && (r.aborted ==> |r.results| < |vs| && r.state.current == Some(CurrentJob(vs[|r.results|].Str(), 0, "Unknown")))
  }

  /** The run after a first job o that returned, followed by the run rest of the others. */
  function Continued(o: JobOutcome, rest: Run): Run
    requires o.verdict.Returned?
  {
    Run(rest.state, rest.files, [o.verdict.ok] + rest.results, rest.aborted)
  }

  lemma SlotStep(vs: seq<FilePath>, o: JobOutcome, rest: Run)
    requires |vs| > 0 && o.verdict.Returned? && o.state.current.None?
    requires SlotAfter(vs[1..], rest) && (|vs| == 1 ==> rest.state == o.state && !rest.aborted)
    ensures SlotAfter(vs, Continued(o, rest))
  {
    if rest.aborted {
      assert vs[1..][|rest.results|] == vs[|rest.results| + 1];
    }
  }

  /** After the loop the queue is the old queue without every entry whose path is that
      of a started job. */
  lemma {:induction false} RunAllQueue(st: State, fs: set<string>, handbrake: string, vs: seq<FilePath>,
                                       facts: FilePath -> ToolFacts)
    ensures var r := RunAll(st, fs, handbrake, vs, facts);
      r.state.queue == WithoutAny(st.queue, Paths(vs[..r.Started()]))
    decreases |vs|
  {
    if |vs| == 0 {
      assert Paths(vs[..0]) == {};
      WithoutNothing(st.queue);
    } else {
      var o := CompressVideo(st, fs, handbrake, vs[0], facts(vs[0]));
      var rest := RunAll(o.state, o.files, handbrake, vs[1..], facts);
      RunAllUnfold(st, fs, handbrake, vs, facts);
      RunAllQueue(o.state, o.files, handbrake, vs[1..], facts);
      QueueAfterStep(st.queue, vs, o, rest, RunAll(st, fs, handbrake, vs, facts));
    }
  }

  /** One turn of the loop: the first job, then (if it returned) the rest. */
  lemma RunAllUnfold(st: State, fs: set<string>, handbrake: string, vs: seq<FilePath>,
                     facts: FilePath -> ToolFacts)
    requires |vs| > 0
    ensures var o := CompressVideo(st, fs, handbrake, vs[0], facts(vs[0]));
      var r := RunAll(st, fs, handbrake, vs, facts);
      && (o.verdict.Raised? ==> r == Run(o.state, o.files, [], true))
      && (o.verdict.Returned? ==> r == Continued(o, RunAll(o.state, o.files, handbrake, vs[1..], facts)))
  {
  }

  /** The queue property of the loop carries over its first turn. */
  lemma QueueAfterStep(q: seq<QueueEntry>, vs: seq<FilePath>, o: JobOutcome, rest: Run, r: Run)
    requires |vs| > 0 && o.state.queue == Without(q, vs[0].Str())
    requires o.verdict.Raised? ==> r == Run(o.state, o.files, [], true)
    requires o.verdict.Returned? ==> r == Continued(o, rest)
    requires rest.Started() <= |vs| - 1
    requires rest.state.queue == WithoutAny(o.state.queue, Paths(vs[1..][..rest.Started()]))
    ensures r.state.queue == WithoutAny(q, Paths(vs[..r.Started()]))
  {
    if o.verdict.Raised? {
      QueueFirstOnly(q, o.state.queue, vs);
    } else {
      RunAllStep(q, o.state.queue, vs, rest.Started(), rest.state.queue);
    }
  }

  /** The queue after the first job alone. */
  lemma QueueFirstOnly(q: seq<QueueEntry>, q': seq<QueueEntry>, vs: seq<FilePath>)
    requires |vs| > 0 && q' == Without(q, vs[0].Str())
    ensures q' == WithoutAny(q, Paths(vs[..1]))
  {
    WithoutIsWithoutAny(q, vs[0].Str());
    assert Paths(vs[..1]) == {vs[0].Str()} by {
      assert vs[..1][0] == vs[0];
      assert |vs[..1][1..]| == 0;
    }
  }

  /** The queue after the first job and then n more. */
  lemma RunAllStep(q0: seq<QueueEntry>, q1: seq<QueueEntry>, vs: seq<FilePath>, n: nat, q: seq<QueueEntry>)
    requires |vs| > 0 && n <= |vs| - 1
    requires q1 == Without(q0, vs[0].Str())
    requires q == WithoutAny(q1, Paths(vs[1..][..n]))
    ensures q == WithoutAny(q0, Paths(vs[..n + 1]))
  {
    WithoutIsWithoutAny(q0, vs[0].Str());
    WithoutAnyTwice(q0, {vs[0].Str()}, Paths(vs[1..][..n]));
    assert vs[..n + 1][1..] == vs[1..][..n];
  }

  /** Removing one set of paths and then another removes their union. */
  lemma {:induction false} WithoutAnyTwice(q: seq<QueueEntry>, a: set<string>, b: set<string>)
    ensures WithoutAny(WithoutAny(q, a), b) == WithoutAny(q, a + b)
    decreases |q|
  {
    if |q| > 0 {
      WithoutAnyTwice(q[1..], a, b);
      var w := WithoutAny(q, a);
      if q[0].path !in a {
        assert w[0] == q[0] && w[1..] == WithoutAny(q[1..], a);
      } else {
        assert w == WithoutAny(q[1..], a);
      }
    }
  }

  /** The entries of vs all carry paths in ps when ps covers them. */
  lemma {:induction false} EntriesRemoved(vs: seq<FilePath>, ps: set<string>)
    requires Paths(vs) <= ps
    ensures WithoutAny(Entries(vs), ps) == []
    decreases |vs|
  {
    if |vs| > 0 {
      assert Entries(vs)[1..] == Entries(vs[1..]);
      EntriesRemoved(vs[1..], ps);
    }
  }

  // ---------------------------------------------------------------------------
  // process_folder
  // ---------------------------------------------------------------------------

  /** How `process_folder` ended. */
  datatype FolderResult =
    | AlreadyProcessed          // the folder name was in the skip set
    | NothingFound              // no eligible file: one error for the folder
    | Ran(results: seq<bool>)       // every job ran; what each returned
    | Aborted(results: seq<bool>)   // what the first jobs returned; the next one raised

  datatype FolderOutcome = FolderOutcome(state: State, files: set<string>, result: FolderResult)

  const NoFilesReason := "No files with required suffix found"

  /** `on_created`: a directory created directly in the watched directory is processed;
      every other event changes nothing. */
  function OnCreated(st: State, fs: set<string>, processed: set<string>, isDirectory: bool, created: FilePath,
                     watchDir: string, walk: seq<WalkStep>, handbrake: string,
                     facts: FilePath -> ToolFacts): (o: Option<FolderOutcome>)
    ensures o.Some? <==> isDirectory && created.parent == watchDir
    ensures o.Some? ==> RecordsExtend(st, o.value.state)
  {
    if IsDeliveryEvent(isDirectory, created, watchDir) then
      Some(ProcessFolder(st, fs, processed, created, walk, handbrake, facts))
    else None
  }

  /** `process_folder(folder)`, with the skip set `processed` (which nothing adds to). */
  function ProcessFolder(st: State, fs: set<string>, processed: set<string>, folder: FilePath,
                         walk: seq<WalkStep>, handbrake: string, facts: FilePath -> ToolFacts): (o: FolderOutcome)
    ensures RecordsExtend(st, o.state)
    ensures o.result.AlreadyProcessed? <==> folder.name in processed
  {
    if folder.name in processed then FolderOutcome(st, fs, AlreadyProcessed)
    else
      var found := FindVideoFiles(walk);
      if |found| == 0 then FolderOutcome(AddError(st, folder.Str(), NoFilesReason), fs, NothingFound)
      else
        var r := RunAll(EnqueueAll(st, found), fs, handbrake, found, facts);
        FolderOutcome(r.state, r.files, if r.aborted then Aborted(r.results) else Ran(r.results))
  }

  /** A folder in the skip set changes nothing. */
  lemma SkippedFolderChangesNothing(st: State, fs: set<string>, processed: set<string>, folder: FilePath,
                                    walk: seq<WalkStep>, handbrake: string, facts: FilePath -> ToolFacts)
    requires folder.name in processed
    ensures ProcessFolder(st, fs, processed, folder, walk, handbrake, facts) == FolderOutcome(st, fs, AlreadyProcessed)
  {
  }

  /** A folder without eligible files gets exactly one error record naming the folder;
      the queue, the slot and the completed records are untouched. */
  lemma EmptyFolderRecordsOneError(st: State, fs: set<string>, processed: set<string>, folder: FilePath,
                                   walk: seq<WalkStep>, handbrake: string, facts: FilePath -> ToolFacts)
    requires folder.name !in processed
    requires forall v | v in AllFiles(walk) :: !IsValidSuffix(v.name)
    ensures var o := ProcessFolder(st, fs, processed, folder, walk, handbrake, facts);
      && o.result == NothingFound
      && o.state == st.(errors := st.errors + [ErrorRecord(folder.Str(), NoFilesReason)])
      && o.files == fs
  {
    FindVideoFilesIsEligibleWalk(walk);
    NoneEligible(AllFiles(walk));
  }

  lemma {:induction false} NoneEligible(vs: seq<FilePath>)
    requires forall v | v in vs :: !IsValidSuffix(v.name)
    ensures Eligible(vs) == []
    decreases |vs|
  {
    if |vs| > 0 {
      assert vs[0] in vs;
      forall v | v in vs[1..] ensures v in vs { }
      NoneEligible(vs[1..]);
    }
  }

  /** A folder whose jobs were started ends in the state of the loop over its found
      files, after they were all enqueued. */
  lemma FolderRan(st: State, fs: set<string>, processed: set<string>, folder: FilePath,
                  walk: seq<WalkStep>, handbrake: string, facts: FilePath -> ToolFacts)
    ensures var o := ProcessFolder(st, fs, processed, folder, walk, handbrake, facts);
      var found := FindVideoFiles(walk);
      var r := RunAll(EnqueueAll(st, found), fs, handbrake, found, facts);
      (o.result.Ran? || o.result.Aborted?) ==>
        && |found| > 0 && o.state == r.state && o.result.results == r.results
        && (o.result.Ran? <==> !r.aborted)
  {
  }

  /** When every job returns, as many records were added as files were found (one per
      file, by `FolderRecordsPerFile`), the slot is clear, and the queue is the old queue
      without any entry whose path is a found file's (the new entries are gone again). */
  lemma FolderRunFootprint(st: State, fs: set<string>, processed: set<string>, folder: FilePath,
                           walk: seq<WalkStep>, handbrake: string, facts: FilePath -> ToolFacts)
    requires ProcessFolder(st, fs, processed, folder, walk, handbrake, facts).result.Ran?
    ensures var o := ProcessFolder(st, fs, processed, folder, walk, handbrake, facts);
      var found := FindVideoFiles(walk);
      && |o.result.results| == |found| > 0
      && o.state.current.None?
      && RecordCount(o.state) == RecordCount(st) + |found|
      && |o.state.completed| == |st.completed| + CountTrue(o.result.results)
      && o.state.queue == WithoutAny(st.queue, Paths(found))
      && (forall e | e in o.state.queue :: e in st.queue && e.path !in Paths(found))
  {
    var found := FindVideoFiles(walk);
    var queued := EnqueueAll(st, found);
    var r := RunAll(queued, fs, handbrake, found, facts);
    RunAllSlot(queued, fs, handbrake, found, facts);
    RunAllQueue(queued, fs, handbrake, found, facts);
    FolderRan(st, fs, processed, folder, walk, handbrake, facts);
    QueueAfterFolder(st.queue, found, r.Started(), r.state.queue);
  }

  /** The queue after all n = |vs| jobs of a folder whose files vs were enqueued. */
  lemma QueueAfterFolder(q: seq<QueueEntry>, vs: seq<FilePath>, n: nat, q': seq<QueueEntry>)
    requires n == |vs| && q' == WithoutAny(q + Entries(vs), Paths(vs[..n]))
    ensures q' == WithoutAny(q, Paths(vs))
    ensures forall e | e in q' :: e in q && e.path !in Paths(vs)
  {
    assert vs[..n] == vs;
    WithoutAnyAppend(q, Entries(vs), Paths(vs));
    EntriesRemoved(vs, Paths(vs));
    assert q' == WithoutAny(q, Paths(vs)) + [];
    WithoutAnyMembers(q, Paths(vs));
  }

  /** When the job for file k raises (its input could not be stat'ed), the loop stops:
      the slot still shows that file, one record was added per file before it, and every
      later file whose path differs from the started ones stays queued. */
  lemma FolderAbortFootprint(st: State, fs: set<string>, processed: set<string>, folder: FilePath,
                             walk: seq<WalkStep>, handbrake: string, facts: FilePath -> ToolFacts)
    requires ProcessFolder(st, fs, processed, folder, walk, handbrake, facts).result.Aborted?
    ensures var o := ProcessFolder(st, fs, processed, folder, walk, handbrake, facts);
      var found := FindVideoFiles(walk);
      var k := |o.result.results|;
      && k < |found|
      && o.state.current == Some(CurrentJob(found[k].Str(), 0, "Unknown"))
      && RecordCount(o.state) == RecordCount(st) + k
      && (forall j | k < j < |found| && found[j].Str() !in Paths(found[..k + 1]) ::
            QueueEntry(found[j].Str()) in o.state.queue)
  {
    var found := FindVideoFiles(walk);
    var queued := EnqueueAll(st, found);
    var r := RunAll(queued, fs, handbrake, found, facts);
    RunAllSlot(queued, fs, handbrake, found, facts);
    RunAllQueue(queued, fs, handbrake, found, facts);
    FolderRan(st, fs, processed, folder, walk, handbrake, facts);
    var ps := Paths(found[..r.Started()]);
    WithoutAnyAppend(st.queue, Entries(found), ps);
    WithoutAnyMembers(Entries(found), ps);
    var tail := WithoutAny(Entries(found), ps);
    assert r.state.queue == WithoutAny(st.queue, ps) + tail;
    forall j | r.Started() <= j < |found| && found[j].Str() !in ps
      ensures QueueEntry(found[j].Str()) in r.state.queue
    {
      assert Entries(found)[j] == QueueEntry(found[j].Str());
      assert QueueEntry(found[j].Str()) in tail;
    }
  }

  /** The stored paths of the files whose job returned want, in run order: the job for
      vs[i] returned bs[i]. */
  function Picked(vs: seq<FilePath>, bs: seq<bool>, want: bool): seq<string>
    requires |bs| <= |vs|
    decreases |bs|
  {
    if |bs| == 0 then []
    else (if bs[0] == want then [vs[0].Str()] else []) + Picked(vs[1..], bs[1..], want)
  }

  /** The stored paths of the files that ran, one per result in bs, in order. */
  function RunNames(vs: seq<FilePath>, bs: seq<bool>): (r: seq<string>)
    requires |bs| <= |vs|
    ensures |r| == |bs| && forall i | 0 <= i < |bs| :: r[i] == vs[i].Str()
    decreases |bs|
  {
    if |bs| == 0 then [] else [vs[0].Str()] + RunNames(vs[1..], bs[1..])
  }

  function Inputs(cs: seq<CompletedRecord>): seq<string> {
    seq(|cs|, i requires 0 <= i < |cs| => cs[i].input)
  }

  function ErrorPaths(es: seq<ErrorRecord>): seq<string> {
    seq(|es|, i requires 0 <= i < |es| => es[i].path)
  }

  /** st' keeps the records of st and appends one record per job that returned, in the
      order of the jobs: a completed record for vs[i] when bs[i] is True, an error
      record for it when it is False. */
  ghost predicate RecordsFollowRun(st: State, st': State, vs: seq<FilePath>, bs: seq<bool>)
    requires |bs| <= |vs|
  {
    && RecordsExtend(st, st')
    && Inputs(st'.completed[|st.completed|..]) == Picked(vs, bs, true)
    && ErrorPaths(st'.errors[|st.errors|..]) == Picked(vs, bs, false)
  }

  /** The two kinds of record together name each file that ran exactly once. */
  lemma {:induction false} PickedCoversRun(vs: seq<FilePath>, bs: seq<bool>)
    requires |bs| <= |vs|
    ensures multiset(Picked(vs, bs, true)) + multiset(Picked(vs, bs, false)) == multiset(RunNames(vs, bs))
    decreases |bs|
  {
    if |bs| > 0 {
      var x, t, f := vs[0].Str(), Picked(vs[1..], bs[1..], true), Picked(vs[1..], bs[1..], false);
      PickedCoversRun(vs[1..], bs[1..]);
      ConsCovers(x, t, f, RunNames(vs[1..], bs[1..]));
      if bs[0] {
        assert Picked(vs, bs, true) == [x] + t && Picked(vs, bs, false) == f;
      } else {
        assert Picked(vs, bs, true) == t && Picked(vs, bs, false) == [x] + f;
      }
    }
  }

  /** One more name on either side of a cover. */
  lemma ConsCovers(x: string, a: seq<string>, b: seq<string>, n: seq<string>)
    requires multiset(a) + multiset(b) == multiset(n)
    ensures multiset([x] + a) + multiset(b) == multiset([x] + n)
    ensures multiset(a) + multiset([x] + b) == multiset([x] + n)
  {
  }

  /** Each job that returned appended one record naming its file: a completed record
      exactly when it returned True. The jobs ran in the order of vs. */
  lemma {:induction false} RunAllRecordsFollow(st: State, fs: set<string>, handbrake: string, vs: seq<FilePath>,
                                               facts: FilePath -> ToolFacts)
    ensures var r := RunAll(st, fs, handbrake, vs, facts);
      |r.results| <= |vs| && RecordsFollowRun(st, r.state, vs, r.results)
    decreases |vs|
  {
    if |vs| == 0 {
      var r := RunAll(st, fs, handbrake, vs, facts);
      assert r.state == st;
    } else {
      var o := CompressVideo(st, fs, handbrake, vs[0], facts(vs[0]));
      var rest := RunAll(o.state, o.files, handbrake, vs[1..], facts);
      JobRecordsName(st, fs, handbrake, vs[0], facts(vs[0]));
      RunAllUnfold(st, fs, handbrake, vs, facts);
      RunAllRecordsFollow(o.state, o.files, handbrake, vs[1..], facts);
      RecordsFollowStep(st, vs, o, rest, RunAll(st, fs, handbrake, vs, facts));
    }
  }

  /** The per-file record property of the loop carries over its first turn. */
  lemma RecordsFollowStep(st: State, vs: seq<FilePath>, o: JobOutcome, rest: Run, r: Run)
    requires |vs| > 0 && OneRecordPerReturn(st, o) && NewRecordsName(st, o.state, vs[0].Str())
    requires |rest.results| <= |vs| - 1 && RecordsFollowRun(o.state, rest.state, vs[1..], rest.results)
    requires o.verdict.Raised? ==> r == Run(o.state, o.files, [], true)
    requires o.verdict.Returned? ==> r == Continued(o, rest)
    ensures |r.results| <= |vs| && RecordsFollowRun(st, r.state, vs, r.results)
  {
    var n, m := |st.completed|, |st.errors|;
    if o.verdict.Raised? {
      assert o.state.completed == o.state.completed[..n] == st.completed;
      assert o.state.errors == o.state.errors[..m] == st.errors;
    } else {
      RecordsExtendTransitive(st, o.state, rest.state);
      var c, e := rest.state.completed, rest.state.errors;
      assert c[..|o.state.completed|] == o.state.completed;
      assert e[..|o.state.errors|] == o.state.errors;
      if o.verdict.ok {
        assert o.state.errors == o.state.errors[..m] == st.errors;
        assert o.state.completed[n].input == vs[0].Str();
        assert c[n..] == [c[n]] + c[n + 1..];
        assert c[n] == o.state.completed[n];
      } else {
        assert o.state.completed == o.state.completed[..n] == st.completed;
        assert o.state.errors[m].path == vs[0].Str();
        assert e[m..] == [e[m]] + e[m + 1..];
        assert e[m] == o.state.errors[m];
      }
    }
  }

  /** Once `process_folder` has run its jobs, whether all of them or up to the one that
      raised, each found file whose job returned has exactly one new record naming it,
      in the order of the files, and no other record was added: a completed record
      when the job returned True, an error record when it returned False. */
  lemma FolderRecordsPerFile(st: State, fs: set<string>, processed: set<string>, folder: FilePath,
                             walk: seq<WalkStep>, handbrake: string, facts: FilePath -> ToolFacts)
    ensures var o := ProcessFolder(st, fs, processed, folder, walk, handbrake, facts);
      var found := FindVideoFiles(walk);
      (o.result.Ran? || o.result.Aborted?) ==>
        && |o.result.results| <= |found|
        && RecordsFollowRun(st, o.state, found, o.result.results)
        && multiset(Picked(found, o.result.results, true)) + multiset(Picked(found, o.result.results, false))
           == multiset(RunNames(found, o.result.results))
  {
    var found := FindVideoFiles(walk);
    var queued := EnqueueAll(st, found);
    var r := RunAll(queued, fs, handbrake, found, facts);
    FolderRan(st, fs, processed, folder, walk, handbrake, facts);
    RunAllRecordsFollow(queued, fs, handbrake, found, facts);
    PickedCoversRun(found, r.results);
  }

  /** Every record st' has beyond those of st names a path in ps. */
  ghost predicate NewRecordsAmong(st: State, st': State, ps: set<string>) {
    && (forall i | |st.errors| <= i < |st'.errors| :: st'.errors[i].path in ps)
    && (forall i | |st.completed| <= i < |st'.completed| :: st'.completed[i].input in ps)
  }

  /** Every record `process_folder` appends names the folder or one of the found files.
      `LoggedFilesGetNoRecord` draws the consequence for the files only logged. */
  lemma FolderRecordsNameFoundFiles(st: State, fs: set<string>, processed: set<string>, folder: FilePath,
                                    walk: seq<WalkStep>, handbrake: string, facts: FilePath -> ToolFacts)
    ensures NewRecordsAmong(st, ProcessFolder(st, fs, processed, folder, walk, handbrake, facts).state,
                            Paths(FindVideoFiles(walk)) + {folder.Str()})
  {
    var found := FindVideoFiles(walk);
    if folder.name !in processed && |found| > 0 {
      RunAllRecordsName(EnqueueAll(st, found), fs, handbrake, found, facts);
    }
  }

  /** No file only logged shares its stored path with a file found: the gate gives the
      same answer to both names, however the path text splits into directory and name. */
  lemma WarnedPathsAreNotFound(walk: seq<WalkStep>)
    ensures forall v, u | v in SkippedWithWarning(walk) && u in FindVideoFiles(walk) :: v.Str() != u.Str()
  {
    forall v, u | v in SkippedWithWarning(walk) && u in FindVideoFiles(walk)
      ensures v.Str() != u.Str()
    {
      if v.Str() == u.Str() {
        SamePathSameVerdict(v, u);
      }
    }
  }

  /** A file skipped with a warning gets no record of its own from `process_folder`:
      neither an error nor a completed record names its path. The requirement holds of
      every `os.walk(folder)`, whose files lie strictly below the folder. */
  lemma LoggedFilesGetNoRecord(st: State, fs: set<string>, processed: set<string>, folder: FilePath,
                               walk: seq<WalkStep>, handbrake: string, facts: FilePath -> ToolFacts)
    requires forall w | w in AllFiles(walk) :: w.Str() != folder.Str()
    ensures var st' := ProcessFolder(st, fs, processed, folder, walk, handbrake, facts).state;
      forall v | v in SkippedWithWarning(walk) ::
        && (forall i | |st.errors| <= i < |st'.errors| :: st'.errors[i].path != v.Str())
        && (forall i | |st.completed| <= i < |st'.completed| :: st'.completed[i].input != v.Str())
  {
    FolderRecordsNameFoundFiles(st, fs, processed, folder, walk, handbrake, facts);
    NewRecordsAvoidLogged(st, ProcessFolder(st, fs, processed, folder, walk, handbrake, facts).state, folder, walk);
  }

  lemma NewRecordsAvoidLogged(st: State, st': State, folder: FilePath, walk: seq<WalkStep>)
    requires forall w | w in AllFiles(walk) :: w.Str() != folder.Str()
    requires NewRecordsAmong(st, st', Paths(FindVideoFiles(walk)) + {folder.Str()})
    ensures forall v | v in SkippedWithWarning(walk) ::
      && (forall i | |st.errors| <= i < |st'.errors| :: st'.errors[i].path != v.Str())
      && (forall i | |st.completed| <= i < |st'.completed| :: st'.completed[i].input != v.Str())
  {
    var ps := Paths(FindVideoFiles(walk)) + {folder.Str()};
    forall v | v in SkippedWithWarning(walk)
      ensures && (forall i | |st.errors| <= i < |st'.errors| :: st'.errors[i].path != v.Str())
              && (forall i | |st.completed| <= i < |st'.completed| :: st'.completed[i].input != v.Str())
    {
      LoggedPathNotAmong(walk, folder, v);
      NewRecordsAvoid(st, st', ps, v.Str());
    }
  }

  lemma LoggedPathNotAmong(walk: seq<WalkStep>, folder: FilePath, v: FilePath)
    requires forall w | w in AllFiles(walk) :: w.Str() != folder.Str()
    requires v in SkippedWithWarning(walk)
    ensures v.Str() !in Paths(FindVideoFiles(walk)) + {folder.Str()}
  {
    var found := FindVideoFiles(walk);
    WarnedPathsAreNotFound(walk);
    PathsAreTheFiles(found);
  }

  lemma NewRecordsAvoid(st: State, st': State, ps: set<string>, p: string)
    requires NewRecordsAmong(st, st', ps) && p !in ps
    ensures forall i | |st.errors| <= i < |st'.errors| :: st'.errors[i].path != p
    ensures forall i | |st.completed| <= i < |st'.completed| :: st'.completed[i].input != p
  {
  }

  /** Every record the loop appends names one of the files it ran. */
  lemma RunAllRecordsName(st: State, fs: set<string>, handbrake: string, vs: seq<FilePath>,
                          facts: FilePath -> ToolFacts)
    ensures NewRecordsAmong(st, RunAll(st, fs, handbrake, vs, facts).state, Paths(vs))
  {
    var r := RunAll(st, fs, handbrake, vs, facts);
    RunAllRecordsFollow(st, fs, handbrake, vs, facts);
    FollowedRecordsAmong(st, r.state, vs, r.results);
  }

  /** Records that follow a run name files of the run. */
  lemma FollowedRecordsAmong(st: State, st': State, vs: seq<FilePath>, bs: seq<bool>)
    requires |bs| <= |vs| && RecordsFollowRun(st, st', vs, bs)
    ensures NewRecordsAmong(st, st', Paths(vs))
  {
    PickedInPaths(vs, bs, true);
    PickedInPaths(vs, bs, false);
    FollowedErrorsAmong(st.errors, st'.errors, Picked(vs, bs, false), Paths(vs));
    FollowedCompletedAmong(st.completed, st'.completed, Picked(vs, bs, true), Paths(vs));
  }

  lemma FollowedErrorsAmong(e0: seq<ErrorRecord>, e1: seq<ErrorRecord>, picked: seq<string>, ps: set<string>)
    requires |e0| <= |e1| && ErrorPaths(e1[|e0|..]) == picked
    requires forall p | p in picked :: p in ps
    ensures forall i | |e0| <= i < |e1| :: e1[i].path in ps
  {
    forall i | |e0| <= i < |e1| ensures e1[i].path in ps {
      assert picked[i - |e0|] == e1[i].path;
    }
  }

  lemma FollowedCompletedAmong(c0: seq<CompletedRecord>, c1: seq<CompletedRecord>, picked: seq<string>, ps: set<string>)
    requires |c0| <= |c1| && Inputs(c1[|c0|..]) == picked
    requires forall p | p in picked :: p in ps
    ensures forall i | |c0| <= i < |c1| :: c1[i].input in ps
  {
    forall i | |c0| <= i < |c1| ensures c1[i].input in ps {
      assert picked[i - |c0|] == c1[i].input;
    }
  }

  /** Only paths of files that ran are picked. */
  lemma {:induction false} PickedInPaths(vs: seq<FilePath>, bs: seq<bool>, want: bool)
    requires |bs| <= |vs|
    ensures forall p | p in Picked(vs, bs, want) :: p in Paths(vs)
    decreases |bs|
  {
    if |bs| > 0 {
      PickedInPaths(vs[1..], bs[1..], want);
    }
  }
}
