/** The parallel transfer protocol of `SnowflakeFileTransferAgent.transfer` as a step
    relation. A step is one critical section, or one hand-over between a pool's queue
    and one of its workers; a run is any interleaving of steps.

    Preprocess workers are identified with the file they carry. `Waiting` is a worker
    inside `cv_chunk_process.wait()`, `Notified` one that has been notified but has not
    re-acquired the lock yet. */
module Transfer {
  import opened Sums

  /** `maxConcurrency` is the size of the network pool, `ioLimit` that of the two other
      pools, and `chunks[i]` the number of chunks preparing file i comes to. */
  datatype Config = Config(upload: bool, maxConcurrency: nat, ioLimit: nat, chunks: seq<nat>) {
    // ThreadPoolExecutor refuses a pool of size zero, and the pools are sized by the file count.
    predicate Valid() {
      maxConcurrency >= 1 && ioLimit >= 1 && |chunks| >= 1
    }
  }

  datatype Stage =
    | Unsubmitted | Queued | Preparing | Ready | Waiting | Notified
    | Transferring | PostQueued | PostRunning | Done

  datatype Preparation = Pending | Failed | Skipped | Succeeded

  datatype Post = NotRun | Returned | Raised

  datatype Status = Unset | Uploaded | Downloaded | SkippedStatus | Error

  /** A storage client: where the file is in the pipeline, its chunks by position
      (queued, running, called back but not yet counted, counted), how often its finish
      action ran, and the result status of its meta. */
  datatype File = File(
    num: nat, stage: Stage,
    toRun: nat, running: nat, releasing: nat, succeeded: nat, failed: nat,
    preparation: Preparation, post: Post, finishes: nat, status: Status)

  datatype Main = Submitting | Testing | MainWaiting | MainNotified | MainReturned

  datatype State = State(files: seq<File>, started: nat, completed: nat, inQueue: int, main: Main)

  datatype Step =
    | Submit
    | StartPrepare(file: nat)
    | PrepareFails(file: nat)
    | PrepareSkips(file: nat)
    | PrepareSucceeds(file: nat)
    | EnterGate(file: nat, wake: nat)
    | StartChunk(file: nat)
    | ReleaseChunk(file: nat, wake: nat)
    | CountChunk(file: nat, success: bool)
    | StartPost(file: nat)
    | FinishPost(file: nat, success: bool)
    | TestCompleted

  function FreshFile(num: nat): File {
    File(num, Unsubmitted, 0, 0, 0, 0, 0, Pending, NotRun, 0, Unset)
  }

  function Init(c: Config): State {
    State(seq(|c.chunks|, i requires 0 <= i < |c.chunks| => FreshFile(c.chunks[i])), 0, 0, 0, Submitting)
  }

  // What each file contributes to the shared counters and to the occupancy of the pools.
  function Outstanding(f: File): nat { f.toRun + f.running }
  function InNetworkPool(f: File): nat { f.running + f.releasing }
  function InPreprocessPool(f: File): nat {
    if f.stage.Preparing? || f.stage.Ready? || f.stage.Waiting? || f.stage.Notified? then 1 else 0
  }
  function InPostprocessPool(f: File): nat { if f.stage.PostRunning? then 1 else 0 }
  function IsDone(f: File): nat { if f.stage.Done? then 1 else 0 }
  function IsNotified(f: File): nat { if f.stage.Notified? then 1 else 0 }

  predicate GateOpen(c: Config, s: State) {
    s.inQueue <= 2 * c.maxConcurrency
  }

  /** `notify()` wakes one waiter, whichever, if there is one. */
  predicate MayWake(files: seq<File>, wake: nat) {
    (exists i :: 0 <= i < |files| && files[i].stage.Waiting?) ==> wake < |files| && files[wake].stage.Waiting?
  }

  function Wake(files: seq<File>, wake: nat): seq<File> {
    if wake < |files| && files[wake].stage.Waiting?
    then files[wake := files[wake].(stage := Notified)]
    else files
  }

  /** The status `finish_upload` leaves in the meta. */
  function UploadStatus(f: File): Status {
    if f.succeeded == f.num && f.num != 0 then Uploaded else Error
  }

  /** The status `finish_download` leaves: it is set before the steps that can raise
      when every chunk arrived, and after them otherwise. */
  function DownloadStatus(f: File, raised: bool): Status {
    if f.succeeded == f.num && f.num != 0 then Downloaded
    else if raised then f.status
    else Error
  }

  function NotifyMain(main: Main): Main {
    if main.MainWaiting? then MainNotified else main
  }

  /** File i is replaced by its final form and `notify_file_completed` runs. */
  function Complete(s: State, i: nat, f: File): State
    requires i < |s.files|
  {
    s.(files := s.files[i := f.(stage := Done)], completed := s.completed + 1, main := NotifyMain(s.main))
  }

  ghost predicate Enabled(c: Config, s: State, step: Step) {
    match step
    case Submit => s.main.Submitting? && s.started < |s.files|
    case StartPrepare(i) =>
      i < |s.files| && s.files[i].stage.Queued? && Total(InPreprocessPool, s.files) < c.ioLimit
    case PrepareFails(i) => i < |s.files| && s.files[i].stage.Preparing?
    case PrepareSkips(i) => i < |s.files| && s.files[i].stage.Preparing? && c.upload
    case PrepareSucceeds(i) => i < |s.files| && s.files[i].stage.Preparing?
    case EnterGate(i, wake) =>
      i < |s.files| && (s.files[i].stage.Ready? || s.files[i].stage.Notified?) && MayWake(s.files, wake)
    case StartChunk(i) =>
      i < |s.files| && s.files[i].toRun > 0 && Total(InNetworkPool, s.files) < c.maxConcurrency
    case ReleaseChunk(i, wake) => i < |s.files| && s.files[i].running > 0 && MayWake(s.files, wake)
    case CountChunk(i, _) => i < |s.files| && s.files[i].releasing > 0
    case StartPost(i) =>
      i < |s.files| && s.files[i].stage.PostQueued? && Total(InPostprocessPool, s.files) < c.ioLimit
    case FinishPost(i, _) => i < |s.files| && s.files[i].stage.PostRunning?
    case TestCompleted => s.main.Testing? || s.main.MainNotified?
  }

  ghost function Apply(c: Config, s: State, step: Step): State
    requires Enabled(c, s, step)
  {
    match step
    case Submit =>
      s.(files := s.files[s.started := s.files[s.started].(stage := Queued)],
         started := s.started + 1,
         main := if s.started + 1 == |s.files| then Testing else Submitting)
    case StartPrepare(i) => SetFile(s, i, s.files[i].(stage := Preparing))
    case PrepareFails(i) => Complete(s, i, PreparationFailed(c, s.files[i]))
    case PrepareSkips(i) => Complete(s, i, s.files[i].(preparation := Skipped, status := SkippedStatus))
    case PrepareSucceeds(i) => SetFile(s, i, s.files[i].(preparation := Succeeded, stage := Ready))
    case EnterGate(i, wake) =>
      if GateOpen(c, s) then PassGate(s, i, wake) else SetFile(s, i, s.files[i].(stage := Waiting))
    case StartChunk(i) => SetFile(s, i, ChunkStarted(s.files[i]))
    case ReleaseChunk(i, wake) =>
      s.(files := Wake(s.files[i := ChunkReleased(s.files[i])], wake), inQueue := s.inQueue - 1)
    case CountChunk(i, success) => AfterCount(c, s, i, ChunkCounted(s.files[i], success))
    case StartPost(i) => SetFile(s, i, s.files[i].(stage := PostRunning))
    case FinishPost(i, success) => Complete(s, i, PostFinished(s.files[i], success))
    case TestCompleted =>
      s.(main := if s.completed < |s.files| then MainWaiting else MainReturned)
  }

  function SetFile(s: State, i: nat, f: File): State
    requires i < |s.files|
  {
    s.(files := s.files[i := f])
  }

  /** A failed preparation still runs the finish action before the file is reported complete. */
  function PreparationFailed(c: Config, f: File): File {
    f.(preparation := Failed, finishes := f.finishes + 1,
       status := if c.upload then UploadStatus(f) else DownloadStatus(f, false))
  }

  function AllSubmitted(f: File): File {
    f.(stage := Transferring, toRun := f.num)
  }

  /** All chunks of the file are submitted, then one waiter is notified. */
  function PassGate(s: State, i: nat, wake: nat): State
    requires i < |s.files|
  {
    s.(files := Wake(s.files[i := AllSubmitted(s.files[i])], wake), inQueue := s.inQueue + s.files[i].num)
  }

  function ChunkStarted(f: File): File
    requires f.toRun > 0
  {
    f.(toRun := f.toRun - 1, running := f.running + 1)
  }

  /** The chunk callback's first critical section, under `cv_chunk_process`. */
  function ChunkReleased(f: File): File
    requires f.running > 0
  {
    f.(running := f.running - 1, releasing := f.releasing + 1)
  }

  /** The chunk callback's second critical section, under the client's own lock. */
  function ChunkCounted(f: File, success: bool): File
    requires f.releasing > 0
  {
    if success then f.(releasing := f.releasing - 1, succeeded := f.succeeded + 1)
    else f.(releasing := f.releasing - 1, failed := f.failed + 1)
  }

  /** The callback that counts the last chunk finishes an upload, or queues a download's postprocessing. */
  function AfterCount(c: Config, s: State, i: nat, f: File): State
    requires i < |s.files|
  {
    if f.succeeded + f.failed != f.num then SetFile(s, i, f)
    else if c.upload then Complete(s, i, f.(finishes := f.finishes + 1, status := UploadStatus(f)))
    else SetFile(s, i, f.(stage := PostQueued))
  }

  function PostFinished(f: File, success: bool): File {
    f.(finishes := f.finishes + 1,
       status := DownloadStatus(f, !success),
       failed := if success then f.failed else f.failed + 1,
       post := if success then Returned else Raised)
  }

  // ---------------------------------------------------------------------------
  // Runs

  /** `run` is an interleaving from the initial state in which every step is enabled. */
  ghost predicate IsRun(c: Config, run: seq<Step>)
    decreases |run|, 0
  {
    run == [] ||
    (IsRun(c, run[..|run| - 1]) && Enabled(c, After(c, run[..|run| - 1]), run[|run| - 1]))
  }

  ghost function After(c: Config, run: seq<Step>): State
    requires IsRun(c, run)
    decreases |run|, 1
  {
    if run == [] then Init(c) else Apply(c, After(c, run[..|run| - 1]), run[|run| - 1])
  }

  /** No step is enabled any more. */
  ghost predicate Quiet(c: Config, s: State) {
    forall step :: !Enabled(c, s, step)
  }

  // ---------------------------------------------------------------------------
  // The invariant

  predicate NoChunks(f: File) {
    f.toRun == 0 && f.running == 0 && f.releasing == 0
  }

  /** A file before its chunks are submitted. */
  predicate Untouched(f: File) {
    NoChunks(f) && f.succeeded == 0 && f.failed == 0 && f.finishes == 0 && f.status.Unset? && f.post.NotRun?
  }

  /** What the finish action and the counters must say about a completed file. */
  predicate Settled(c: Config, f: File) {
    && NoChunks(f)
    && match f.preparation
       case Pending => false
       case Failed =>
         f.succeeded == 0 && f.failed == 0 && f.finishes == 1 && f.status.Error? && f.post.NotRun?
       case Skipped =>
         c.upload && f.succeeded == 0 && f.failed == 0 && f.finishes == 0 && f.status.SkippedStatus? && f.post.NotRun?
       case Succeeded =>
         && f.num >= 1 && f.finishes == 1
         && (c.upload <==> f.post.NotRun?)
         && f.succeeded + f.failed == f.num + (if f.post.Raised? then 1 else 0)
         && f.succeeded <= f.num
         && (f.succeeded == f.num ==> f.status == if c.upload then Uploaded else Downloaded)
         && (f.succeeded < f.num ==> f.status == if f.post.Raised? then Unset else Error)
  }

  predicate FileOk(c: Config, f: File) {
    match f.stage
    case Unsubmitted => Untouched(f) && f.preparation.Pending?
    case Queued => Untouched(f) && f.preparation.Pending?
    case Preparing => Untouched(f) && f.preparation.Pending?
    case Ready => Untouched(f) && f.preparation.Succeeded?
    case Waiting => Untouched(f) && f.preparation.Succeeded?
    case Notified => Untouched(f) && f.preparation.Succeeded?
    case Transferring =>
      && f.preparation.Succeeded? && f.finishes == 0 && f.status.Unset? && f.post.NotRun?
      && f.toRun + f.running + f.releasing + f.succeeded + f.failed == f.num
      && (f.num >= 1 ==> f.toRun + f.running + f.releasing > 0)
    case PostQueued => Postprocessing(c, f)
    case PostRunning => Postprocessing(c, f)
    case Done => Settled(c, f)
  }

  predicate Postprocessing(c: Config, f: File) {
    && !c.upload && NoChunks(f) && f.preparation.Succeeded? && f.finishes == 0
    && f.status.Unset? && f.post.NotRun? && f.num >= 1 && f.succeeded + f.failed == f.num
  }

  predicate SomeWaiting(s: State) {
    exists i :: 0 <= i < |s.files| && s.files[i].stage.Waiting?
  }

  predicate SomeNotified(s: State) {
    exists i :: 0 <= i < |s.files| && s.files[i].stage.Notified?
  }

  predicate FilesOk(c: Config, s: State) {
    && |s.files| == |c.chunks|
    && s.started <= |s.files|
    && forall i :: 0 <= i < |s.files| ==>
         && FileOk(c, s.files[i]) && s.files[i].num == c.chunks[i]
         && (s.files[i].stage.Unsubmitted? <==> s.started <= i)
  }

  ghost predicate CountersOk(c: Config, s: State) {
    && s.inQueue == Total(Outstanding, s.files)
    && s.completed == Total(IsDone, s.files)
    && Total(InNetworkPool, s.files) <= c.maxConcurrency
    && Total(InPreprocessPool, s.files) <= c.ioLimit
    && Total(InPostprocessPool, s.files) <= c.ioLimit
  }

  /** No waiter is stranded: neither a preprocess worker nor the main thread. */
  predicate WaitersOk(c: Config, s: State) {
    && (SomeWaiting(s) && GateOpen(c, s) ==> SomeNotified(s))
    && (s.main.Submitting? <==> s.started < |s.files|)
    && (s.main.MainWaiting? ==> s.completed < |s.files|)
    && (s.main.MainReturned? ==> s.completed == |s.files|)
  }

  predicate QueueBounded(c: Config, s: State) {
    exists i :: 0 <= i < |c.chunks| && s.inQueue <= 2 * c.maxConcurrency + c.chunks[i]
  }

  ghost predicate Inv(c: Config, s: State) {
    FilesOk(c, s) && CountersOk(c, s) && WaitersOk(c, s) && QueueBounded(c, s)
  }
}
