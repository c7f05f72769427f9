/** Safety of every interleaving of the transfer protocol. */
module TransferSafety {
  import opened Sums
  import opened Transfer

  // ---------------------------------------------------------------------------
  // Replacing one file, and waking one waiter, conjunct by conjunct

  /** `t` is `s` with file i replaced by `f`; counters and main thread are unconstrained. */
  predicate Replaces(s: State, t: State, i: nat, f: File) {
    i < |s.files| && t.files == s.files[i := f] && t.started == s.started && f.num == s.files[i].num
  }

  lemma FilesKept(c: Config, s: State, t: State, i: nat, f: File)
    requires FilesOk(c, s) && Replaces(s, t, i, f) && FileOk(c, f)
    requires f.stage.Unsubmitted? <==> s.files[i].stage.Unsubmitted?
    ensures FilesOk(c, t)
  {
  }

  lemma CountersKept(c: Config, s: State, t: State, i: nat, f: File)
    requires CountersOk(c, s) && i < |s.files| && t.files == s.files[i := f]
    requires t.inQueue == s.inQueue - Outstanding(s.files[i]) + Outstanding(f)
    requires t.completed == s.completed - IsDone(s.files[i]) + IsDone(f)
    requires InNetworkPool(f) <= InNetworkPool(s.files[i])
             || Total(InNetworkPool, s.files) + InNetworkPool(f) <= c.maxConcurrency + InNetworkPool(s.files[i])
    requires InPreprocessPool(f) <= InPreprocessPool(s.files[i]) || Total(InPreprocessPool, s.files) < c.ioLimit
    requires InPostprocessPool(f) <= InPostprocessPool(s.files[i]) || Total(InPostprocessPool, s.files) < c.ioLimit
    ensures CountersOk(c, t)
  {
    TotalUpdate(Outstanding, s.files, i, f);
    TotalUpdate(IsDone, s.files, i, f);
    TotalUpdate(InNetworkPool, s.files, i, f);
    TotalUpdate(InPreprocessPool, s.files, i, f);
    TotalUpdate(InPostprocessPool, s.files, i, f);
  }

  /** The gate's waiters are left alone: nobody starts waiting, no notification is consumed. */
  lemma GateKept(c: Config, s: State, t: State, i: nat, f: File)
    requires SomeWaiting(s) && GateOpen(c, s) ==> SomeNotified(s)
    requires i < |s.files| && t.files == s.files[i := f] && t.inQueue == s.inQueue
    requires !f.stage.Waiting? && !s.files[i].stage.Notified?
    ensures SomeWaiting(t) && GateOpen(c, t) ==> SomeNotified(t)
  {
    if SomeWaiting(t) && GateOpen(c, t) {
      var k :| 0 <= k < |t.files| && t.files[k].stage.Waiting?;
      assert s.files[k].stage.Waiting?;
      var j :| 0 <= j < |s.files| && s.files[j].stage.Notified?;
      assert t.files[j].stage.Notified?;
    }
  }

  /** Waking a waiter keeps the files and the counters, and someone is notified if anyone still waits. */
  lemma WakeKept(c: Config, s: State, t: State, wake: nat)
    requires FilesOk(c, s) && CountersOk(c, s) && MayWake(s.files, wake)
    requires t == s.(files := Wake(s.files, wake))
    ensures FilesOk(c, t) && CountersOk(c, t)
    ensures SomeWaiting(t) ==> SomeNotified(t)
  {
    if wake < |s.files| && s.files[wake].stage.Waiting? {
      var f := s.files[wake].(stage := Notified);
      FilesKept(c, s, t, wake, f);
      CountersKept(c, s, t, wake, f);
      assert t.files[wake].stage.Notified?;
    } else {
      assert t.files == s.files;
    }
  }

  lemma DoneBound(files: seq<File>)
    ensures Total(IsDone, files) <= |files|
  {
    TotalBounds(IsDone, files, 1);
  }

  // ---------------------------------------------------------------------------
  // The steps

  lemma InitSafe(c: Config)
    requires c.Valid()
    ensures Inv(c, Init(c))
  {
    assert FilesOk(c, Init(c));
    assert CountersOk(c, Init(c)) by {
      var files := Init(c).files;
      TotalAllEqual(Outstanding, files, 0);
      TotalAllEqual(IsDone, files, 0);
      TotalAllEqual(InNetworkPool, files, 0);
      TotalAllEqual(InPreprocessPool, files, 0);
      TotalAllEqual(InPostprocessPool, files, 0);
    }
    assert WaitersOk(c, Init(c));
    assert QueueBounded(c, Init(c)) by {
      assert Init(c).inQueue <= 2 * c.maxConcurrency + c.chunks[0];
    }
  }

  /** A step that completes file i. */
  lemma CompleteSafe(c: Config, s: State, i: nat, f: File)
    requires Inv(c, s) && i < |s.files|
    requires !s.files[i].stage.Done? && !s.files[i].stage.Unsubmitted? && !s.files[i].stage.Notified?
    requires Outstanding(s.files[i]) == 0
    requires f.num == s.files[i].num && Settled(c, f)
    ensures Inv(c, Complete(s, i, f))
  {
    var t, g := Complete(s, i, f), f.(stage := Done);
    FilesKept(c, s, t, i, g);
    CountersKept(c, s, t, i, g);
    GateKept(c, s, t, i, g);
    DoneBound(t.files);
    assert QueueBounded(c, t);
  }

  /** A step that changes one file and leaves the counters and the waiters alone. */
  lemma SetFileSafe(c: Config, s: State, i: nat, f: File)
    requires Inv(c, s) && i < |s.files|
    requires FileOk(c, f) && f.num == s.files[i].num
    requires f.stage.Unsubmitted? <==> s.files[i].stage.Unsubmitted?
    requires !s.files[i].stage.Notified? && !f.stage.Waiting? && IsDone(f) == IsDone(s.files[i])
    requires Outstanding(f) == Outstanding(s.files[i])
    requires InNetworkPool(f) <= InNetworkPool(s.files[i])
             || Total(InNetworkPool, s.files) + InNetworkPool(f) <= c.maxConcurrency + InNetworkPool(s.files[i])
    requires InPreprocessPool(f) <= InPreprocessPool(s.files[i]) || Total(InPreprocessPool, s.files) < c.ioLimit
    requires InPostprocessPool(f) <= InPostprocessPool(s.files[i]) || Total(InPostprocessPool, s.files) < c.ioLimit
    ensures Inv(c, SetFile(s, i, f))
  {
    var t := SetFile(s, i, f);
    FilesKept(c, s, t, i, f);
    CountersKept(c, s, t, i, f);
    GateKept(c, s, t, i, f);
    assert QueueBounded(c, t);
  }

  lemma SubmitSafe(c: Config, s: State)
    requires Inv(c, s) && Enabled(c, s, Submit)
    ensures Inv(c, Apply(c, s, Submit))
  {
    var i, t := s.started, Apply(c, s, Submit);
    var f := s.files[i].(stage := Queued);
    assert FilesOk(c, t);
    CountersKept(c, s, t, i, f);
    GateKept(c, s, t, i, f);
    assert QueueBounded(c, t);
  }

  // What each step does to the file it handles.

  lemma FilePrepares(c: Config, f: File)
    requires FileOk(c, f) && f.stage.Preparing?
    ensures Settled(c, PreparationFailed(c, f))
    ensures c.upload ==> Settled(c, f.(preparation := Skipped, status := SkippedStatus))
    ensures FileOk(c, f.(preparation := Succeeded, stage := Ready))
    ensures Outstanding(f) == 0
  {
  }

  lemma FileChunks(c: Config, f: File)
    requires FileOk(c, f) && f.toRun + f.running + f.releasing > 0
    ensures f.stage.Transferring?
    ensures f.toRun > 0 ==> FileOk(c, ChunkStarted(f))
    ensures f.running > 0 ==> FileOk(c, ChunkReleased(f))
  {
  }

  lemma FileCounts(c: Config, f: File, success: bool)
    requires FileOk(c, f) && f.releasing > 0
    ensures f.stage.Transferring? && Outstanding(ChunkCounted(f, success)) == Outstanding(f)
    ensures var g := ChunkCounted(f, success);
            g.succeeded + g.failed != g.num ==> FileOk(c, g)
    ensures var g := ChunkCounted(f, success);
            g.succeeded + g.failed == g.num ==>
              && Outstanding(f) == 0
              && (c.upload ==> Settled(c, g.(finishes := g.finishes + 1, status := UploadStatus(g))))
              && (!c.upload ==> FileOk(c, g.(stage := PostQueued)))
  {
  }

  lemma FilePosts(c: Config, f: File, success: bool)
    requires FileOk(c, f) && (f.stage.PostQueued? || f.stage.PostRunning?)
    ensures FileOk(c, f.(stage := PostRunning))
    ensures Settled(c, PostFinished(f, success))
    ensures Outstanding(f) == 0 && InNetworkPool(f) == 0
  {
  }

  lemma FileAtGate(c: Config, f: File)
    requires FileOk(c, f) && (f.stage.Ready? || f.stage.Notified?)
    ensures FileOk(c, f.(stage := Waiting)) && FileOk(c, AllSubmitted(f))
    ensures NoChunks(f)
  {
  }

  lemma PreparedSafe(c: Config, s: State, step: Step)
    requires Inv(c, s) && Enabled(c, s, step)
    requires step.PrepareFails? || step.PrepareSkips? || step.PrepareSucceeds?
    ensures Inv(c, Apply(c, s, step))
  {
    var f := s.files[step.file];
    FilePrepares(c, f);
    match step
    case PrepareFails(i) => CompleteSafe(c, s, i, PreparationFailed(c, f));
    case PrepareSkips(i) => CompleteSafe(c, s, i, f.(preparation := Skipped, status := SkippedStatus));
    case PrepareSucceeds(i) => SetFileSafe(c, s, i, f.(preparation := Succeeded, stage := Ready));
  }

  lemma StartedSafe(c: Config, s: State, step: Step)
    requires Inv(c, s) && Enabled(c, s, step)
    requires step.StartPrepare? || step.StartChunk? || step.StartPost?
    ensures Inv(c, Apply(c, s, step))
  {
    var f := s.files[step.file];
    match step
    case StartPrepare(i) => SetFileSafe(c, s, i, f.(stage := Preparing));
    case StartChunk(i) =>
      FileChunks(c, f);
      SetFileSafe(c, s, i, ChunkStarted(f));
    case StartPost(i) =>
      FilePosts(c, f, true);
      SetFileSafe(c, s, i, f.(stage := PostRunning));
  }

  /** A step that changes one file and the queue counter, then notifies one waiter. */
  lemma NotifySafe(c: Config, s: State, t: State, i: nat, g: File, wake: nat)
    requires Inv(c, s) && i < |s.files| && MayWake(s.files, wake)
    requires t == s.(files := Wake(s.files[i := g], wake),
                     inQueue := s.inQueue - Outstanding(s.files[i]) + Outstanding(g))
    requires FileOk(c, g) && g.num == s.files[i].num && g.stage.Transferring?
    requires !s.files[i].stage.Unsubmitted? && !s.files[i].stage.Waiting? && !s.files[i].stage.Done?
    requires InNetworkPool(g) <= InNetworkPool(s.files[i])
    requires QueueBounded(c, t)
    ensures Inv(c, t)
  {
    var mid := t.(files := s.files[i := g]);
    FilesKept(c, s, mid, i, g);
    CountersKept(c, s, mid, i, g);
    assert MayWake(mid.files, wake) by {
      assert forall j :: 0 <= j < |mid.files| && mid.files[j].stage.Waiting? ==> s.files[j].stage.Waiting?;
    }
    WakeKept(c, mid, t, wake);
  }

  /** A worker that finds the gate open submits its chunks and notifies. */
  lemma GateOpenSafe(c: Config, s: State, i: nat, wake: nat)
    requires Inv(c, s) && Enabled(c, s, EnterGate(i, wake)) && GateOpen(c, s)
    ensures Inv(c, PassGate(s, i, wake))
  {
    var t, f := PassGate(s, i, wake), s.files[i];
    assert FileOk(c, f) && f.num == c.chunks[i];
    FileAtGate(c, f);
    assert t.inQueue <= 2 * c.maxConcurrency + c.chunks[i];
    NotifySafe(c, s, t, i, AllSubmitted(f), wake);
  }

  /** A worker that finds the gate closed waits; it may have used up a notification. */
  lemma GateClosedSafe(c: Config, s: State, i: nat, wake: nat)
    requires Inv(c, s) && Enabled(c, s, EnterGate(i, wake)) && !GateOpen(c, s)
    ensures Inv(c, SetFile(s, i, s.files[i].(stage := Waiting)))
  {
    var t, f := SetFile(s, i, s.files[i].(stage := Waiting)), s.files[i];
    assert FileOk(c, f);
    FileAtGate(c, f);
    FilesKept(c, s, t, i, f.(stage := Waiting));
    CountersKept(c, s, t, i, f.(stage := Waiting));
    assert QueueBounded(c, t);
  }

  lemma ReleaseSafe(c: Config, s: State, i: nat, wake: nat)
    requires Inv(c, s) && Enabled(c, s, ReleaseChunk(i, wake))
    ensures Inv(c, Apply(c, s, ReleaseChunk(i, wake)))
  {
    var t := Apply(c, s, ReleaseChunk(i, wake));
    FileChunks(c, s.files[i]);
    var k :| 0 <= k < |c.chunks| && s.inQueue <= 2 * c.maxConcurrency + c.chunks[k];
    assert t.inQueue <= 2 * c.maxConcurrency + c.chunks[k];
    NotifySafe(c, s, t, i, ChunkReleased(s.files[i]), wake);
  }

  lemma CountSafe(c: Config, s: State, i: nat, success: bool)
    requires Inv(c, s) && i < |s.files| && s.files[i].releasing > 0
    ensures Inv(c, AfterCount(c, s, i, ChunkCounted(s.files[i], success)))
  {
    var f, g := s.files[i], ChunkCounted(s.files[i], success);
    assert FileOk(c, f);
    FileCounts(c, f, success);
    assert InNetworkPool(g) + 1 == InNetworkPool(f);
    if g.succeeded + g.failed != g.num {
      SetFileSafe(c, s, i, g);
    } else if c.upload {
      CompleteSafe(c, s, i, g.(finishes := g.finishes + 1, status := UploadStatus(g)));
    } else {
      SetFileSafe(c, s, i, g.(stage := PostQueued));
    }
  }

  lemma FinishPostSafe(c: Config, s: State, i: nat, success: bool)
    requires Inv(c, s) && Enabled(c, s, FinishPost(i, success))
    ensures Inv(c, Apply(c, s, FinishPost(i, success)))
  {
    FilePosts(c, s.files[i], success);
    CompleteSafe(c, s, i, PostFinished(s.files[i], success));
  }

  lemma TestSafe(c: Config, s: State)
    requires Inv(c, s) && Enabled(c, s, TestCompleted)
    ensures Inv(c, Apply(c, s, TestCompleted))
  {
    var t := Apply(c, s, TestCompleted);
    DoneBound(s.files);
    assert FilesOk(c, t) && CountersOk(c, t) && QueueBounded(c, t);
  }

  /** Every step of every thread keeps the invariant. */
  lemma StepSafe(c: Config, s: State, step: Step)
    requires Inv(c, s) && Enabled(c, s, step)
    ensures Inv(c, Apply(c, s, step))
  {
    match step
    case Submit => SubmitSafe(c, s);
    case StartPrepare(_) => StartedSafe(c, s, step);
    case PrepareFails(_) => PreparedSafe(c, s, step);
    case PrepareSkips(_) => PreparedSafe(c, s, step);
    case PrepareSucceeds(_) => PreparedSafe(c, s, step);
    case EnterGate(i, wake) =>
      if GateOpen(c, s) { GateOpenSafe(c, s, i, wake); } else { GateClosedSafe(c, s, i, wake); }
    case StartChunk(_) => StartedSafe(c, s, step);
    case ReleaseChunk(i, wake) => ReleaseSafe(c, s, i, wake);
    case CountChunk(i, success) => CountSafe(c, s, i, success);
    case StartPost(_) => StartedSafe(c, s, step);
    case FinishPost(i, success) => FinishPostSafe(c, s, i, success);
    case TestCompleted => TestSafe(c, s);
  }

  lemma {:induction false} RunSafe(c: Config, run: seq<Step>)
    requires c.Valid() && IsRun(c, run)
    ensures Inv(c, After(c, run))
    decreases |run|
  {
    if run == [] {
      InitSafe(c);
    } else {
      RunSafe(c, run[..|run| - 1]);
      StepSafe(c, After(c, run[..|run| - 1]), run[|run| - 1]);
    }
  }

  /** No stranded waiter, in every reachable state: a worker waits un-notified before an open gate
      only if another one has been notified; the main thread waits only while files are missing. The
      queue counter is the number of chunks submitted and not called back, and the gate bounds it. */
  lemma NoStrandedWaiter(c: Config, run: seq<Step>, i: nat)
    requires c.Valid() && IsRun(c, run) && i < |After(c, run).files|
    ensures var s := After(c, run);
            && (s.files[i].stage.Waiting? && s.inQueue <= 2 * c.maxConcurrency ==>
                  exists j :: 0 <= j < |s.files| && j != i && s.files[j].stage.Notified?)
            && (s.main.MainWaiting? ==> s.completed < |s.files|)
            && s.inQueue == Total(Outstanding, s.files)
            && exists k :: 0 <= k < |c.chunks| && s.inQueue <= 2 * c.maxConcurrency + c.chunks[k]
  {
    RunSafe(c, run);
    var s := After(c, run);
    if s.files[i].stage.Waiting? && GateOpen(c, s) {
      assert SomeWaiting(s);
      var j :| 0 <= j < |s.files| && s.files[j].stage.Notified?;
      assert j != i;
    }
  }
}
