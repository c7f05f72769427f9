/** Progress of the transfer protocol: every interleaving is finite, and it ends with the
    main thread back from its wait exactly when every file has a chunk to transfer. */
module TransferProgress {
  import opened Sums
  import opened Transfer
  import opened TransferSafety

  // ---------------------------------------------------------------------------
  // The measure

  /** The steps a file still has before it, whatever the others do. */
  function Weight(f: File): nat {
    match f.stage
    case Unsubmitted => 3 * f.num + 8
    case Queued => 3 * f.num + 7
    case Preparing => 3 * f.num + 6
    case Ready => 3 * f.num + 5
    case Waiting => 3 * f.num + 4
    case Notified => 3 * f.num + 4
    case Transferring => 3 * f.toRun + 2 * f.running + f.releasing + 3
    case PostQueued => 2
    case PostRunning => 1
    case Done => 0
  }

  ghost function Work(s: State): nat {
    Total(Weight, s.files)
  }

  /** Threads that were woken, or have yet to look, and may go back to waiting. */
  ghost function Wakeups(s: State): nat {
    Total(IsNotified, s.files) + if s.main.Testing? || s.main.MainNotified? then 1 else 0
  }

  ghost predicate Descends(s: State, t: State) {
    Work(t) < Work(s) || (Work(t) == Work(s) && Wakeups(t) < Wakeups(s))
  }

  lemma WakeKeepsWork(files: seq<File>, wake: nat)
    ensures Total(Weight, Wake(files, wake)) == Total(Weight, files)
  {
    if wake < |files| && files[wake].stage.Waiting? {
      TotalUpdate(Weight, files, wake, files[wake].(stage := Notified));
    }
  }

  lemma LighterFile(s: State, t: State, i: nat, f: File)
    requires i < |s.files| && t.files == s.files[i := f] && Weight(f) < Weight(s.files[i])
    ensures Work(t) < Work(s)
  {
    TotalUpdate(Weight, s.files, i, f);
  }

  lemma LighterThenWake(s: State, t: State, i: nat, f: File, wake: nat)
    requires i < |s.files| && t.files == Wake(s.files[i := f], wake) && Weight(f) < Weight(s.files[i])
    ensures Work(t) < Work(s)
  {
    TotalUpdate(Weight, s.files, i, f);
    WakeKeepsWork(s.files[i := f], wake);
  }

  lemma ChunkStepDescends(c: Config, s: State, step: Step)
    requires Inv(c, s) && Enabled(c, s, step) && (step.StartChunk? || step.ReleaseChunk? || step.CountChunk?)
    ensures Work(Apply(c, s, step)) < Work(s)
  {
    var t, f := Apply(c, s, step), s.files[step.file];
    assert f.stage.Transferring? by {
      assert FileOk(c, f);
      FileChunks(c, f);
    }
    match step
    case StartChunk(i) => LighterFile(s, t, i, t.files[i]);
    case ReleaseChunk(i, wake) => LighterThenWake(s, t, i, ChunkReleased(f), wake);
    case CountChunk(i, success) => LighterFile(s, t, i, t.files[i]);
  }

  lemma GateStepDescends(c: Config, s: State, i: nat, wake: nat)
    requires Enabled(c, s, EnterGate(i, wake)) && Inv(c, s)
    ensures Descends(s, Apply(c, s, EnterGate(i, wake)))
  {
    var t, f := Apply(c, s, EnterGate(i, wake)), s.files[i];
    if GateOpen(c, s) {
      assert NoChunks(f) by {
        assert FileOk(c, f);
      }
      LighterThenWake(s, t, i, AllSubmitted(f), wake);
    } else if f.stage.Ready? {
      LighterFile(s, t, i, t.files[i]);
    } else {
      TotalUpdate(Weight, s.files, i, t.files[i]);
      TotalUpdate(IsNotified, s.files, i, t.files[i]);
    }
  }

  lemma PrepareStepDescends(c: Config, s: State, step: Step)
    requires Enabled(c, s, step)
    requires step.StartPrepare? || step.PrepareFails? || step.PrepareSkips? || step.PrepareSucceeds?
    ensures Work(Apply(c, s, step)) < Work(s)
  {
    var t, f := Apply(c, s, step), s.files[step.file];
    match step
    case StartPrepare(i) => LighterFile(s, t, i, f.(stage := Preparing));
    case PrepareFails(i) => LighterFile(s, t, i, PreparationFailed(c, f).(stage := Done));
    case PrepareSkips(i) => LighterFile(s, t, i, f.(preparation := Skipped, status := SkippedStatus, stage := Done));
    case PrepareSucceeds(i) => LighterFile(s, t, i, f.(preparation := Succeeded, stage := Ready));
  }

  lemma PostStepDescends(c: Config, s: State, step: Step)
    requires Enabled(c, s, step) && (step.StartPost? || step.FinishPost?)
    ensures Work(Apply(c, s, step)) < Work(s)
  {
    var t, f := Apply(c, s, step), s.files[step.file];
    match step
    case StartPost(i) => LighterFile(s, t, i, f.(stage := PostRunning));
    case FinishPost(i, success) => LighterFile(s, t, i, PostFinished(f, success).(stage := Done));
  }

  lemma SubmitDescends(c: Config, s: State)
    requires FilesOk(c, s) && Enabled(c, s, Submit)
    ensures Work(Apply(c, s, Submit)) < Work(s)
  {
    var f := s.files[s.started];
    assert f.stage.Unsubmitted?;
    LighterFile(s, Apply(c, s, Submit), s.started, f.(stage := Queued));
  }

  lemma TestDescends(c: Config, s: State)
    requires Enabled(c, s, TestCompleted)
    ensures Descends(s, Apply(c, s, TestCompleted))
  {
  }

  /** Remaining work, then pending wake-ups: every step of every thread brings the pair down. */
  lemma StepDescends(c: Config, s: State, step: Step)
    requires Inv(c, s) && Enabled(c, s, step)
    ensures Descends(s, Apply(c, s, step))
  {
    match step
    case Submit => SubmitDescends(c, s);
    case StartPrepare(_) => PrepareStepDescends(c, s, step);
    case PrepareFails(_) => PrepareStepDescends(c, s, step);
    case PrepareSkips(_) => PrepareStepDescends(c, s, step);
    case PrepareSucceeds(_) => PrepareStepDescends(c, s, step);
    case EnterGate(i, wake) => GateStepDescends(c, s, i, wake);
    case StartChunk(_) => ChunkStepDescends(c, s, step);
    case ReleaseChunk(_, _) => ChunkStepDescends(c, s, step);
    case CountChunk(_, _) => ChunkStepDescends(c, s, step);
    case StartPost(_) => PostStepDescends(c, s, step);
    case FinishPost(_, _) => PostStepDescends(c, s, step);
    case TestCompleted => TestDescends(c, s);
  }

  /** The pair as one number. */
  ghost function Rank(s: State): nat {
    Work(s) * (|s.files| + 2) + Wakeups(s)
  }

  lemma Lexicographic(work: nat, work': nat, ups: nat, ups': nat, k: nat)
    requires work' < work && ups' < k
    ensures work' * k + ups' < work * k + ups
  {
    var rest := work - work' - 1;
    assert work * k == (work' + 1 + rest) * k == work' * k + k + rest * k;
  }

  lemma RankOrder(s: State, t: State)
    requires |t.files| == |s.files| && Descends(s, t) && Wakeups(t) < |s.files| + 2
    ensures Rank(t) < Rank(s)
  {
    if Work(t) < Work(s) {
      Lexicographic(Work(s), Work(t), Wakeups(s), Wakeups(t), |s.files| + 2);
    }
  }

  lemma WakeupsBound(t: State)
    ensures Wakeups(t) < |t.files| + 2
  {
    TotalBounds(IsNotified, t.files, 1);
  }

  lemma SameLength(c: Config, s: State, step: Step)
    requires Enabled(c, s, step)
    ensures |Apply(c, s, step).files| == |s.files|
  {
  }

  lemma RankDescends(c: Config, s: State, step: Step)
    requires Inv(c, s) && Enabled(c, s, step)
    ensures Rank(Apply(c, s, step)) < Rank(s)
  {
    var t := Apply(c, s, step);
    StepDescends(c, s, step);
    SameLength(c, s, step);
    WakeupsBound(t);
    RankOrder(s, t);
  }

  /** No interleaving is longer than the initial rank. */
  lemma {:induction false} RunsAreFinite(c: Config, run: seq<Step>)
    requires c.Valid() && IsRun(c, run)
    ensures |run| + Rank(After(c, run)) <= Rank(Init(c))
    decreases |run|
  {
    if run != [] {
      var before := run[..|run| - 1];
      RunsAreFinite(c, before);
      RunSafe(c, before);
      RankDescends(c, After(c, before), run[|run| - 1]);
    }
  }

  // ---------------------------------------------------------------------------
  // No reachable state is stuck

  predicate EveryFileHasChunks(c: Config) {
    forall i :: 0 <= i < |c.chunks| ==> c.chunks[i] >= 1
  }

  lemma SomeWake(files: seq<File>) returns (wake: nat)
    ensures MayWake(files, wake)
  {
    if i :| 0 <= i < |files| && files[i].stage.Waiting? {
      wake := i;
    } else {
      wake := 0;
    }
  }

  /** Wherever a chunk has not been counted, a network worker can move. */
  lemma ChunkCanMove(c: Config, s: State, i: nat) returns (step: Step)
    requires c.Valid() && Inv(c, s) && i < |s.files|
    requires s.files[i].toRun + s.files[i].running + s.files[i].releasing > 0
    ensures Enabled(c, s, step)
  {
    var wake := SomeWake(s.files);
    if s.files[i].running > 0 {
      step := ReleaseChunk(i, wake);
    } else if s.files[i].releasing > 0 {
      step := CountChunk(i, true);
    } else if Total(InNetworkPool, s.files) < c.maxConcurrency {
      step := StartChunk(i);
    } else {
      var j := PositiveTerm(InNetworkPool, s.files);
      step := if s.files[j].running > 0 then ReleaseChunk(j, wake) else CountChunk(j, true);
    }
  }

  /** Wherever a worker of the preprocess pool is busy, somebody can move: the pool may be
      full of waiting workers, but then the chunk queue is long or one of them is notified. */
  lemma PreprocessCanMove(c: Config, s: State, i: nat) returns (step: Step)
    requires c.Valid() && Inv(c, s) && i < |s.files| && InPreprocessPool(s.files[i]) == 1
    ensures Enabled(c, s, step)
  {
    var wake := SomeWake(s.files);
    if s.files[i].stage.Preparing? {
      step := PrepareSucceeds(i);
    } else if !s.files[i].stage.Waiting? {
      step := EnterGate(i, wake);
    } else if GateOpen(c, s) {
      assert SomeWaiting(s);
      var j :| 0 <= j < |s.files| && s.files[j].stage.Notified?;
      step := EnterGate(j, wake);
    } else {
      var j := PositiveTerm(Outstanding, s.files);
      step := ChunkCanMove(c, s, j);
    }
  }

  lemma FileCanMove(c: Config, s: State, i: nat) returns (step: Step)
    requires c.Valid() && Inv(c, s) && i < |s.files| && c.chunks[i] >= 1
    requires !s.files[i].stage.Done? && !s.files[i].stage.Unsubmitted?
    ensures Enabled(c, s, step)
  {
    var f := s.files[i];
    match f.stage
    case Queued =>
      if Total(InPreprocessPool, s.files) < c.ioLimit {
        step := StartPrepare(i);
      } else {
        var j := PositiveTerm(InPreprocessPool, s.files);
        step := PreprocessCanMove(c, s, j);
      }
    case Preparing => step := PreprocessCanMove(c, s, i);
    case Ready => step := PreprocessCanMove(c, s, i);
    case Waiting => step := PreprocessCanMove(c, s, i);
    case Notified => step := PreprocessCanMove(c, s, i);
    case Transferring =>
      assert FileOk(c, f) && f.num >= 1;
      step := ChunkCanMove(c, s, i);
    case PostQueued =>
      if Total(InPostprocessPool, s.files) < c.ioLimit {
        step := StartPost(i);
      } else {
        var j := PositiveTerm(InPostprocessPool, s.files);
        step := FinishPost(j, true);
      }
    case PostRunning => step := FinishPost(i, true);
  }

  lemma {:induction false} SomeNotDone(files: seq<File>) returns (i: nat)
    requires Total(IsDone, files) < |files|
    ensures i < |files| && !files[i].stage.Done?
  {
    if files[0].stage.Done? {
      var j := SomeNotDone(files[1..]);
      i := j + 1;
    } else {
      i := 0;
    }
  }

  /** Until the main thread returns, some thread can move. */
  lemma NeverStuck(c: Config, s: State) returns (step: Step)
    requires c.Valid() && EveryFileHasChunks(c) && Inv(c, s) && !s.main.MainReturned?
    ensures Enabled(c, s, step)
  {
    if s.main.Submitting? {
      step := Submit;
    } else if s.main.MainWaiting? {
      var i := SomeNotDone(s.files);
      step := FileCanMove(c, s, i);
    } else {
      step := TestCompleted;
    }
  }

  // ---------------------------------------------------------------------------
  // How every interleaving ends

  lemma {:induction false} AllDone(files: seq<File>)
    requires Total(IsDone, files) >= |files|
    ensures forall i :: 0 <= i < |files| ==> files[i].stage.Done?
  {
    if files != [] {
      DoneBound(files[1..]);
      AllDone(files[1..]);
      assert forall i :: 1 <= i < |files| ==> files[i] == files[1..][i - 1];
    }
  }

  /** An interleaving that cannot go on has completed every file: the counter reached the
      total, the main thread is back, and each file was settled exactly once. */
  lemma MaximalRunsComplete(c: Config, run: seq<Step>)
    requires c.Valid() && EveryFileHasChunks(c) && IsRun(c, run) && Quiet(c, After(c, run))
    ensures var s := After(c, run);
            && s.main.MainReturned? && s.completed == |c.chunks| == |s.files| && s.inQueue == 0
            && forall i :: 0 <= i < |c.chunks| ==> s.files[i].stage.Done? && Settled(c, s.files[i])
  {
    var s := After(c, run);
    RunSafe(c, run);
    if !s.main.MainReturned? {
      var step := NeverStuck(c, s);
      assert false;
    }
    AllDone(s.files);
    assert forall i :: 0 <= i < |s.files| ==> FileOk(c, s.files[i]);
    TotalAllEqual(Outstanding, s.files, 0);
  }

  lemma RunStep(c: Config, run: seq<Step>, step: Step)
    requires IsRun(c, run) && Enabled(c, After(c, run), step)
    ensures IsRun(c, run + [step]) && After(c, run + [step]) == Apply(c, After(c, run), step)
  {
    assert (run + [step])[..|run|] == run;
  }

  /** Every interleaving can be continued to one that cannot go on. */
  lemma {:induction false} Continue(c: Config, run: seq<Step>) returns (full: seq<Step>)
    requires c.Valid() && IsRun(c, run)
    ensures run <= full && IsRun(c, full) && Quiet(c, After(c, full))
    decreases Rank(After(c, run))
  {
    if step :| Enabled(c, After(c, run), step) {
      RunSafe(c, run);
      RankDescends(c, After(c, run), step);
      RunStep(c, run, step);
      full := Continue(c, run + [step]);
      assert run <= run + [step] <= full;
    } else {
      full := run;
    }
  }

  // ---------------------------------------------------------------------------
  // A file without chunks

  /** Neither a queue nor a worker holds anything of the file. */
  predicate Inert(f: File) {
    (f.stage.Done? || f.stage.Transferring?) && NoChunks(f)
  }

  lemma InertIsFinal(c: Config, s: State, step: Step, i: nat)
    requires FilesOk(c, s) && Enabled(c, s, step) && i < |s.files| && Inert(s.files[i])
    ensures i < |Apply(c, s, step).files| && Apply(c, s, step).files[i] == s.files[i]
  {
    match step
    case Submit => assert s.files[s.started].stage.Unsubmitted?;
    case StartPrepare(_) =>
    case PrepareFails(_) =>
    case PrepareSkips(_) =>
    case PrepareSucceeds(_) =>
    case EnterGate(_, _) =>
    case StartChunk(_) =>
    case ReleaseChunk(_, _) =>
    case CountChunk(_, _) =>
    case StartPost(_) =>
    case FinishPost(_, _) =>
    case TestCompleted =>
  }

  /** A file that passed the gate with no chunk has nobody left to complete it. */
  predicate Hung(s: State, i: nat) {
    i < |s.files| && s.files[i].stage.Transferring? && s.files[i].num == 0
  }

  lemma StaysHung(c: Config, s: State, i: nat, step: Step)
    requires Inv(c, s) && Hung(s, i) && Enabled(c, s, step)
    ensures Hung(Apply(c, s, step), i)
  {
    assert Inert(s.files[i]) by {
      assert FileOk(c, s.files[i]);
    }
    InertIsFinal(c, s, step, i);
  }

  lemma {:induction false} HungForever(c: Config, run: seq<Step>, full: seq<Step>, i: nat)
    requires c.Valid() && IsRun(c, full) && run <= full && IsRun(c, run) && Hung(After(c, run), i)
    ensures Hung(After(c, full), i) && After(c, full).completed < |c.chunks| && !After(c, full).main.MainReturned?
    decreases |full|
  {
    RunSafe(c, full);
    if full == run {
    } else {
      var before := full[..|full| - 1];
      HungForever(c, run, before, i);
      RunSafe(c, before);
      StaysHung(c, After(c, before), i, full[|full| - 1]);
    }
    var s := After(c, full);
    if s.completed >= |s.files| {
      AllDone(s.files);
      assert false;
    }
  }

  function Submits(n: nat): seq<Step> {
    seq(n, _ => Submit)
  }

  lemma {:induction false} AfterSubmits(c: Config, n: nat)
    requires c.Valid() && n <= |c.chunks|
    ensures IsRun(c, Submits(n))
    ensures var s := After(c, Submits(n));
            && |s.files| == |c.chunks| && s.started == n && s.inQueue == 0
            && (n < |c.chunks| ==> s.main.Submitting?)
            && forall i :: 0 <= i < |s.files| ==>
                 s.files[i] == FreshFile(c.chunks[i]).(stage := if i < n then Queued else Unsubmitted)
  {
    if n > 0 {
      AfterSubmits(c, n - 1);
      assert Submits(n)[..n - 1] == Submits(n - 1);
    }
  }

  /** A file picked up by an idle preprocess pool in front of an empty queue passes the gate. */
  lemma ThroughGate(c: Config, run: seq<Step>, i: nat) returns (gate: seq<Step>)
    requires c.Valid() && IsRun(c, run) && i < |After(c, run).files|
    requires var s := After(c, run);
             && s.inQueue == 0 && Total(InPreprocessPool, s.files) == 0 && s.files[i].stage.Queued?
             && forall j :: 0 <= j < |s.files| ==> !s.files[j].stage.Waiting?
    ensures IsRun(c, gate)
    ensures var s, t := After(c, run), After(c, gate);
            |t.files| == |s.files| && t.files[i].stage.Transferring? && t.files[i].num == s.files[i].num
  {
    var s := After(c, run);
    RunStep(c, run, StartPrepare(i));
    var prepare := run + [StartPrepare(i)];
    RunStep(c, prepare, PrepareSucceeds(i));
    var ready := prepare + [PrepareSucceeds(i)];
    var f := s.files[i].(preparation := Succeeded, stage := Ready);
    assert After(c, ready) == SetFile(s, i, f);
    RunStep(c, ready, EnterGate(i, 0));
    gate := ready + [EnterGate(i, 0)];
    assert After(c, gate).files == Wake(s.files[i := f][i := AllSubmitted(f)], 0);
  }

  /** An interleaving that takes file i through the gate before anything else happens. */
  lemma GateRun(c: Config, i: nat) returns (run: seq<Step>)
    requires c.Valid() && i < |c.chunks|
    ensures IsRun(c, run) && |After(c, run).files| == |c.chunks|
    ensures After(c, run).files[i].stage.Transferring? && After(c, run).files[i].num == c.chunks[i]
  {
    AfterSubmits(c, i + 1);
    TotalAllEqual(InPreprocessPool, After(c, Submits(i + 1)).files, 0);
    run := ThroughGate(c, Submits(i + 1), i);
  }

  /** Waiting for the files ends under every interleaving exactly when no file has zero chunks. */
  lemma CompletionIffEveryFileHasChunks(c: Config)
    requires c.Valid()
    ensures (forall run :: IsRun(c, run) && Quiet(c, After(c, run)) ==> After(c, run).main.MainReturned?)
            <==> EveryFileHasChunks(c)
  {
    if EveryFileHasChunks(c) {
      forall run | IsRun(c, run) && Quiet(c, After(c, run)) ensures After(c, run).main.MainReturned? {
        MaximalRunsComplete(c, run);
      }
    } else {
      var i :| 0 <= i < |c.chunks| && c.chunks[i] == 0;
      var run := GateRun(c, i);
      var full := Continue(c, run);
      HungForever(c, run, full, i);
    }
  }

  // ---------------------------------------------------------------------------
  // Exactly-once completion

  /** A completed file is never touched again, and `completed` counts the completed files. */
  lemma {:induction false} CompletedOnce(c: Config, run: seq<Step>, n: nat, i: nat)
    requires c.Valid() && IsRun(c, run) && n <= |run| && i < |c.chunks|
    ensures IsRun(c, run[..n])
    ensures After(c, run).completed == Total(IsDone, After(c, run).files)
    ensures |After(c, run).files| == |c.chunks| == |After(c, run[..n]).files|
    ensures After(c, run[..n]).files[i].stage.Done? ==>
              After(c, run).files[i] == After(c, run[..n]).files[i] && Settled(c, After(c, run).files[i])
    decreases |run|
  {
    RunSafe(c, run);
    assert FileOk(c, After(c, run).files[i]);
    if n == |run| {
      assert run[..n] == run;
    } else {
      var before := run[..|run| - 1];
      assert before[..n] == run[..n];
      CompletedOnce(c, before, n, i);
      RunSafe(c, before);
      var s := After(c, before);
      if s.files[i].stage.Done? {
        DoneIsFinal(c, s, run[|run| - 1], i);
      }
    }
  }

  lemma DoneIsFinal(c: Config, s: State, step: Step, i: nat)
    requires Inv(c, s) && Enabled(c, s, step) && i < |s.files| && s.files[i].stage.Done?
    ensures i < |Apply(c, s, step).files| && Apply(c, s, step).files[i] == s.files[i]
  {
    assert Inert(s.files[i]) by {
      assert FileOk(c, s.files[i]);
    }
    InertIsFinal(c, s, step, i);
  }
}
