/** How a file ends, told from the steps of the run alone. */
module TransferOutcomes {
  import opened Transfer
  import opened TransferSafety

  /** How often a step occurs in a run. */
  function Times(run: seq<Step>, step: Step): nat {
    if run == [] then 0
    else Times(run[..|run| - 1], step) + if run[|run| - 1] == step then 1 else 0
  }

  function One(b: bool): nat { if b then 1 else 0 }

  /** What a step adds to the counters of file i: one for a chunk that called back, as it called back,
      and one failure for a postprocessing that raised. */
  ghost predicate Counts(s: State, t: State, step: Step, i: nat) {
    && i < |s.files| && |t.files| == |s.files|
    && t.files[i].num == s.files[i].num
    && t.files[i].succeeded == s.files[i].succeeded + One(step == CountChunk(i, true))
    && t.files[i].failed
       == s.files[i].failed + One(step == CountChunk(i, false)) + One(step == FinishPost(i, false))
  }

  /** What a step decides about the preparation and the postprocessing of file i. */
  ghost predicate Decides(s: State, t: State, step: Step, i: nat) {
    && i < |s.files| && |t.files| == |s.files|
    && t.files[i].preparation
       == (if step == PrepareFails(i) then Failed
           else if step == PrepareSkips(i) then Skipped
           else if step == PrepareSucceeds(i) then Succeeded
           else s.files[i].preparation)
    && t.files[i].post
       == (if step == FinishPost(i, true) then Returned
           else if step == FinishPost(i, false) then Raised
           else s.files[i].post)
  }

  /** Steps of the chunks and of the postprocessing. */
  lemma WorkCounts(c: Config, s: State, step: Step, i: nat)
    requires Enabled(c, s, step) && i < |s.files|
    requires step.StartChunk? || step.ReleaseChunk? || step.CountChunk? || step.StartPost? || step.FinishPost?
    ensures Counts(s, Apply(c, s, step), step, i)
  {
    match step
    case StartChunk(_) =>
    case ReleaseChunk(_, _) =>
    case CountChunk(_, _) =>
    case StartPost(_) =>
    case FinishPost(_, _) =>
  }

  lemma StepCounts(c: Config, s: State, step: Step, i: nat)
    requires Enabled(c, s, step) && i < |s.files|
    ensures Counts(s, Apply(c, s, step), step, i)
  {
    match step
    case Submit =>
    case StartPrepare(_) =>
    case PrepareFails(_) =>
    case PrepareSkips(_) =>
    case PrepareSucceeds(_) =>
    case EnterGate(_, _) =>
    case StartChunk(_) => WorkCounts(c, s, step, i);
    case ReleaseChunk(_, _) => WorkCounts(c, s, step, i);
    case CountChunk(_, _) => WorkCounts(c, s, step, i);
    case StartPost(_) => WorkCounts(c, s, step, i);
    case FinishPost(_, _) => WorkCounts(c, s, step, i);
    case TestCompleted =>
  }

  lemma StepDecides(c: Config, s: State, step: Step, i: nat)
    requires Enabled(c, s, step) && i < |s.files|
    ensures Decides(s, Apply(c, s, step), step, i)
  {
    match step
    case Submit =>
    case StartPrepare(_) =>
    case PrepareFails(_) =>
    case PrepareSkips(_) =>
    case PrepareSucceeds(_) =>
    case EnterGate(_, _) =>
    case StartChunk(_) =>
    case ReleaseChunk(_, _) =>
    case CountChunk(_, _) =>
    case StartPost(_) =>
    case FinishPost(_, _) =>
    case TestCompleted =>
  }

  /** A preparation or a postprocessing is decided only once. */
  lemma Undecided(c: Config, s: State, step: Step, i: nat)
    requires FilesOk(c, s) && Enabled(c, s, step) && i < |s.files|
    ensures step == PrepareFails(i) || step == PrepareSkips(i) || step == PrepareSucceeds(i) ==>
              s.files[i].preparation.Pending?
    ensures step == FinishPost(i, true) || step == FinishPost(i, false) ==> s.files[i].post.NotRun?
  {
    assert FileOk(c, s.files[i]);
  }

  /** The counters and decisions of a file are those of the run. */
  ghost predicate Tallied(f: File, run: seq<Step>, i: nat) {
    && f.succeeded == Times(run, CountChunk(i, true))
    && f.failed == Times(run, CountChunk(i, false)) + Times(run, FinishPost(i, false))
    && Times(run, FinishPost(i, false)) == One(f.post.Raised?)
    && Times(run, FinishPost(i, true)) == One(f.post.Returned?)
    && Times(run, PrepareFails(i)) == One(f.preparation.Failed?)
    && Times(run, PrepareSkips(i)) == One(f.preparation.Skipped?)
    && Times(run, PrepareSucceeds(i)) == One(f.preparation.Succeeded?)
  }

  lemma TallyStep(s: State, t: State, run: seq<Step>, step: Step, i: nat)
    requires Counts(s, t, step, i) && Decides(s, t, step, i) && Tallied(s.files[i], run, i)
    requires step == PrepareFails(i) || step == PrepareSkips(i) || step == PrepareSucceeds(i) ==>
               s.files[i].preparation.Pending?
    requires step == FinishPost(i, true) || step == FinishPost(i, false) ==> s.files[i].post.NotRun?
    ensures Tallied(t.files[i], run + [step], i)
  {
    assert (run + [step])[..|run|] == run;
  }

  lemma StepTallied(c: Config, s: State, run: seq<Step>, step: Step, i: nat)
    requires FilesOk(c, s) && Enabled(c, s, step) && i < |s.files| && Tallied(s.files[i], run, i)
    ensures var t := Apply(c, s, step); |t.files| == |s.files| && Tallied(t.files[i], run + [step], i)
  {
    StepCounts(c, s, step, i);
    StepDecides(c, s, step, i);
    Undecided(c, s, step, i);
    TallyStep(s, Apply(c, s, step), run, step, i);
  }

  /** Every chunk that called back is counted once, as it called back, in every interleaving; a
      preparation or postprocessing happens at most once. */
  lemma {:induction false} CountersCountSteps(c: Config, run: seq<Step>, i: nat)
    requires c.Valid() && IsRun(c, run) && i < |c.chunks|
    ensures |After(c, run).files| == |c.chunks| && Tallied(After(c, run).files[i], run, i)
    decreases |run|
  {
    if run != [] {
      var before, step := run[..|run| - 1], run[|run| - 1];
      CountersCountSteps(c, before, i);
      assert FilesOk(c, After(c, before)) by {
        RunSafe(c, before);
      }
      StepTallied(c, After(c, before), before, step, i);
      assert before + [step] == run;
    }
  }

  /** The status a completed file must have, by what happened to it. */
  function Outcome(c: Config, run: seq<Step>, i: nat): Status {
    if Times(run, PrepareFails(i)) > 0 then Error
    else if Times(run, PrepareSkips(i)) > 0 then SkippedStatus
    else if Times(run, CountChunk(i, false)) == 0 then if c.upload then Uploaded else Downloaded
    else if Times(run, FinishPost(i, false)) > 0 then Unset
    else Error
  }

  lemma SettledStatus(c: Config, f: File, run: seq<Step>, i: nat)
    requires Settled(c, f) && Tallied(f, run, i)
    ensures f.status == Outcome(c, run, i)
    ensures Times(run, PrepareSucceeds(i)) > 0 ==>
              && Times(run, CountChunk(i, true)) + Times(run, CountChunk(i, false)) == f.num
              && ((f.status == if c.upload then Uploaded else Downloaded) <==> Times(run, CountChunk(i, false)) == 0)
  {
  }

  /** A completed file has the status its run calls for: uploaded or downloaded if and only if it was
      prepared and no chunk of it failed. A postprocessing that raises counts as one more failure and
      leaves the status of the chunks. */
  lemma CompletedStatus(c: Config, run: seq<Step>, i: nat)
    requires c.Valid() && IsRun(c, run) && i < |c.chunks|
    ensures |After(c, run).files| == |c.chunks|
    ensures After(c, run).files[i].stage.Done? ==>
              && After(c, run).files[i].status == Outcome(c, run, i)
              && (Times(run, PrepareSucceeds(i)) > 0 ==>
                    Times(run, CountChunk(i, true)) + Times(run, CountChunk(i, false)) == c.chunks[i])
    ensures After(c, run).files[i].stage.Done? && Times(run, PrepareSucceeds(i)) > 0 ==>
              ((After(c, run).files[i].status == if c.upload then Uploaded else Downloaded)
               <==> Times(run, CountChunk(i, false)) == 0)
  {
    CountersCountSteps(c, run, i);
    assert FilesOk(c, After(c, run)) by {
      RunSafe(c, run);
    }
    var f := After(c, run).files[i];
    if f.stage.Done? {
      assert Settled(c, f) && f.num == c.chunks[i] by {
        assert FileOk(c, f);
      }
      SettledStatus(c, f, run, i);
    }
  }
}
