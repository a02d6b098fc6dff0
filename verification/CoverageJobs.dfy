/** What the coverage table says about the ingestion jobs, for every interleaving of their steps. */
module CoverageJobs {
  import opened Coverage
  import opened CoverageProperties

  /** `settled` is whether the job's closing call went through; a failed call is only logged. */
  datatype Phase = Waiting | Running | Ended(settled: bool)

  datatype Job = Job(tags: set<int>, model: string, phase: Phase)

  datatype System = System(rows: Table, jobs: map<int, Job>)

  /** One atomic step of one job.  `ok` is whether its coverage call took effect. */
  datatype Step =
    | Start(id: int, dims: int, ok: bool)
    | FailEarly(id: int, tags: set<int>, ok: bool)
    | Finish(id: int, vectorCount: int, fileCount: int, ok: bool)
    | Fail(id: int, ok: bool)

  predicate Enabled(s: System, step: Step) {
    step.id in s.jobs && s.jobs[step.id].phase == if step.Start? || step.FailEarly? then Waiting else Running
  }

  function EventOf(j: Job, step: Step): Event {
    match step
    case Start(_, dims, _) => Began(j.tags, j.model, dims)
    case FailEarly(_, tags, _) => Reverted(tags, j.model)
    case Finish(_, vectorCount, fileCount, _) => Completed(j.tags, j.model, vectorCount, fileCount)
    case Fail(_, _) => Reverted(j.tags, j.model)
  }

  function PhaseAfter(step: Step): Phase {
    match step
    case Start(_, _, _) => Running
    case FailEarly(_, _, _) => Ended(true)
    case _ => Ended(step.ok)
  }

  /** A step its job cannot take changes nothing, so every list of steps is an interleaving. */
  function Next(s: System, step: Step): System {
    if !Enabled(s, step) then s
    else
      var j := s.jobs[step.id];
      System(
        if step.ok then Apply(s.rows, EventOf(j, step)) else s.rows,
        s.jobs[step.id := j.(phase := PhaseAfter(step))])
  }

  function After(s: System, steps: seq<Step>): System {
    if steps == [] then s else Next(After(s, steps[..|steps| - 1]), steps[|steps| - 1])
  }

  /** A job that started and whose closing call has not gone through. */
  predicate Unsettled(j: Job) {
    j.phase == Running || j.phase == Ended(false)
  }

  predicate Holds(j: Job, k: Key) {
    k.tag in j.tags && k.model == j.model
  }

  ghost predicate BuildingIsHeld(s: System) {
    forall k :: HasStatus(s.rows, k, Building) ==>
      exists id :: id in s.jobs && Unsettled(s.jobs[id]) && Holds(s.jobs[id], k)
  }

  lemma StepKeepsHeld(s: System, step: Step)
    requires BuildingIsHeld(s)
    ensures BuildingIsHeld(Next(s, step))
  {
    var s' := Next(s, step);
    if Enabled(s, step) {
      var j, e := s.jobs[step.id], EventOf(s.jobs[step.id], step);
      forall k | HasStatus(s'.rows, k, Building)
        ensures exists id :: id in s'.jobs && Unsettled(s'.jobs[id]) && Holds(s'.jobs[id], k)
      {
        if step.Start? && Holds(j, k) {
          assert Unsettled(s'.jobs[step.id]) && Holds(s'.jobs[step.id], k);
        } else {
          assert HasStatus(s.rows, k, Building);
          var id :| id in s.jobs && Unsettled(s.jobs[id]) && Holds(s.jobs[id], k);
          assert id == step.id && step.ok ==> Covers(e, k);
          assert Unsettled(s'.jobs[id]) && Holds(s'.jobs[id], k);
        }
      }
    }
  }

  /** Over every interleaving, a building row belongs to a job that holds its pair, has started,
      and has not ended with a closing call that went through. */
  lemma {:induction false} BuildingRowsAreHeld(s: System, steps: seq<Step>)
    requires BuildingIsHeld(s)
    ensures BuildingIsHeld(After(s, steps))
  {
    if steps != [] {
      BuildingRowsAreHeld(s, steps[..|steps| - 1]);
      StepKeepsHeld(After(s, steps[..|steps| - 1]), steps[|steps| - 1]);
    }
  }

  /** The calls of an interleaving that took effect, in order. */
  function History(s: System, steps: seq<Step>): seq<Event> {
    if steps == [] then []
    else
      var init, step := steps[..|steps| - 1], steps[|steps| - 1];
      var s' := After(s, init);
      History(s, init) + if Enabled(s', step) && step.ok then [EventOf(s'.jobs[step.id], step)] else []
  }

  lemma RunOneMore(t: Table, es: seq<Event>, e: Event)
    ensures Run(t, es + [e]) == Apply(Run(t, es), e)
  {
    assert (es + [e])[..|es|] == es;
  }

  /** After any interleaving the rows are the result of a history of calls, so whatever holds of every
      history holds of every interleaving. */
  lemma {:induction false} InterleavingsAreHistories(s: System, steps: seq<Step>)
    ensures After(s, steps).rows == Run(s.rows, History(s, steps))
  {
    if steps != [] {
      var init, step := steps[..|steps| - 1], steps[|steps| - 1];
      var s', es := After(s, init), History(s, init);
      InterleavingsAreHistories(s, init);
      if Enabled(s', step) && step.ok {
        RunOneMore(s.rows, es, EventOf(s'.jobs[step.id], step));
      } else {
        assert es + [] == es;
      }
    }
  }

  lemma {:induction false} JobsKeepTheirPairs(s: System, steps: seq<Step>)
    ensures After(s, steps).jobs.Keys == s.jobs.Keys
    ensures forall id :: id in s.jobs ==>
              After(s, steps).jobs[id].tags == s.jobs[id].tags && After(s, steps).jobs[id].model == s.jobs[id].model
  {
    if steps != [] {
      JobsKeepTheirPairs(s, steps[..|steps| - 1]);
    }
  }

  // ---------------------------------------------------------------- what the steps do

  /** The step at `i` was one its job could take, and belongs to job `id`. */
  ghost predicate Takes(s: System, steps: seq<Step>, i: nat, id: int) {
    i < |steps| && steps[i].id == id && id in s.jobs && Enabled(After(s, steps[..i]), steps[i])
  }

  /** The row of `k` is among those a step of its job is about: an early failure names its own tags. */
  predicate About(j: Job, step: Step, k: Key) {
    if step.FailEarly? then k.tag in step.tags && k.model == j.model else Holds(j, k)
  }

  /** The call of the step at `i` was made and took effect. */
  ghost predicate Effective(s: System, steps: seq<Step>, i: nat) {
    i < |steps| && Takes(s, steps, i, steps[i].id) && steps[i].ok
  }

  /** It did so on the row of `k`. */
  ghost predicate Calls(s: System, steps: seq<Step>, i: nat, k: Key) {
    Effective(s, steps, i) && About(s.jobs[steps[i].id], steps[i], k)
  }

  lemma TakesSplit(s: System, steps: seq<Step>, i: nat, id: int)
    requires i < |steps| - 1
    ensures Takes(s, steps, i, id) <==> Takes(s, steps[..|steps| - 1], i, id)
  {
    assert steps[..|steps| - 1][..i] == steps[..i];
  }

  lemma LastStepCalls(s: System, steps: seq<Step>, k: Key)
    requires steps != []
    ensures var s', step := After(s, steps[..|steps| - 1]), steps[|steps| - 1];
            Calls(s, steps, |steps| - 1, k) <==>
            Enabled(s', step) && step.ok && About(s'.jobs[step.id], step, k)
  {
    JobsKeepTheirPairs(s, steps[..|steps| - 1]);
  }

  lemma CallsSplit(s: System, steps: seq<Step>, i: nat, k: Key)
    requires i < |steps| - 1
    ensures Calls(s, steps, i, k) <==> Calls(s, steps[..|steps| - 1], i, k)
    ensures Effective(s, steps, i) <==> Effective(s, steps[..|steps| - 1], i)
  {
    TakesSplit(s, steps, i, steps[i].id);
  }

  /** The row after an effective step of job `j`, if there is one. */
  ghost predicate RowIs(rows: Table, rows': Table, j: Job, step: Step, k: Key) {
    && (k in rows' <==> k in rows || (step.Start? && Holds(j, k)))
    && (k in rows' && k !in rows ==> rows'[k] == Row(step.dims, Building, 0, 0))
    && (k in rows ==>
          var r, r' := rows[k], rows'[k];
          match step
          case Start(_, _, _) => r' == if Holds(j, k) then Row(r.dims, Building, r.vectorCount, r.fileCount) else r
          case Finish(_, vectorCount, fileCount, _) =>
            r' == if Holds(j, k) then Row(r.dims, Complete, vectorCount, fileCount)
                  else if k.tag in j.tags && r.status == Complete then Row(r.dims, Stale, r.vectorCount, r.fileCount)
                  else r
          case _ =>
            r' == if !About(j, step, k) then r
                  else Row(r.dims, if r.vectorCount > 0 then Stale else Pending, r.vectorCount, r.fileCount))
  }

  /** Over every interleaving, what the last step did to each row and to each job.  A start leaves its
      job's pairs building with what they counted; a finish leaves them complete with its own counts and
      other complete models of its tags stale; a failure leaves no row it is about complete.  A
      call that failed, or a step that could not be taken, changes no row; the job's phase changes even
      if its call failed. */
  lemma LastStepSays(s: System, steps: seq<Step>, k: Key)
    requires steps != []
    ensures var n := |steps| - 1;
            var before, after, step := After(s, steps[..n]), After(s, steps), steps[n];
            && (Effective(s, steps, n) ==> RowIs(before.rows, after.rows, s.jobs[step.id], step, k))
            && (!Effective(s, steps, n) ==> after.rows == before.rows)
            && (Takes(s, steps, n, step.id) ==>
                  && step.id in after.jobs
                  && after.jobs[step.id].phase ==
                     (if step.Start? then Running else Ended(step.ok || step.FailEarly?)))
            && (forall id :: id in s.jobs && !Takes(s, steps, n, id) ==>
                  id in before.jobs && id in after.jobs && after.jobs[id] == before.jobs[id])
  {
    JobsKeepTheirPairs(s, steps[..|steps| - 1]);
    JobsKeepTheirPairs(s, steps);
  }

  /** A row exists exactly when it was there or some start took effect on it. */
  lemma {:induction false} RowJobsIff(s: System, steps: seq<Step>, k: Key)
    ensures k in After(s, steps).rows <==> k in s.rows || exists i: nat :: Calls(s, steps, i, k) && steps[i].Start?
  {
    if steps != [] {
      var init, n := steps[..|steps| - 1], |steps| - 1;
      RowJobsIff(s, init, k);
      LastStepSays(s, steps, k);
      forall i: nat | i < n
        ensures Calls(s, steps, i, k) <==> Calls(s, init, i, k)
      {
        CallsSplit(s, steps, i, k);
      }
      if i: nat :| Calls(s, init, i, k) && init[i].Start? {
        assert Calls(s, steps, i, k) && steps[i].Start?;
      }
      assert Calls(s, steps, n, k) && steps[n].Start? ==> k in After(s, steps).rows;
    }
  }

  // ---------------------------------------------------------------- which rows the jobs complete

  /** The step at `i` took effect and took completeness from `k`: it is about the pair and does not
      complete it, or completes another model of its tag. */
  ghost predicate Dethrones(s: System, steps: seq<Step>, i: nat, k: Key) {
    && Effective(s, steps, i)
    && var j := s.jobs[steps[i].id];
       if steps[i].Finish? then k.tag in j.tags && k.model != j.model else About(j, steps[i], k)
  }

  /** The finish at `i` took effect and found the row of `k`. */
  ghost predicate Finishes(s: System, steps: seq<Step>, i: nat, k: Key) {
    Calls(s, steps, i, k) && steps[i].Finish? && k in After(s, steps[..i]).rows
  }

  ghost predicate LeftComplete(s: System, steps: seq<Step>, i: nat, k: Key) {
    Finishes(s, steps, i, k) && forall j :: i < j < |steps| ==> !Dethrones(s, steps, j, k)
  }

  ghost predicate NeverDethroned(s: System, steps: seq<Step>, k: Key) {
    forall j :: 0 <= j < |steps| ==> !Dethrones(s, steps, j, k)
  }

  lemma FinishesSplit(s: System, steps: seq<Step>, i: nat, k: Key)
    requires i < |steps| - 1
    ensures Finishes(s, steps, i, k) <==> Finishes(s, steps[..|steps| - 1], i, k)
    ensures Dethrones(s, steps, i, k) <==> Dethrones(s, steps[..|steps| - 1], i, k)
  {
    CallsSplit(s, steps, i, k);
    assert steps[..|steps| - 1][..i] == steps[..i];
  }

  lemma LeftCompleteSplit(s: System, steps: seq<Step>, k: Key)
    requires steps != []
    ensures var init, n := steps[..|steps| - 1], |steps| - 1;
            && (NeverDethroned(s, steps, k) <==> NeverDethroned(s, init, k) && !Dethrones(s, steps, n, k))
            && ((exists i :: LeftComplete(s, steps, i, k)) <==>
                Finishes(s, steps, n, k) ||
                ((exists i :: LeftComplete(s, init, i, k)) && !Dethrones(s, steps, n, k)))
  {
    var init, n := steps[..|steps| - 1], |steps| - 1;
    forall i: nat | i < n
      ensures Finishes(s, steps, i, k) <==> Finishes(s, init, i, k)
      ensures Dethrones(s, steps, i, k) <==> Dethrones(s, init, i, k)
    {
      FinishesSplit(s, steps, i, k);
    }
    forall i: nat | i < n
      ensures LeftComplete(s, steps, i, k) <==> LeftComplete(s, init, i, k) && !Dethrones(s, steps, n, k)
    {}
    assert LeftComplete(s, steps, n, k) <==> Finishes(s, steps, n, k);
  }

  /** Over every interleaving and every pattern of swallowed failures, a row is complete exactly when
      some finish took effect, found it, and nothing dethroned it since, or it was complete all along. */
  lemma {:induction false} CompleteJobsIff(s: System, steps: seq<Step>, k: Key)
    ensures HasStatus(After(s, steps).rows, k, Complete) <==>
            || (exists i :: LeftComplete(s, steps, i, k))
            || (HasStatus(s.rows, k, Complete) && NeverDethroned(s, steps, k))
  {
    if steps != [] {
      CompleteJobsIff(s, steps[..|steps| - 1], k);
      LeftCompleteSplit(s, steps, k);
      LastStepSays(s, steps, k);
    }
  }

  /** The finish at `i` is the last one that took effect on the row. */
  ghost predicate LastFinish(s: System, steps: seq<Step>, i: nat, k: Key) {
    && Finishes(s, steps, i, k)
    && forall j :: i < j < |steps| && Calls(s, steps, j, k) ==> !steps[j].Finish?
  }

  lemma LastFinishSplit(s: System, steps: seq<Step>, i: nat, k: Key)
    requires i < |steps|
    ensures var init, n := steps[..|steps| - 1], |steps| - 1;
            LastFinish(s, steps, i, k) <==>
            if Finishes(s, steps, n, k) then i == n else LastFinish(s, init, i, k)
  {
    var init, n := steps[..|steps| - 1], |steps| - 1;
    forall j: nat | j < n
      ensures Calls(s, steps, j, k) <==> Calls(s, init, j, k)
      ensures Finishes(s, steps, j, k) <==> Finishes(s, init, j, k)
    {
      CallsSplit(s, steps, j, k);
      FinishesSplit(s, steps, j, k);
    }
    if i < n && Finishes(s, init, i, k) {
      RowStays(s, steps, i, n, k);
    }
  }

  lemma {:induction false} RowStays(s: System, steps: seq<Step>, i: nat, n: nat, k: Key)
    requires i <= n <= |steps| && k in After(s, steps[..i]).rows
    ensures k in After(s, steps[..n]).rows
  {
    if i < n {
      RowStays(s, steps, i, n - 1, k);
      assert steps[..n][..n - 1] == steps[..n - 1];
      LastStepSays(s, steps[..n], k);
    }
  }

  /** The counts of a row are those of the last finish that took effect on it, else the initial ones. */
  lemma {:induction false} CountsAreTheLastFinish(s: System, steps: seq<Step>, k: Key)
    requires k in After(s, steps).rows
    ensures var r := After(s, steps).rows[k];
            && (forall i: nat :: LastFinish(s, steps, i, k) ==>
                  r.vectorCount == steps[i].vectorCount && r.fileCount == steps[i].fileCount)
            && ((forall i: nat :: !LastFinish(s, steps, i, k)) ==>
                  && r.vectorCount == (if k in s.rows then s.rows[k].vectorCount else 0)
                  && r.fileCount == (if k in s.rows then s.rows[k].fileCount else 0))
  {
    if steps != [] {
      var init, n := steps[..|steps| - 1], |steps| - 1;
      forall i: nat | i < |steps|
        ensures LastFinish(s, steps, i, k) <==>
                if Finishes(s, steps, n, k) then i == n else LastFinish(s, init, i, k)
      {
        LastFinishSplit(s, steps, i, k);
      }
      LastStepSays(s, steps, k);
      if k in After(s, init).rows {
        CountsAreTheLastFinish(s, init, k);
      } else {
        NoFinishWithoutRow(s, init, k);
      }
      assert Finishes(s, steps, n, k) ==> LastFinish(s, steps, n, k);
    }
  }

  lemma NoFinishWithoutRow(s: System, steps: seq<Step>, k: Key)
    requires k !in After(s, steps).rows
    ensures k !in s.rows && forall i: nat :: !LastFinish(s, steps, i, k)
  {
    RowJobsIff(s, steps, k);
    assert steps[..|steps|] == steps;
    forall i: nat | LastFinish(s, steps, i, k)
      ensures false
    {
      RowStays(s, steps, i, |steps|, k);
    }
  }

  // ---------------------------------------------------------------- which rows the jobs leave building

  /** The start at `i` took effect on the row of `k`, and no closing call did later. */
  ghost predicate LeftOpen(s: System, steps: seq<Step>, i: nat, k: Key) {
    && Calls(s, steps, i, k) && steps[i].Start?
    && forall j :: i < j < |steps| && Calls(s, steps, j, k) ==> steps[j].Start?
  }

  ghost predicate NeverClosed(s: System, steps: seq<Step>, k: Key) {
    forall j :: 0 <= j < |steps| && Calls(s, steps, j, k) ==> steps[j].Start?
  }

  lemma LeftOpenSplit(s: System, steps: seq<Step>, k: Key)
    requires steps != []
    ensures var init, n := steps[..|steps| - 1], |steps| - 1;
            && (NeverClosed(s, steps, k) <==> NeverClosed(s, init, k) && (Calls(s, steps, n, k) ==> steps[n].Start?))
            && ((exists i :: LeftOpen(s, steps, i, k)) <==>
                if Calls(s, steps, n, k) then steps[n].Start? else exists i :: LeftOpen(s, init, i, k))
  {
    var init, n := steps[..|steps| - 1], |steps| - 1;
    forall i: nat | i < n
      ensures Calls(s, steps, i, k) <==> Calls(s, init, i, k)
    {
      TakesSplit(s, steps, i, steps[i].id);
    }
    forall i: nat | i < n
      ensures LeftOpen(s, steps, i, k) <==> LeftOpen(s, init, i, k) && (Calls(s, steps, n, k) ==> steps[n].Start?)
    {}
    if Calls(s, steps, n, k) && steps[n].Start? {
      assert LeftOpen(s, steps, n, k);
    }
  }

  lemma LastStepBuilds(s: System, steps: seq<Step>, k: Key)
    requires steps != []
    ensures var n := |steps| - 1;
            HasStatus(After(s, steps).rows, k, Building) <==>
            if Calls(s, steps, n, k) then steps[n].Start? else HasStatus(After(s, steps[..n]).rows, k, Building)
  {
    LastStepSays(s, steps, k);
  }

  /** Over every interleaving and every pattern of swallowed failures, a row is building exactly when
      some start took effect on it and no later closing call did, or it was building all along. */
  lemma {:induction false} BuildingJobsIff(s: System, steps: seq<Step>, k: Key)
    ensures HasStatus(After(s, steps).rows, k, Building) <==>
            || (exists i :: LeftOpen(s, steps, i, k))
            || (HasStatus(s.rows, k, Building) && NeverClosed(s, steps, k))
  {
    if steps != [] {
      BuildingJobsIff(s, steps[..|steps| - 1], k);
      LeftOpenSplit(s, steps, k);
      LastStepBuilds(s, steps, k);
    }
  }

  // ---------------------------------------------------------------- when building means running

  ghost predicate RunningHolds(s: System, k: Key) {
    exists id :: id in s.jobs && s.jobs[id].phase == Running && Holds(s.jobs[id], k)
  }

  /** What the documentation says of building rows. */
  ghost predicate BuildingMeansRunning(s: System) {
    forall k :: HasStatus(s.rows, k, Building) ==> RunningHolds(s, k)
  }

  /** The closing call of the job that started at `i` failed and was only logged. */
  ghost predicate Swallowed(s: System, steps: seq<Step>, i: nat) {
    i < |steps| && exists j :: i < j < |steps| && Takes(s, steps, j, steps[i].id) && !steps[j].ok
  }

  /** A job that started is running, or a later step closed it. */
  lemma {:induction false} StartedJobs(s: System, steps: seq<Step>, i: nat)
    requires i < |steps| && steps[i].Start? && Takes(s, steps, i, steps[i].id)
    ensures var id := steps[i].id;
            && id in After(s, steps).jobs
            && (After(s, steps).jobs[id].phase == Running ||
                exists j :: i < j < |steps| && Takes(s, steps, j, id) && !steps[j].Start? && !steps[j].FailEarly?)
  {
    var init, n, id := steps[..|steps| - 1], |steps| - 1, steps[i].id;
    if i < n {
      TakesSplit(s, steps, i, id);
      StartedJobs(s, init, i);
      if After(s, init).jobs[id].phase == Running {
        if steps[n].id == id && Enabled(After(s, init), steps[n]) {
          assert Takes(s, steps, n, id);
        }
      } else {
        var j :| i < j < n && Takes(s, init, j, id) && !init[j].Start? && !init[j].FailEarly?;
        TakesSplit(s, steps, j, id);
        assert Takes(s, steps, j, id);
      }
    }
  }

  /** A building row that no running job holds is left by a job whose closing call was swallowed. */
  lemma OpenIsRunningOrSwallowed(s: System, steps: seq<Step>, i: nat, k: Key)
    requires LeftOpen(s, steps, i, k)
    ensures RunningHolds(After(s, steps), k) || Swallowed(s, steps, i)
  {
    var id := steps[i].id;
    StartedJobs(s, steps, i);
    JobsKeepTheirPairs(s, steps);
    if After(s, steps).jobs[id].phase != Running {
      var j: nat :| i < j < |steps| && Takes(s, steps, j, id) && !steps[j].Start? && !steps[j].FailEarly?;
      assert About(s.jobs[id], steps[j], k) && !Calls(s, steps, j, k);
    } else {
      assert Holds(After(s, steps).jobs[id], k);
    }
  }

  /** A building row always has a running job exactly when no job with a swallowed closing call left
      a row building that no other running job holds. */
  lemma BuildingMeansRunningIff(s: System, steps: seq<Step>)
    requires forall k :: !HasStatus(s.rows, k, Building)
    ensures BuildingMeansRunning(After(s, steps)) <==>
            forall i, k :: LeftOpen(s, steps, i, k) && Swallowed(s, steps, i) ==> RunningHolds(After(s, steps), k)
  {
    forall k
      ensures HasStatus(After(s, steps).rows, k, Building) <==> exists i :: LeftOpen(s, steps, i, k)
    {
      BuildingJobsIff(s, steps, k);
    }
    forall i: nat, k | LeftOpen(s, steps, i, k)
      ensures RunningHolds(After(s, steps), k) || Swallowed(s, steps, i)
    {
      OpenIsRunningOrSwallowed(s, steps, i, k);
    }
  }

  /** Once all jobs have ended, the rows left building are exactly those of a start whose own closing
      call was swallowed and that no later closing call repaired. */
  lemma LeftBuildingIff(s: System, steps: seq<Step>, k: Key)
    requires !HasStatus(s.rows, k, Building)
    requires forall id :: id in After(s, steps).jobs ==> After(s, steps).jobs[id].phase.Ended?
    ensures HasStatus(After(s, steps).rows, k, Building) <==>
            exists i :: LeftOpen(s, steps, i, k) && Swallowed(s, steps, i)
  {
    JobsKeepTheirPairs(s, steps);
    BuildingJobsIff(s, steps, k);
    forall i: nat | LeftOpen(s, steps, i, k)
      ensures Swallowed(s, steps, i)
    {
      OpenIsRunningOrSwallowed(s, steps, i, k);
    }
  }

  /** In particular, when every coverage call takes effect a building row always has a running job, so
      once all jobs have ended no row is left building. */
  lemma NoBuildingRowIsLeft(rows: Table, jobs: map<int, Job>, steps: seq<Step>)
    requires forall k :: !HasStatus(rows, k, Building)
    requires forall i :: 0 <= i < |steps| ==> steps[i].ok
    ensures var s := After(System(rows, jobs), steps);
            && BuildingMeansRunning(s)
            && ((forall id :: id in s.jobs ==> s.jobs[id].phase.Ended?) ==> forall k :: !HasStatus(s.rows, k, Building))
  {
    BuildingMeansRunningIff(System(rows, jobs), steps);
  }

  /** One swallowed failure is enough to break that: all jobs ended and the row is still building. */
  lemma SwallowedRevertLeavesBuilding()
    ensures var s := After(System(map[], map[7 := Job({1}, "a", Waiting)]), [Start(7, 3, true), Fail(7, false)]);
            7 in s.jobs && s.jobs[7].phase == Ended(false) && HasStatus(s.rows, Key(1, "a"), Building)
  {
    var s0 := System(map[], map[7 := Job({1}, "a", Waiting)]);
    var steps := [Start(7, 3, true), Fail(7, false)];
    assert steps[..1] == [steps[0]] && steps[..1][..0] == [];
    assert After(s0, steps[..1][..0]) == s0;
    var s1 := After(s0, steps[..1]);
    assert s1 == Next(s0, steps[0]);
    assert Covers(Began({1}, "a", 3), Key(1, "a"));
    assert HasStatus(s1.rows, Key(1, "a"), Building);
  }
}
