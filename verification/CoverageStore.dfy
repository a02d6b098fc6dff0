/** What a coverage row says about the vector store, when each job of the interleaving is an
    ingestion job with its own files and answers. */
module CoverageStore {
  import opened Ingestion
  import opened IngestionCuts
  import opened IngestionInvariants
  import opened IngestionProperties
  import Coverage
  import opened CoverageProperties
  import Jobs = CoverageJobs

  type Key = Coverage.Key

  /** What a job does between its start and its closing call: an exception before the file loop, or
      the file loop and the final flush. */
  datatype Work = Breaks | Runs(batchSize: int, uuid: nat -> string, files: seq<File>, closing: Closing)

  /** The messages the queue accepts from a job in its whole life. */
  function Messages(work: Work): seq<Delivery> {
    if work.Breaks? then [] else Job(work.batchSize, work.uuid, work.files, work.closing).0.deliveries
  }

  /** The closing step is the one the job reaches, with its counts and its answer. */
  predicate Fits(work: Work, step: Jobs.Step) {
    match step
    case Finish(_, vectorCount, fileCount, ok) =>
      && work.Runs? && vectorCount >= 0 && fileCount >= 0
      && Job(work.batchSize, work.uuid, work.files, work.closing).1 == Completed(vectorCount, fileCount, ok)
    case Fail(_, ok) =>
      work.Runs? ==> Job(work.batchSize, work.uuid, work.files, work.closing).1 == Reverted(ok)
    case _ => true
  }

  /** An interleaving of jobs, the work of each, and how many of its messages each has sent so far. */
  datatype World = World(start: Jobs.System, steps: seq<Jobs.Step>, works: map<int, Work>, sent: map<int, nat>)

  /** Each job starts the way it must, ends the way its work ends, sends nothing before it starts, and
      has sent all its messages when it ends. */
  ghost predicate Consistent(w: World) {
    && (forall id :: id in w.start.jobs ==>
          && w.start.jobs[id].phase == Jobs.Waiting
          && id in w.works && id in w.sent && w.sent[id] <= |Messages(w.works[id])|
          && (w.works[id].Runs? ==> NeverRepeats(w.works[id].uuid)))
    && (forall i: nat :: i < |w.steps| && Jobs.Takes(w.start, w.steps, i, w.steps[i].id) ==>
          && Fits(w.works[w.steps[i].id], w.steps[i])
          && (w.steps[i].Finish? || w.steps[i].Fail? ==>
                w.sent[w.steps[i].id] == |Messages(w.works[w.steps[i].id])|))
    && (forall id :: id in w.start.jobs && w.sent[id] > 0 ==>
          exists i: nat :: i < |w.steps| && Jobs.Takes(w.start, w.steps, i, id) && w.steps[i].Start?)
  }

  /** The ids of the pair's points in the vector store. */
  ghost function Stored(w: World, k: Key): set<string>
    requires Consistent(w)
  {
    set id, b, p | id in w.start.jobs && Jobs.Holds(w.start.jobs[id], k) && 0 <= b < w.sent[id]
                   && p in Messages(w.works[id])[b].batch :: p.id
  }

  lemma MessagesAreNotEmpty(work: Work)
    ensures forall b :: 0 <= b < |Messages(work)| ==> Messages(work)[b].batch != []
  {
    if work.Runs? {
      var _ := JobIsFinal(work.batchSize, work.uuid, work.files, work.closing);
    }
  }

  /** The store holds nothing for a pair exactly when no job on the pair has delivered a batch,
      whatever the pair's row says. */
  lemma NothingStoredIff(w: World, k: Key)
    requires Consistent(w)
    ensures Stored(w, k) == {} <==>
            forall id :: id in w.start.jobs && Jobs.Holds(w.start.jobs[id], k) ==> w.sent[id] == 0
  {
    forall id | id in w.start.jobs && Jobs.Holds(w.start.jobs[id], k) && w.sent[id] > 0
      ensures Stored(w, k) != {}
    {
      MessagesAreNotEmpty(w.works[id]);
      var first := Messages(w.works[id])[0].batch;
      assert first[0] in first;
      assert first[0].id in Stored(w, k);
    }
  }

  /** A positive count column was reported by a completion that took effect. */
  lemma {:induction false} CountHasSource(s: Jobs.System, steps: seq<Jobs.Step>, k: Key) returns (i: nat)
    requires k in s.rows ==> s.rows[k].vectorCount <= 0
    requires var rows := Jobs.After(s, steps).rows; k in rows && rows[k].vectorCount > 0
    ensures Jobs.Calls(s, steps, i, k) && steps[i].Finish?
    ensures steps[i].vectorCount == Jobs.After(s, steps).rows[k].vectorCount
  {
    var n := |steps| - 1;
    var before := Jobs.After(s, steps[..n]);
    Jobs.LastStepCalls(s, steps, k);
    if Jobs.Calls(s, steps, n, k) && steps[n].Finish? {
      i := n;
    } else {
      assert k in before.rows && before.rows[k].vectorCount == Jobs.After(s, steps).rows[k].vectorCount;
      i := CountHasSource(s, steps[..n], k);
      Jobs.TakesSplit(s, steps, i, steps[i].id);
    }
  }

  lemma SmallerSet(a: set<string>, b: set<string>)
    requires a <= b
    ensures |a| <= |b|
  {
    assert b == a + (b - a);
  }

  /** The store holds every point that a completed job on the pair made. */
  lemma MadeIsStored(w: World, k: Key, id: int)
    requires Consistent(w) && id in w.start.jobs && Jobs.Holds(w.start.jobs[id], k)
    requires w.sent[id] == |Messages(w.works[id])| && w.works[id].Runs?
    requires var work := w.works[id]; Job(work.batchSize, work.uuid, work.files, work.closing).1.Completed?
    ensures var work := w.works[id];
            Ids(Job(work.batchSize, work.uuid, work.files, work.closing).0.made) <= Stored(w, k)
  {
    var work := w.works[id];
    var s := Job(work.batchSize, work.uuid, work.files, work.closing).0;
    NoPointIsDropped(work.batchSize, work.uuid, work.files, work.closing);
    forall x | x in Ids(s.made)
      ensures x in Stored(w, k)
    {
      var j :| 0 <= j < |s.made| && s.made[j].id == x;
      assert Delivered(s.deliveries, s.made[j]);
      var b :| 0 <= b < |s.deliveries| && s.made[j] in s.deliveries[b].batch;
      assert s.made[j] in Messages(work)[b].batch;
    }
  }

  lemma CompletedCount(work: Work)
    requires work.Runs? && NeverRepeats(work.uuid)
    requires Job(work.batchSize, work.uuid, work.files, work.closing).1.Completed?
    ensures var (s, ending) := Job(work.batchSize, work.uuid, work.files, work.closing);
            ending.vectorCount <= |Ids(s.made)|
  {
    CompletedStoreIsWhatWasMade(work.batchSize, work.uuid, work.files, work.closing);
    var s := Job(work.batchSize, work.uuid, work.files, work.closing).0;
    assert |StoreOf(s.deliveries)| == |StoreOf(s.deliveries).Keys|;
  }

  /** The count column of a row never exceeds the number of the pair's points in the store, whatever
      failed: a stale or complete row that counts a vector has one. */
  lemma CountNeverOverstates(w: World, k: Key)
    requires Consistent(w)
    requires k in w.start.rows ==> w.start.rows[k].vectorCount <= 0
    ensures var rows := Jobs.After(w.start, w.steps).rows;
            k in rows ==> rows[k].vectorCount <= |Stored(w, k)|
  {
    var rows := Jobs.After(w.start, w.steps).rows;
    if k in rows && rows[k].vectorCount > 0 {
      var i := CountHasSource(w.start, w.steps, k);
      var id := w.steps[i].id;
      var work := w.works[id];
      assert Jobs.Takes(w.start, w.steps, i, id) && Fits(work, w.steps[i]);
      CompletedCount(work);
      MadeIsStored(w, k, id);
      SmallerSet(Ids(Job(work.batchSize, work.uuid, work.files, work.closing).0.made), Stored(w, k));
    }
  }

  // ---------------------------------------------------------------- pending is not empty

  /** The second of two one-chunk files is refused by the queue, as is the final flush. */
  function RefusedLater(uuid: nat -> string): Work {
    var refused := Flush(false, OK);
    var files := [Readable("a", [Plain("x")]), Readable("b", [Plain("y").(flush := refused)])];
    Runs(1, uuid, files, Closing(refused, true, OK))
  }

  lemma RefusedLaterReverts(uuid: nat -> string)
    ensures var work := RefusedLater(uuid);
            && |Messages(work)| == 1
            && Job(work.batchSize, work.uuid, work.files, work.closing).1 == Reverted(true)
  {
    var work := RefusedLater(uuid);
    var x, y := Plain("x"), Plain("y").(flush := Flush(false, OK));
    TwoChunks(1, uuid, START, x, y);
    var s1 := ChunkStep(1, uuid, START, "a", 0, x).0;
    assert s1.points == [] && |s1.deliveries| == 1 && !s1.aborted;
    var s2 := ChunkStep(1, uuid, s1, "b", 0, y).0;
    assert s2.points != [] && s2.deliveries == s1.deliveries && !s2.aborted;
    assert Job(1, uuid, work.files, work.closing) == Closed(s2, 2, work.closing);
  }

  /** One job with the given work that starts, has sent `n` messages, and has failed. */
  function FailedAlone(work: Work, n: nat): World {
    World(Jobs.System(map[], map[7 := Jobs.Job({1}, "a", Jobs.Waiting)]), [Jobs.Start(7, 3, true), Jobs.Fail(7, true)],
          map[7 := work], map[7 := n])
  }

  lemma RevertedToPending()
    ensures var s0 := Jobs.System(map[], map[7 := Jobs.Job({1}, "a", Jobs.Waiting)]);
            var steps := [Jobs.Start(7, 3, true), Jobs.Fail(7, true)];
            && Jobs.Takes(s0, steps, 0, 7)
            && HasStatus(Jobs.After(s0, steps).rows, Coverage.Key(1, "a"), Coverage.Pending)
  {
    var s0, k := Jobs.System(map[], map[7 := Jobs.Job({1}, "a", Jobs.Waiting)]), Coverage.Key(1, "a");
    var steps := [Jobs.Start(7, 3, true), Jobs.Fail(7, true)];
    assert steps[..1] == [steps[0]] && steps[..1][..0] == [] && steps[..0] == [];
    assert Jobs.After(s0, steps[..1][..0]) == s0;
    var s1 := Jobs.After(s0, steps[..1]);
    assert s1 == Jobs.Next(s0, steps[0]);
    assert Coverage.Covers(Coverage.Began({1}, "a", 3), k);
    assert k in s1.rows && s1.rows[k] == Coverage.Row(3, Coverage.Building, 0, 0);
    assert Jobs.After(s0, steps) == Jobs.Next(s1, steps[1]);
  }

  lemma OneJobIsConsistent(w: World, work: Work)
    requires w.start.jobs.Keys == w.works.Keys == w.sent.Keys == {7} && w.start.jobs[7].phase == Jobs.Waiting
    requires w.works[7] == work && w.sent[7] == |Messages(work)| && (work.Runs? ==> NeverRepeats(work.uuid))
    requires w.steps != [] && Jobs.Takes(w.start, w.steps, 0, 7) && w.steps[0].Start?
    requires forall i :: 0 <= i < |w.steps| ==> Fits(work, w.steps[i])
    ensures Consistent(w)
  {}

  /** The documentation says that a pending pair has nothing in its collection.  One job whose later
      sends fail is enough to break that. */
  lemma PendingWithVectors(uuid: nat -> string)
    requires NeverRepeats(uuid)
    ensures var w, k := FailedAlone(RefusedLater(uuid), 1), Coverage.Key(1, "a");
            && Consistent(w)
            && HasStatus(Jobs.After(w.start, w.steps).rows, k, Coverage.Pending)
            && Stored(w, k) != {}
  {
    RefusedLaterReverts(uuid);
    RevertedToPending();
    OneJobIsConsistent(FailedAlone(RefusedLater(uuid), 1), RefusedLater(uuid));
    NothingStoredIff(FailedAlone(RefusedLater(uuid), 1), Coverage.Key(1, "a"));
  }
}
