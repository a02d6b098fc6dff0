/** The invariants of the ingestion job and how its steps keep them. */
module IngestionInvariants {
  import opened Ingestion

  // ---------------------------------------------------------------- vocabulary

  function Flat(ds: seq<Delivery>): seq<Point> {
    if ds == [] then [] else Flat(ds[..|ds| - 1]) + ds[|ds| - 1].batch
  }

  ghost predicate Delivered(ds: seq<Delivery>, p: Point) {
    exists b :: 0 <= b < |ds| && p in ds[b].batch
  }

  /** Identifiers are drawn from a source that never repeats one. */
  ghost predicate NeverRepeats(uuid: nat -> string) {
    forall i: nat, j: nat :: uuid(i) == uuid(j) ==> i == j
  }

  ghost predicate CommitHolds(c: Commit) {
    !c.raises && c.durable
  }

  /** How well the environment behaves: anything may fail; commits succeed; inserts succeed too;
      payloads and sends succeed too, so that only reads and embeddings fail. */
  datatype Weather = Any | Quiet | Steady | Smooth

  ghost predicate Allows(w: Weather, batchSize: int, a: Attempt) {
    && (w != Any ==> CommitHolds(a.flush.commit))
    && (w == Steady || w == Smooth ==> a.inserts)
    && (w == Smooth ==> a.builds && a.flush.sends && batchSize >= 1)
  }

  ghost predicate AllAllowed(w: Weather, batchSize: int, files: seq<File>) {
    forall f, i :: f in files && f.Readable? && 0 <= i < |f.attempts| ==> Allows(w, batchSize, f.attempts[i])
  }

  predicate AllOk(answers: seq<bool>) {
    forall i :: 0 <= i < |answers| ==> answers[i]
  }

  function CountOk(answers: seq<bool>): (n: nat)
    ensures n <= |answers|
  {
    if answers == [] then 0
    else CountOk(answers[..|answers| - 1]) + if answers[|answers| - 1] then 1 else 0
  }

  lemma {:induction false} CountOkIff(answers: seq<bool>)
    ensures CountOk(answers) == |answers| <==> AllOk(answers)
  {
    if answers != [] {
      CountOkIff(answers[..|answers| - 1]);
    }
  }

  lemma OneMoreAnswer(answers: seq<bool>, ok: bool)
    ensures CountOk(answers + [ok]) == CountOk(answers) + if ok then 1 else 0
    ensures AllOk(answers + [ok]) <==> AllOk(answers) && ok
  {
    var more := answers + [ok];
    assert more[..|answers|] == answers && more[|answers|] == ok;
    assert forall i :: 0 <= i < |answers| ==> more[i] == answers[i];
  }

  /** No commit that followed a send raised. */
  ghost predicate NoneRaised(ds: seq<Delivery>) {
    forall b :: 0 <= b < |ds| ==> !ds[b].commit.raises
  }

  // ---------------------------------------------------------------- the invariants

  /** Holds after any failures: the batch in hand is the newest part of what was made, everything
      older was delivered, and nothing else was. */
  ghost predicate Safe(uuid: nat -> string, s: State) {
    && |s.points| <= |s.made|
    && s.points == s.made[|s.made| - |s.points|..]
    && (forall k {:trigger Delivered(s.deliveries, s.made[k])} ::
          0 <= k < |s.made| - |s.points| ==> Delivered(s.deliveries, s.made[k]))
    && (forall b, p :: 0 <= b < |s.deliveries| && p in s.deliveries[b].batch ==> p in s.made)
    && (forall k :: 0 <= k < |s.made| ==> s.made[k].id == uuid(k))
  }

  /** Holds after any failures: one insert per point, `idx` counts those that succeeded, batches are
      not empty, and a point is sent again only after a commit that raised. */
  ghost predicate Counted(s: State) {
    && |s.made| == |s.inserts|
    && s.idx == CountOk(s.inserts)
    && (forall b :: 0 <= b < |s.deliveries| ==> s.deliveries[b].batch != [])
    && (if NoneRaised(s.deliveries) then Flat(s.deliveries) + s.points == s.made
        else |Flat(s.deliveries)| + |s.points| > |s.made|)
  }

  /** Holds inside the loops: a failed insert aborts the transaction for the rest of the job, because
      a flush needs a successful insert before it. */
  ghost predicate AbortedSinceFailure(s: State) {
    (s.aborted <==> !AllOk(s.inserts)) && (s.aborted ==> s.points != [])
  }

  /** Holds while commits succeed: the durable rows are those of the sent points, and the open rows
      those of the first points in hand, of all of them unless the transaction is aborted. */
  ghost predicate Calm(s: State) {
    && NoneRaised(s.deliveries)
    && s.committed == RowsOf(Flat(s.deliveries))
    && |s.uncommitted| <= |s.points| && s.uncommitted == RowsOf(s.points[..|s.uncommitted|])
    && (s.aborted <==> |s.uncommitted| < |s.points|)
    && s.idx == |s.committed| + |s.uncommitted|
    && (forall b :: 0 <= b < |s.deliveries| ==> s.deliveries[b].uncommitted == RowsOf(s.deliveries[b].batch))
  }

  /** Holds while sends succeed too: only full batches were sent and less than one is in hand. */
  ghost predicate FullBatches(batchSize: int, s: State) {
    && |s.points| < batchSize
    && (forall b :: 0 <= b < |s.deliveries| ==> |s.deliveries[b].batch| == batchSize)
  }

  ghost predicate Inv(w: Weather, batchSize: int, uuid: nat -> string, s: State) {
    && Safe(uuid, s) && Counted(s) && AbortedSinceFailure(s)
    && (w != Any ==> Calm(s))
    && (w == Steady || w == Smooth ==> AllOk(s.inserts))
    && (w == Smooth ==> FullBatches(batchSize, s))
  }

  lemma RowsOfAppend(a: seq<Point>, b: seq<Point>)
    ensures RowsOf(a + b) == RowsOf(a) + RowsOf(b)
  {}

  lemma FlatAppend(ds: seq<Delivery>, d: Delivery)
    ensures Flat(ds + [d]) == Flat(ds) + d.batch
  {
    assert (ds + [d])[..|ds|] == ds;
  }

  lemma RaisedAppend(ds: seq<Delivery>, d: Delivery)
    ensures NoneRaised(ds + [d]) <==> NoneRaised(ds) && !d.commit.raises
  {
    assert (ds + [d])[|ds|] == d && forall b :: 0 <= b < |ds| ==> (ds + [d])[b] == ds[b];
  }

  // ---------------------------------------------------------------- what a flush keeps

  /** Sending the points in hand delivers everything that was made. */
  lemma SendingDeliversAll(uuid: nat -> string, s: State, d: Delivery)
    requires Safe(uuid, s) && d.batch == s.points
    ensures forall k :: 0 <= k < |s.made| ==> Delivered(s.deliveries + [d], s.made[k])
  {
    var ds := s.deliveries + [d];
    forall k | 0 <= k < |s.made|
      ensures Delivered(ds, s.made[k])
    {
      if k < |s.made| - |s.points| {
        assert Delivered(s.deliveries, s.made[k]);
        var b :| 0 <= b < |s.deliveries| && s.made[k] in s.deliveries[b].batch;
        assert s.made[k] in ds[b].batch;
      } else {
        assert s.made[k] == s.points[k - (|s.made| - |s.points|)];
        assert s.made[k] in ds[|s.deliveries|].batch;
      }
    }
  }

  lemma FlushKeepsSafe(uuid: nat -> string, s: State, f: Flush)
    requires Safe(uuid, s)
    ensures Safe(uuid, Flushed(s, f).0)
  {
    if f.sends {
      SendingDeliversAll(uuid, s, Delivery(s.points, s.uncommitted, f.commit));
    }
  }

  lemma FlushKeepsCounted(s: State, f: Flush)
    requires Counted(s) && s.points != []
    ensures Counted(Flushed(s, f).0)
  {
    if f.sends {
      var d := Delivery(s.points, s.uncommitted, f.commit);
      var s' := Flushed(s, f).0;
      FlatAppend(s.deliveries, d);
      RaisedAppend(s.deliveries, d);
      assert s'.deliveries == s.deliveries + [d];
      if NoneRaised(s'.deliveries) {
        assert s'.points == [] && Flat(s'.deliveries) + [] == s.made;
      }
    }
  }

  /** A flush with no aborted transaction moves its rows to the durable ones. */
  lemma FlushKeepsCalm(s: State, f: Flush)
    requires Calm(s) && !s.aborted && CommitHolds(f.commit)
    ensures Calm(Flushed(s, f).0)
  {
    if f.sends {
      var d := Delivery(s.points, s.uncommitted, f.commit);
      var s' := Flushed(s, f).0;
      FlatAppend(s.deliveries, d);
      RaisedAppend(s.deliveries, d);
      RowsOfAppend(Flat(s.deliveries), s.points);
      assert s.points[..|s.points|] == s.points;
      assert s'.deliveries == s.deliveries + [d];
      assert s'.committed == RowsOf(Flat(s'.deliveries));
    }
  }

  // ---------------------------------------------------------------- what a chunk keeps

  /** Appending the next point, whatever its insert answers. */
  lemma AppendKeepsSafe(uuid: nat -> string, s: State, s': State, p: Point)
    requires Safe(uuid, s) && p.id == uuid(|s.made|)
    requires s'.points == s.points + [p] && s'.made == s.made + [p] && s'.deliveries == s.deliveries
    ensures Safe(uuid, s')
  {
    forall k {:trigger Delivered(s'.deliveries, s'.made[k])} | 0 <= k < |s'.made| - |s'.points|
      ensures Delivered(s'.deliveries, s'.made[k])
    {
      assert Delivered(s.deliveries, s.made[k]);
    }
    forall b, q | 0 <= b < |s'.deliveries| && q in s'.deliveries[b].batch
      ensures q in s'.made
    {
      assert q in s.made;
    }
  }

  lemma AppendKeepsCounted(s: State, s': State, p: Point, ok: bool)
    requires Counted(s)
    requires s'.points == s.points + [p] && s'.made == s.made + [p] && s'.deliveries == s.deliveries
    requires s'.inserts == s.inserts + [ok] && s'.idx == s.idx + if ok then 1 else 0
    ensures Counted(s')
  {
    OneMoreAnswer(s.inserts, ok);
    assert Flat(s.deliveries) + (s.points + [p]) == Flat(s.deliveries) + s.points + [p];
  }

  /** The state right after the insert of point `p` answered `ok`. */
  function Inserted(s: State, p: Point, ok: bool): State {
    var appended := s.(points := s.points + [p], made := s.made + [p], inserts := s.inserts + [ok]);
    if ok then appended.(uncommitted := s.uncommitted + [RowOf(p)], idx := s.idx + 1)
    else appended.(aborted := true)
  }

  lemma InsertKeepsCalm(s: State, p: Point, ok: bool)
    requires Calm(s) && (ok ==> !s.aborted)
    ensures Calm(Inserted(s, p, ok))
  {
    var s' := Inserted(s, p, ok);
    if ok {
      assert s.points[..|s.points|] == s.points && s'.points[..|s'.points|] == s'.points;
      RowsOfAppend(s.points, [p]);
    } else {
      assert s'.points[..|s.uncommitted|] == s.points[..|s.uncommitted|];
    }
  }

  lemma InsertKeepsInv(w: Weather, batchSize: int, uuid: nat -> string, s: State, p: Point, ok: bool)
    requires Inv(w, batchSize, uuid, s) && p.id == uuid(|s.made|) && (ok ==> !s.aborted)
    requires w == Steady || w == Smooth ==> ok
    ensures Inv(if w == Smooth then Steady else w, batchSize, uuid, Inserted(s, p, ok))
  {
    var s' := Inserted(s, p, ok);
    AppendKeepsSafe(uuid, s, s', p);
    AppendKeepsCounted(s, s', p, ok);
    OneMoreAnswer(s.inserts, ok);
    if w != Any {
      InsertKeepsCalm(s, p, ok);
    }
  }

  lemma FlushKeepsInv(w: Weather, batchSize: int, uuid: nat -> string, s: State, f: Flush)
    requires Inv(if w == Smooth then Steady else w, batchSize, uuid, s) && !s.aborted && s.points != []
    requires w != Any ==> CommitHolds(f.commit)
    requires w == Smooth ==> f.sends && |s.points| == batchSize
    requires w == Smooth ==> forall b :: 0 <= b < |s.deliveries| ==> |s.deliveries[b].batch| == batchSize
    ensures Inv(w, batchSize, uuid, Flushed(s, f).0)
  {
    FlushKeepsSafe(uuid, s, f);
    FlushKeepsCounted(s, f);
    if w != Any {
      FlushKeepsCalm(s, f);
    }
  }

  /** A chunk step that gets as far as the insert is an insert and, at the threshold, a flush. */
  lemma ChunkStepIs(batchSize: int, uuid: nat -> string, s: State, key: string, i: nat, a: Attempt)
    requires a.embedding.Some? && a.builds
    ensures var p, ok := Point(uuid(|s.made|), key, i, a.text, a.embedding.value), a.inserts && !s.aborted;
            ChunkStep(batchSize, uuid, s, key, i, a).0 ==
            if ok && |s.points| + 1 >= batchSize then Flushed(Inserted(s, p, ok), a.flush).0 else Inserted(s, p, ok)
  {}

  lemma ChunkKeepsInv(w: Weather, batchSize: int, uuid: nat -> string, s: State, key: string, i: nat, a: Attempt)
    requires Inv(w, batchSize, uuid, s) && Allows(w, batchSize, a)
    ensures Inv(w, batchSize, uuid, ChunkStep(batchSize, uuid, s, key, i, a).0)
  {
    var s' := ChunkStep(batchSize, uuid, s, key, i, a).0;
    if a.embedding.None? {
      SameButFailed(w, batchSize, uuid, s, s');
    } else if a.builds {
      ChunkStepIs(batchSize, uuid, s, key, i, a);
      var p, ok := Point(uuid(|s.made|), key, i, a.text, a.embedding.value), a.inserts && !s.aborted;
      InsertKeepsInv(w, batchSize, uuid, s, p, ok);
      if ok && |s.points| + 1 >= batchSize {
        FlushKeepsInv(w, batchSize, uuid, Inserted(s, p, ok), a.flush);
      }
    }
  }

  lemma SameButFailed(w: Weather, batchSize: int, uuid: nat -> string, s: State, s': State)
    requires Inv(w, batchSize, uuid, s) && s' == s.(failedChunks := s'.failedChunks)
    ensures Inv(w, batchSize, uuid, s')
  {}

  // ---------------------------------------------------------------- what the loops keep

  /** What each chunk keeps, the loops keep. */
  ghost predicate KeptByChunks(inv: State -> bool, w: Weather, batchSize: int, uuid: nat -> string) {
    forall s, key, i: nat, a :: inv(s) && Allows(w, batchSize, a) ==> inv(ChunkStep(batchSize, uuid, s, key, i, a).0)
  }

  lemma {:induction false} FileKeeps(inv: State -> bool, w: Weather, batchSize: int, uuid: nat -> string, s: State,
                                     f: File, i: nat)
    requires f.Readable? && i <= |f.attempts|
    requires forall j :: 0 <= j < |f.attempts| ==> Allows(w, batchSize, f.attempts[j])
    requires KeptByChunks(inv, w, batchSize, uuid) && inv(s)
    ensures inv(ChunksFrom(batchSize, uuid, s, f, i))
    decreases |f.attempts| - i
  {
    if i < |f.attempts| {
      var (s', raised) := ChunkStep(batchSize, uuid, s, f.key, i, f.attempts[i]);
      assert inv(s');
      if !raised {
        FileKeeps(inv, w, batchSize, uuid, s', f, i + 1);
      }
    }
  }

  lemma {:induction false} FilesKeep(inv: State -> bool, w: Weather, batchSize: int, uuid: nat -> string, s: State,
                                     files: seq<File>, k: nat)
    requires k <= |files| && AllAllowed(w, batchSize, files)
    requires KeptByChunks(inv, w, batchSize, uuid) && inv(s)
    ensures inv(FilesFrom(batchSize, uuid, s, files, k))
    decreases |files| - k
  {
    if k < |files| {
      var f := files[k];
      assert f in files;
      if f.Readable? {
        FileKeeps(inv, w, batchSize, uuid, s, f, 0);
      }
      FilesKeep(inv, w, batchSize, uuid, FileStep(batchSize, uuid, s, f), files, k + 1);
    }
  }

  predicate Empty(s: State) {
    s.points == [] && s.made == [] && s.deliveries == [] && s.uncommitted == [] && s.committed == [] &&
    s.inserts == [] && s.failedChunks == [] && s.idx == 0 && !s.aborted
  }

  lemma EmptyIsSafe(uuid: nat -> string, s: State)
    requires Empty(s)
    ensures Safe(uuid, s)
  {
    assert |s.made| == 0 && |s.deliveries| == 0;
  }

  lemma EmptyIsCounted(s: State)
    requires Empty(s)
    ensures Counted(s) && AbortedSinceFailure(s) && Calm(s)
  {
    assert Flat(s.deliveries) == [];
  }

  lemma EmptyIsInv(w: Weather, batchSize: int, uuid: nat -> string, s: State)
    requires Empty(s) && (w == Smooth ==> batchSize >= 1)
    ensures Inv(w, batchSize, uuid, s)
  {
    EmptyIsSafe(uuid, s);
    EmptyIsCounted(s);
  }

  lemma LoopsKeepInv(w: Weather, batchSize: int, uuid: nat -> string, s: State, files: seq<File>)
    requires AllAllowed(w, batchSize, files) && (w == Smooth ==> batchSize >= 1)
    requires Empty(s)
    ensures Inv(w, batchSize, uuid, FilesFrom(batchSize, uuid, s, files, 0))
  {
    var inv := (s: State) => Inv(w, batchSize, uuid, s);
    forall s, key, i: nat, a | inv(s) && Allows(w, batchSize, a)
      ensures inv(ChunkStep(batchSize, uuid, s, key, i, a).0)
    {
      ChunkKeepsInv(w, batchSize, uuid, s, key, i, a);
    }
    EmptyIsInv(w, batchSize, uuid, s);
    FilesKeep(inv, w, batchSize, uuid, s, files, 0);
  }

  lemma LoopsEndInInv(w: Weather, batchSize: int, uuid: nat -> string, files: seq<File>)
    requires AllAllowed(w, batchSize, files) && (w == Smooth ==> batchSize >= 1)
    ensures Inv(w, batchSize, uuid, FilesFrom(batchSize, uuid, START, files, 0))
  {
    LoopsKeepInv(w, batchSize, uuid, START, files);
  }

  // ---------------------------------------------------------------- closing the job

  /** The state in front of the coverage call, and whether the final flush raised. */
  function AfterFinalFlush(s: State, c: Closing): (State, bool) {
    if s.points == [] then (s, false) else Flushed(s, c.final)
  }

  lemma ClosedIs(s: State, fileCount: nat, c: Closing)
    ensures var (s', raised) := AfterFinalFlush(s, c);
            Closed(s, fileCount, c) ==
              (Settled(s', c),
               if raised then Reverted(CallTakes(s', c)) else Completed(s'.idx, fileCount, CallTakes(s', c)))
  {}

  /** The facts that survive the end of the job. */
  ghost predicate Final(uuid: nat -> string, s: State, ending: Ending) {
    && Safe(uuid, s) && Counted(s)
    && (ending.Completed? <==> s.points == [])
    && (ending.Completed? ==> ending.vectorCount == s.idx)
  }

  lemma FinalFlushKeeps(w: Weather, batchSize: int, uuid: nat -> string, s: State, c: Closing)
    requires Inv(w, batchSize, uuid, s)
    ensures var (s', raised) := AfterFinalFlush(s, c);
            && Safe(uuid, s') && Counted(s') && (!raised <==> s'.points == [])
            && s'.made == s.made && s'.inserts == s.inserts && s'.failedChunks == s.failedChunks
            && (s'.aborted <==> !AllOk(s.inserts) && !c.final.sends)
  {
    FlushKeepsSafe(uuid, s, c.final);
    if s.points != [] {
      FlushKeepsCounted(s, c.final);
    }
  }

  lemma ClosingIsFinal(w: Weather, batchSize: int, uuid: nat -> string, s: State, fileCount: nat, c: Closing)
    requires Inv(w, batchSize, uuid, s)
    ensures var (s', ending) := Closed(s, fileCount, c);
            && Final(uuid, s', ending)
            && s'.made == s.made && s'.inserts == s.inserts && s'.failedChunks == s.failedChunks
            && (ending.recorded <==> c.hasTags && c.coverage.durable && (AllOk(s.inserts) || c.final.sends))
  {
    FinalFlushKeeps(w, batchSize, uuid, s, c);
    ClosedIs(s, fileCount, c);
    var s' := AfterFinalFlush(s, c).0;
    var settled := Settled(s', c);
    assert settled.points == s'.points && settled.made == s'.made && settled.deliveries == s'.deliveries;
    assert settled.inserts == s'.inserts && settled.idx == s'.idx;
    SameSafe(uuid, s', settled);
  }

  lemma SameSafe(uuid: nat -> string, s: State, s': State)
    requires Safe(uuid, s) && Counted(s)
    requires s'.points == s.points && s'.made == s.made && s'.deliveries == s.deliveries
    requires s'.inserts == s.inserts && s'.idx == s.idx
    ensures Safe(uuid, s') && Counted(s')
  {}
}
