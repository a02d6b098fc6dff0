/** What the ingestion job guarantees under every pattern of failures. */
module IngestionProperties {
  import opened Wrappers
  import opened Ingestion
  import opened IngestionAnswers
  import opened IngestionCuts
  import opened IngestionInvariants
  import opened IngestionLedger

  // ---------------------------------------------------------------- nothing is dropped

  /** The answers determine the job.  Each file is processed exactly up to its forced cut: in front of
      the first chunk whose payload cannot be built, or right behind the first one whose insert is
      refused or whose flush at the threshold fails.  The chunks in front of the cuts are the points
      made; the messages are the stretches of them that the answers say; and the ending is theirs. */
  lemma AnswersDetermineTheJob(batchSize: int, uuid: nat -> string, files: seq<File>, c: Closing)
    ensures var (s, ending) := Job(batchSize, uuid, files, c);
            exists cuts ::
              && MadeFrom(batchSize, files, cuts, s)
              && EndsAs(batchSize, TriedUpTo(files, cuts), c, |files|, s, ending)
              && forall cuts' :: Cuts(files, cuts') && Forced(batchSize, files, cuts') ==> cuts' == cuts
  {
    var cuts := JobIsFinal(batchSize, uuid, files, c);
    forall cuts' | Cuts(files, cuts') && Forced(batchSize, files, cuts')
      ensures cuts' == cuts
    {
      ForcedIsUnique(batchSize, files, cuts, cuts');
    }
  }

  /** After any failures, the points made are the embedded chunks in front of the forced cuts; each was
      sent or is still in hand, nothing else was sent, and a job that reaches the complete step has
      sent them all. */
  lemma NoPointIsDropped(batchSize: int, uuid: nat -> string, files: seq<File>, c: Closing)
    ensures var (s, ending) := Job(batchSize, uuid, files, c);
            && (exists cuts :: MadeFrom(batchSize, files, cuts, s))
            && (forall p :: p in s.made ==> Delivered(s.deliveries, p) || p in s.points)
            && (forall b, p :: 0 <= b < |s.deliveries| && p in s.deliveries[b].batch ==> p in s.made)
            && (ending.Completed? ==> forall p :: p in s.made ==> Delivered(s.deliveries, p))
  {
    var cuts := JobIsFinal(batchSize, uuid, files, c);
    SafeIsComplete(uuid, Job(batchSize, uuid, files, c).0);
  }

  lemma SafeIsComplete(uuid: nat -> string, s: State)
    requires Safe(uuid, s)
    ensures forall p :: p in s.made ==> Delivered(s.deliveries, p) || p in s.points
    ensures forall b, p :: 0 <= b < |s.deliveries| && p in s.deliveries[b].batch ==> p in s.made
  {
    forall p | p in s.made
      ensures Delivered(s.deliveries, p) || p in s.points
    {
      var k :| 0 <= k < |s.made| && s.made[k] == p;
      if k >= |s.made| - |s.points| {
        assert s.points[k - (|s.made| - |s.points|)] == p;
      } else {
        assert Delivered(s.deliveries, s.made[k]);
      }
    }
  }

  /** Every row of an accepted insert was open at one send or is left over, and the commit of its own
      transaction, or the closing call, decides whether it is durable. */
  lemma BackupIsAccounted(batchSize: int, uuid: nat -> string, files: seq<File>, c: Closing)
    ensures var (s, ending) := Job(batchSize, uuid, files, c);
            |s.made| == |s.inserts| && exists left :: Accounted(s, c, ending, left)
  {
    LoopsEndInInv(Any, batchSize, uuid, files);
    LoopsKeepLedger(batchSize, uuid, START, files);
    var left := CloseAccounts(FilesFrom(batchSize, uuid, START, files, 0), |files|, c);
  }

  /** A completed job has sent exactly the points made, each once and in order, exactly when no commit
      raised after a send. */
  lemma PointsTravelOnceIff(batchSize: int, uuid: nat -> string, files: seq<File>, c: Closing)
    requires Job(batchSize, uuid, files, c).1.Completed?
    ensures var (s, ending) := Job(batchSize, uuid, files, c);
            Flat(s.deliveries) == s.made <==> NoneRaised(s.deliveries)
  {
    var _ := JobIsFinal(batchSize, uuid, files, c);
    var s := Job(batchSize, uuid, files, c).0;
    assert Flat(s.deliveries) + [] == Flat(s.deliveries);
  }

  /** The closing call takes effect exactly when its commit holds and the transaction is usable: a
      failed insert followed by a failed last send makes the database refuse the revert. */
  lemma RecordedIff(batchSize: int, uuid: nat -> string, files: seq<File>, c: Closing)
    ensures var (s, ending) := Job(batchSize, uuid, files, c);
            ending.recorded <==> c.hasTags && c.coverage.durable && (AllOk(s.inserts) || c.final.sends)
  {
    var _ := JobIsFinal(batchSize, uuid, files, c);
  }

  // ---------------------------------------------------------------- the store at the end

  function PutAll(store: map<string, Point>, batch: seq<Point>): map<string, Point> {
    if batch == [] then store
    else
      var p := batch[|batch| - 1];
      PutAll(store, batch[..|batch| - 1])[p.id := p]
  }

  /** The vector store after applying every accepted upsert in order. */
  function StoreOf(ds: seq<Delivery>): map<string, Point> {
    if ds == [] then map[] else PutAll(StoreOf(ds[..|ds| - 1]), ds[|ds| - 1].batch)
  }

  ghost predicate Numbered(uuid: nat -> string, made: seq<Point>) {
    NeverRepeats(uuid) && forall k :: 0 <= k < |made| ==> made[k].id == uuid(k)
  }

  /** A store whose entries are exactly some of the made points, under their own keys. */
  ghost predicate Mirrors(store: map<string, Point>, made: seq<Point>) {
    forall id :: id in store ==> store[id] in made && store[id].id == id
  }

  lemma SameIdSamePoint(uuid: nat -> string, made: seq<Point>, p: Point, q: Point)
    requires Numbered(uuid, made) && p in made && q in made && p.id == q.id
    ensures p == q
  {
    var i :| 0 <= i < |made| && made[i] == p;
    var j :| 0 <= j < |made| && made[j] == q;
    assert uuid(i) == uuid(j);
  }

  lemma {:induction false} PutAllMirrors(uuid: nat -> string, store: map<string, Point>, batch: seq<Point>,
                                         made: seq<Point>)
    requires Numbered(uuid, made) && Mirrors(store, made) && forall p :: p in batch ==> p in made
    ensures Mirrors(PutAll(store, batch), made)
    ensures store.Keys <= PutAll(store, batch).Keys
    ensures forall p :: p in batch ==> p.id in PutAll(store, batch)
  {
    if batch != [] {
      var init, last := batch[..|batch| - 1], batch[|batch| - 1];
      assert forall p :: p in batch <==> p in init || p == last;
      PutAllMirrors(uuid, store, init, made);
    }
  }

  lemma {:induction false} StoreMirrors(uuid: nat -> string, ds: seq<Delivery>, made: seq<Point>)
    requires Numbered(uuid, made)
    requires forall b, p :: 0 <= b < |ds| && p in ds[b].batch ==> p in made
    ensures Mirrors(StoreOf(ds), made)
    ensures forall b, p :: 0 <= b < |ds| && p in ds[b].batch ==> p.id in StoreOf(ds)
  {
    if ds != [] {
      var init := ds[..|ds| - 1];
      forall b, p | 0 <= b < |init| && p in init[b].batch
        ensures p in made
      {
        assert p in ds[b].batch;
      }
      StoreMirrors(uuid, init, made);
      PutAllMirrors(uuid, StoreOf(init), ds[|ds| - 1].batch, made);
      forall b, p | 0 <= b < |ds| && p in ds[b].batch
        ensures p.id in StoreOf(ds)
      {
        if b < |init| {
          assert p in init[b].batch;
        }
      }
    }
  }

  function Ids(made: seq<Point>): set<string> {
    set k | 0 <= k < |made| :: made[k].id
  }

  lemma {:induction false} DistinctIds(uuid: nat -> string, made: seq<Point>)
    requires Numbered(uuid, made)
    ensures |Ids(made)| == |made|
  {
    if made != [] {
      var init, last := made[..|made| - 1], made[|made| - 1];
      DistinctIds(uuid, init);
      assert Ids(made) == Ids(init) + {last.id};
      assert last.id !in Ids(init);
    }
  }

  /** The store of a completed job is the made points under their keys, no more and no less: one per
      insert call.  The recorded count is that of the inserts that succeeded, so it is the store's
      size exactly when all of them did. */
  lemma CompletedStoreIsWhatWasMade(batchSize: int, uuid: nat -> string, files: seq<File>, c: Closing)
    requires NeverRepeats(uuid)
    requires Job(batchSize, uuid, files, c).1.Completed?
    ensures var (s, ending) := Job(batchSize, uuid, files, c);
            var store := StoreOf(s.deliveries);
            && store.Keys == Ids(s.made)
            && (forall p :: p in s.made ==> p.id in store && store[p.id] == p)
            && |store| == |s.inserts| && ending.vectorCount == CountOk(s.inserts)
            && (ending.vectorCount == |store| <==> AllOk(s.inserts))
  {
    var _ := JobIsFinal(batchSize, uuid, files, c);
    NoPointIsDropped(batchSize, uuid, files, c);
    var (s, ending) := Job(batchSize, uuid, files, c);
    var store := StoreOf(s.deliveries);
    StoreMirrors(uuid, s.deliveries, s.made);
    forall p | p in s.made
      ensures p.id in store && store[p.id] == p
    {
      assert Delivered(s.deliveries, p);
      SameIdSamePoint(uuid, s.made, p, store[p.id]);
    }
    assert store.Keys == Ids(s.made);
    assert |store| == |store.Keys|;
    DistinctIds(uuid, s.made);
    CountOkIff(s.inserts);
  }

  // ---------------------------------------------------------------- when commits succeed

  ghost predicate CalmClosing(c: Closing) {
    CommitHolds(c.final.commit) && CommitHolds(c.coverage)
  }

  /** Closing an aborted transaction makes no row durable, whether or not the points in hand are sent. */
  lemma AbortedClose(batchSize: int, uuid: nat -> string, s: State, fileCount: nat, c: Closing)
    requires Inv(Quiet, batchSize, uuid, s) && CalmClosing(c) && s.aborted
    ensures var (s', ending) := Closed(s, fileCount, c);
            && Flat(s'.deliveries) + s'.points == s.made
            && s'.committed == s.committed && |s.committed| <= s'.idx == s.idx
            && (ending.Completed? ==>
                  s'.deliveries == s.deliveries + [Delivery(s.points, s.uncommitted, c.final.commit)])
  {
    ClosedIs(s, fileCount, c);
    var d := Delivery(s.points, s.uncommitted, c.final.commit);
    FlatAppend(s.deliveries, d);
    assert s.committed + [] == s.committed && Flat(s.deliveries + [d]) + [] == s.made;
  }

  /** Closing a usable one makes the rows of all points durable, unless no call follows a refused send. */
  lemma UsableClose(batchSize: int, uuid: nat -> string, s: State, fileCount: nat, c: Closing)
    requires Inv(Quiet, batchSize, uuid, s) && CalmClosing(c) && !s.aborted
    ensures var (s', ending) := Closed(s, fileCount, c);
            && Flat(s'.deliveries) + s'.points == s.made && s'.idx == s.idx
            && s'.committed == (if s'.points != [] && !c.hasTags then s.committed else RowsOf(s.made))
            && forall b :: 0 <= b < |s'.deliveries| ==>
                 s'.deliveries[b].uncommitted == RowsOf(s'.deliveries[b].batch)
  {
    ClosedIs(s, fileCount, c);
    RowsOfAppend(Flat(s.deliveries), s.points);
    assert s.points[..|s.points|] == s.points;
    if s.points == [] {
      assert Flat(s.deliveries) + [] == Flat(s.deliveries) && s.committed + [] == s.committed;
    } else {
      var flushed := Flushed(s, c.final).0;
      FlushKeepsCounted(s, c.final);
      FlushKeepsCalm(s, c.final);
      assert Flat(flushed.deliveries) + [] == Flat(flushed.deliveries) && flushed.committed + [] == flushed.committed;
    }
  }

  lemma CalmClose(batchSize: int, uuid: nat -> string, s: State, fileCount: nat, c: Closing)
    requires Inv(Quiet, batchSize, uuid, s) && CalmClosing(c)
    ensures var (s', ending) := Closed(s, fileCount, c);
            && Flat(s'.deliveries) + s'.points == s.made
            && s'.committed == (if s.aborted || (s'.points != [] && !c.hasTags) then s.committed else RowsOf(s.made))
            && |s.committed| <= s'.idx == s.idx
            && (s.aborted && ending.Completed? ==>
                  s'.deliveries == s.deliveries + [Delivery(s.points, s.uncommitted, c.final.commit)])
            && (!s.aborted ==> forall b :: 0 <= b < |s'.deliveries| ==>
                  s'.deliveries[b].uncommitted == RowsOf(s'.deliveries[b].batch))
  {
    if s.aborted {
      AbortedClose(batchSize, uuid, s, fileCount, c);
    } else {
      UsableClose(batchSize, uuid, s, fileCount, c);
    }
  }

  /** With only reads, embeddings, payloads and sends failing, the sent batches in order followed by the
      points in hand are the embedded chunks in front of the cuts, and the counts agree everywhere. */
  lemma SteadyJobCounts(batchSize: int, uuid: nat -> string, files: seq<File>, c: Closing)
    requires AllAllowed(Steady, batchSize, files) && CalmClosing(c)
    ensures var (s, ending) := Job(batchSize, uuid, files, c);
            var all := Flat(s.deliveries) + s.points;
            && (exists cuts :: && Cuts(files, cuts) && Forced(batchSize, files, cuts)
                               && ChunksOf(all) == EmbeddedUpTo(files, cuts))
            && s.idx == |all|
            && (forall b :: 0 <= b < |s.deliveries| ==> s.deliveries[b].uncommitted == RowsOf(s.deliveries[b].batch))
            && (ending.Completed? ==>
                  && s.points == [] && s.committed == RowsOf(all)
                  && ending.vectorCount == |Flat(s.deliveries)| == |s.committed|)
  {
    LoopsEndInInv(Steady, batchSize, uuid, files);
    var s0 := FilesFrom(batchSize, uuid, START, files, 0);
    CalmClose(batchSize, uuid, s0, |files|, c);
    var cuts := JobIsFinal(batchSize, uuid, files, c);
    CountOkIff(s0.inserts);
    var s := Job(batchSize, uuid, files, c).0;
    assert s.made == Flat(s.deliveries) + s.points;
    assert ChunksOf(Flat(s.deliveries) + s.points) == EmbeddedUpTo(files, cuts);
  }

  /** A job whose last send fails still makes its open rows durable, because the coverage call
      commits the same connection: the backup then holds rows the store never received. */
  lemma RevertCommitsUnsentRows(batchSize: int, uuid: nat -> string, files: seq<File>, c: Closing)
    requires AllAllowed(Steady, batchSize, files) && CalmClosing(c)
    requires Job(batchSize, uuid, files, c).1.Reverted?
    ensures var (s, _) := Job(batchSize, uuid, files, c);
            && s.points != []
            && s.committed == if c.hasTags then RowsOf(Flat(s.deliveries) + s.points) else RowsOf(Flat(s.deliveries))
  {
    LoopsEndInInv(Steady, batchSize, uuid, files);
    var s0 := FilesFrom(batchSize, uuid, START, files, 0);
    CalmClose(batchSize, uuid, s0, |files|, c);
    var _ := JobIsFinal(batchSize, uuid, files, c);
    assert !c.final.sends;
  }

  /** When commits succeed but an insert failed, a completed job has lost every row that was open when
      that happened: its count equals its durable rows exactly when none was. */
  lemma CommittedRowsIff(batchSize: int, uuid: nat -> string, files: seq<File>, c: Closing)
    requires AllAllowed(Quiet, batchSize, files) && CalmClosing(c)
    requires Job(batchSize, uuid, files, c).1.Completed?
    ensures var (s, ending) := Job(batchSize, uuid, files, c);
            && (AllOk(s.inserts) ==> s.committed == RowsOf(Flat(s.deliveries)) && ending.vectorCount == |s.committed|)
            && (!AllOk(s.inserts) ==>
                  var last := |s.deliveries| - 1;
                  && last >= 0 && s.committed == RowsOf(Flat(s.deliveries[..last]))
                  && ending.vectorCount == |s.committed| + |s.deliveries[last].uncommitted|)
  {
    LoopsEndInInv(Quiet, batchSize, uuid, files);
    var s0 := FilesFrom(batchSize, uuid, START, files, 0);
    CalmClose(batchSize, uuid, s0, |files|, c);
    var _ := JobIsFinal(batchSize, uuid, files, c);
    var s := Job(batchSize, uuid, files, c).0;
    assert Flat(s.deliveries) + [] == Flat(s.deliveries);
    ClosingIsFinal(Quiet, batchSize, uuid, s0, |files|, c);
    if s0.aborted {
      assert s.deliveries[..|s.deliveries| - 1] == s0.deliveries;
    } else {
      CountOkIff(s0.inserts);
    }
  }

  // ---------------------------------------------------------------- when sends succeed too

  lemma {:induction false} FlatLength(ds: seq<Delivery>, size: nat)
    requires forall b :: 0 <= b < |ds| ==> |ds[b].batch| == size
    ensures |Flat(ds)| == |ds| * size
  {
    if ds != [] {
      FlatLength(ds[..|ds| - 1], size);
      assert |ds| * size == (|ds| - 1) * size + size;
    }
  }

  lemma Quotient(x: int, q: nat, r: int, d: int)
    requires 0 <= r < d && x == q * d + r
    ensures x / d == q
  {
    var e, m := x / d, x % d;
    assert (e - q) * d == r - m;
    if e > q {
      MulAtLeast(e - q, d);
    } else if e < q {
      assert (q - e) * d == m - r;
      MulAtLeast(q - e, d);
    }
  }

  lemma MulAtLeast(k: int, d: int)
    requires k >= 1 && d >= 1
    ensures k * d >= d
  {
    assert k * d == (k - 1) * d + d;
  }

  function CeilDiv(n: nat, d: int): int
    requires d >= 1
  {
    (n + d - 1) / d
  }

  lemma BatchCount(total: nat, full: nat, rest: nat, size: nat)
    requires rest < size && total == full * size + rest
    ensures CeilDiv(total, size) == if rest == 0 then full else full + 1
  {
    if rest == 0 {
      Quotient(total + size - 1, full, size - 1, size);
    } else {
      assert (full + 1) * size == full * size + size;
      Quotient(total + size - 1, full + 1, rest - 1, size);
    }
  }

  /** Every embedded chunk was sent once, in order and in full batches; the others are listed. */
  ghost predicate SmoothlyDone(batchSize: int, s: State, ending: Ending, files: seq<File>)
    requires batchSize >= 1
  {
    var n := |s.deliveries|;
    && ending.Completed? && ending.vectorCount == |Embedded(files)| && ending.fileCount == |files|
    && ChunksOf(Flat(s.deliveries)) == Embedded(files)
    && s.failedChunks == Unembedded(files)
    && n == CeilDiv(|Embedded(files)|, batchSize)
    && (forall b :: 0 <= b < n - 1 ==> |s.deliveries[b].batch| == batchSize)
    && (n > 0 ==> 1 <= |s.deliveries[n - 1].batch| <= batchSize)
    && (forall b :: 0 <= b < n ==> s.deliveries[b].uncommitted == RowsOf(s.deliveries[b].batch))
  }

  /** The final flush adds the points in hand as one more batch, if there are any. */
  lemma LastBatch(batchSize: int, s: State, fileCount: nat, c: Closing)
    requires FullBatches(batchSize, s) && CommitHolds(c.final.commit) && c.final.sends && !s.aborted
    ensures var (s', ending) := Closed(s, fileCount, c);
            && s'.failedChunks == s.failedChunks && s'.points == []
            && |s'.deliveries| == (if s.points == [] then |s.deliveries| else |s.deliveries| + 1)
            && ending.Completed? && ending.vectorCount == s.idx && ending.fileCount == fileCount
            && (forall b :: 0 <= b < |s'.deliveries| - 1 ==> |s'.deliveries[b].batch| == batchSize)
            && (s'.deliveries != [] ==> 1 <= |s'.deliveries[|s'.deliveries| - 1].batch| <= batchSize)
  {}

  lemma SmoothLoops(batchSize: int, uuid: nat -> string, s0: State, files: seq<File>)
    requires batchSize >= 1 && AllAllowed(Smooth, batchSize, files) && Empty(s0)
    ensures var s := FilesFrom(batchSize, uuid, s0, files, 0);
            && Inv(Smooth, batchSize, uuid, s) && s.idx == |s.made|
            && ChunksOf(s.made) == Embedded(files) && s.failedChunks == Unembedded(files)
            && CeilDiv(|s.made|, batchSize) == if s.points == [] then |s.deliveries| else |s.deliveries| + 1
  {
    var s := FilesFrom(batchSize, uuid, s0, files, 0);
    LoopsKeepInv(Smooth, batchSize, uuid, s0, files);
    var cuts := LoopsMakePrefixes(batchSize, uuid, s0, files);
    SmoothCuts(batchSize, files, cuts);
    FlatLength(s.deliveries, batchSize);
    BatchCount(|s.made|, |s.deliveries|, |s.points|, batchSize);
    CountOkIff(s.inserts);
  }

  lemma SmoothClose(batchSize: int, uuid: nat -> string, s0: State, files: seq<File>, c: Closing)
    requires batchSize >= 1 && CalmClosing(c) && c.final.sends
    requires Inv(Smooth, batchSize, uuid, s0) && s0.idx == |s0.made|
    requires ChunksOf(s0.made) == Embedded(files) && s0.failedChunks == Unembedded(files)
    requires CeilDiv(|s0.made|, batchSize) == if s0.points == [] then |s0.deliveries| else |s0.deliveries| + 1
    ensures var (s, ending) := Closed(s0, |files|, c);
            SmoothlyDone(batchSize, s, ending, files)
  {
    LastBatch(batchSize, s0, |files|, c);
    CalmClose(batchSize, uuid, s0, |files|, c);
    var s := Closed(s0, |files|, c).0;
    assert Flat(s.deliveries) + [] == Flat(s.deliveries);
  }

  /** With only reads and embeddings failing, the job sends every embedded chunk once and in file
      order, lists every other chunk of a readable file as failed, and uses the least number of
      batches: all full but the last, the last not empty. */
  lemma SmoothJobSendsFullBatches(batchSize: int, uuid: nat -> string, files: seq<File>, c: Closing)
    requires batchSize >= 1 && AllAllowed(Smooth, batchSize, files) && CalmClosing(c) && c.final.sends
    ensures var (s, ending) := Job(batchSize, uuid, files, c);
            SmoothlyDone(batchSize, s, ending, files)
  {
    SmoothLoops(batchSize, uuid, START, files);
    SmoothClose(batchSize, uuid, FilesFrom(batchSize, uuid, START, files, 0), files, c);
  }

  // ---------------------------------------------------------------- why the conditions are needed

  const OK := Commit(false, true)

  function Plain(text: string): Attempt {
    Attempt(text, Some([1.0]), true, true, Flush(true, OK))
  }

  /** A file of one chunk is one chunk step. */
  lemma OneChunk(batchSize: int, uuid: nat -> string, s: State, key: string, a: Attempt)
    ensures FileStep(batchSize, uuid, s, Readable(key, [a])) == ChunkStep(batchSize, uuid, s, key, 0, a).0
  {
    var f := Readable(key, [a]);
    var (s', raised) := ChunkStep(batchSize, uuid, s, key, 0, a);
    assert !raised ==> ChunksFrom(batchSize, uuid, s', f, 1) == s';
  }

  /** Two files of one chunk each are two chunk steps. */
  lemma TwoChunks(batchSize: int, uuid: nat -> string, s: State, a: Attempt, b: Attempt)
    ensures var s1 := ChunkStep(batchSize, uuid, s, "a", 0, a).0;
            FilesFrom(batchSize, uuid, s, [Readable("a", [a]), Readable("b", [b])], 0) ==
            ChunkStep(batchSize, uuid, s1, "b", 0, b).0
  {
    var files := [Readable("a", [a]), Readable("b", [b])];
    OneChunk(batchSize, uuid, s, "a", a);
    var s1 := ChunkStep(batchSize, uuid, s, "a", 0, a).0;
    OneChunk(batchSize, uuid, s1, "b", b);
    var s2 := ChunkStep(batchSize, uuid, s1, "b", 0, b).0;
    assert FilesFrom(batchSize, uuid, s2, files, 2) == s2;
    assert FilesFrom(batchSize, uuid, s1, files, 1) == s2;
    assert FilesFrom(batchSize, uuid, s, files, 0) == FilesFrom(batchSize, uuid, s1, files, 1);
  }

  /** One failed insert, after one that succeeded, is enough: the last commit rolls back, and the job
      completes with one recorded vector, two points in the store and no durable row. */
  lemma FailedInsertIsNotCounted(uuid: nat -> string)
    requires NeverRepeats(uuid)
    ensures var files := [Readable("a", [Plain("x")]), Readable("b", [Plain("y").(inserts := false)])];
            var (s, ending) := Job(20, uuid, files, Closing(Flush(true, Commit(false, false)), true, OK));
            ending == Completed(1, 2, true) && |StoreOf(s.deliveries)| == 2 && s.committed == []
  {
    var x, y := Plain("x"), Plain("y").(inserts := false);
    var files, c := [Readable("a", [x]), Readable("b", [y])], Closing(Flush(true, Commit(false, false)), true, OK);
    TwoChunks(20, uuid, START, x, y);
    var s1 := ChunkStep(20, uuid, START, "a", 0, x).0;
    assert s1.idx == 1 && s1.inserts == [true] && |s1.points| == 1 && s1.committed == [] && !s1.aborted;
    var s2 := ChunkStep(20, uuid, s1, "b", 0, y).0;
    assert s2.idx == 1 && s2.inserts == [true, false] && s2.aborted && s2.committed == [] && s2.points != [];
    assert Job(20, uuid, files, c) == Closed(s2, 2, c);
    LostClose(s2, c);
    CompletedStoreIsWhatWasMade(20, uuid, files, c);
  }

  /** The last flush of an aborted transaction sends and stores nothing durably. */
  lemma LostClose(s: State, c: Closing)
    requires s.aborted && s.points != [] && c.final.sends && !c.final.commit.raises && c.hasTags && c.coverage.durable
    ensures Closed(s, 2, c).1 == Completed(s.idx, 2, true)
    ensures Closed(s, 2, c).0.committed == s.committed && Closed(s, 2, c).0.inserts == s.inserts
  {}

  /** A commit that raises keeps a batch that was already sent, so with a batch size of one the
      next message carries two points and the first point travels twice. */
  lemma RaisedCommitResendsTheBatch(uuid: nat -> string)
    ensures var x := Plain("x").(flush := Flush(true, Commit(true, false)));
            var files := [Readable("a", [x]), Readable("b", [Plain("y")])];
            var (s, _) := Job(1, uuid, files, Closing(Flush(true, OK), true, OK));
            && |s.made| == 2 && |s.deliveries| == 2
            && s.deliveries[0].batch == s.made[..1] && s.deliveries[1].batch == s.made
  {
    var x := Plain("x").(flush := Flush(true, Commit(true, false)));
    TwoChunks(1, uuid, START, x, Plain("y"));
    var s1 := ChunkStep(1, uuid, START, "a", 0, x).0;
    assert |s1.made| == 1 && s1.points == s1.made && |s1.deliveries| == 1 && s1.deliveries[0].batch == s1.made;
    assert !s1.aborted;
    var s2 := ChunkStep(1, uuid, s1, "b", 0, Plain("y")).0;
    assert s2.points == [] && |s2.deliveries| == 2 && s2.deliveries[0] == s1.deliveries[0];
    assert s2.deliveries[1].batch == s2.made && s2.made[..1] == s1.made;
  }
}
