/** The batching job of the ingestion service: nested file and chunk loops that embed
    each chunk, back it up in the database and flush points to the vector store's queue.

    Every external call is answered by an oracle value (`Attempt`, `Flush`, `Commit`,
    `File`), so a statement about all inputs is a statement about every pattern of read,
    embedding, insert, send and commit failures. */
module Ingestion {
  import opened Wrappers

  type Vector = seq<real>

  /** A vector-store point; `id` is the key under which the store keeps it. */
  datatype Point = Point(id: string, path: string, chunk: nat, text: string, vector: Vector)

  /** A row of the embedding backup table. */
  datatype Row = Row(path: string, chunk: nat, vector: Vector)

  /** How a database commit ends: it may raise, and the open rows may become durable or be lost. */
  datatype Commit = Commit(raises: bool, durable: bool)

  /** How a flush would end: does the queue accept the batch, and then how does the commit end. */
  datatype Flush = Flush(sends: bool, commit: Commit)

  /** One chunk and the answers it meets: its embedding, whether its payload can be built, whether
      the database takes its rows, and the flush it may trigger. */
  datatype Attempt = Attempt(text: string, embedding: Option<Vector>, builds: bool, inserts: bool, flush: Flush)

  /** One listed file: fetching, decoding or splitting it fails, or it yields chunks. */
  datatype File = Unreadable(key: string) | Readable(key: string, attempts: seq<Attempt>)

  /** One accepted queue message, the rows that were still uncommitted when it was sent, and the
      answer of the commit that followed. */
  datatype Delivery = Delivery(batch: seq<Point>, uncommitted: seq<Row>, commit: Commit)

  /** How the job ends: the coverage step it reaches, and whether that call took effect. */
  datatype Ending = Completed(vectorCount: nat, fileCount: nat, recorded: bool) | Reverted(recorded: bool)

  /** The answers after the loops: the final flush and the coverage call's own commit. */
  datatype Closing = Closing(final: Flush, hasTags: bool, coverage: Commit)

  /** The job's variables together with what the outside world has seen.  A failed statement aborts
      the open transaction.  `made` lists every point ever appended to `points`, and `inserts` the
      answers of all insert calls. */
  datatype State = State(
    points: seq<Point>,
    idx: nat,
    failedChunks: seq<(string, nat)>,
    deliveries: seq<Delivery>,
    uncommitted: seq<Row>,
    committed: seq<Row>,
    aborted: bool,
    made: seq<Point>,
    inserts: seq<bool>)

  const START := State([], 0, [], [], [], [], false, [], [])

  function RowOf(p: Point): Row {
    Row(p.path, p.chunk, p.vector)
  }

  function RowsOf(ps: seq<Point>): (rows: seq<Row>)
    ensures |rows| == |ps|
    ensures forall k :: 0 <= k < |ps| ==> rows[k] == RowOf(ps[k])
  {
    seq(|ps|, k requires 0 <= k < |ps| => RowOf(ps[k]))
  }

  // ---------------------------------------------------------------- the job as a function

  /** A commit ends the transaction.  An aborted one is rolled back, whatever the answer says. */
  function AfterCommit(s: State, c: Commit): State {
    s.(committed := if c.durable && !s.aborted then s.committed + s.uncommitted else s.committed,
       uncommitted := [], aborted := false)
  }

  /** Sends `points` and commits; the flag says that the flush raised.  Only a flush that did
      not raise empties `points`. */
  function Flushed(s: State, f: Flush): (State, bool) {
    if !f.sends then (s, true)
    else
      var sent := s.(deliveries := s.deliveries + [Delivery(s.points, s.uncommitted, f.commit)]);
      var done := AfterCommit(sent, f.commit);
      if f.commit.raises then (done, true) else (done.(points := []), false)
  }

  /** One chunk; the flag says that an exception left the chunk loop.  An aborted transaction takes
      no rows. */
  function ChunkStep(batchSize: int, uuid: nat -> string, s: State, key: string, i: nat, a: Attempt): (State, bool) {
    if a.embedding.None? then (s.(failedChunks := s.failedChunks + [(key, i)]), false)
    else if !a.builds then (s, true)
    else
      var p := Point(uuid(|s.made|), key, i, a.text, a.embedding.value);
      var ok := a.inserts && !s.aborted;
      var appended := s.(points := s.points + [p], made := s.made + [p], inserts := s.inserts + [ok]);
      if !ok then (appended.(aborted := true), true)
      else
        var inserted := appended.(uncommitted := s.uncommitted + [RowOf(p)], idx := s.idx + 1);
        if |inserted.points| >= batchSize then Flushed(inserted, a.flush) else (inserted, false)
  }

  /** The chunks of one file from index `i` on; an exception ends the file. */
  function ChunksFrom(batchSize: int, uuid: nat -> string, s: State, f: File, i: nat): State
    requires f.Readable? && i <= |f.attempts|
    decreases |f.attempts| - i
  {
    if i == |f.attempts| then s
    else
      var (s', raised) := ChunkStep(batchSize, uuid, s, f.key, i, f.attempts[i]);
      if raised then s' else ChunksFrom(batchSize, uuid, s', f, i + 1)
  }

  function FileStep(batchSize: int, uuid: nat -> string, s: State, f: File): State {
    if f.Unreadable? then s else ChunksFrom(batchSize, uuid, s, f, 0)
  }

  function FilesFrom(batchSize: int, uuid: nat -> string, s: State, files: seq<File>, k: nat): State
    requires k <= |files|
    decreases |files| - k
  {
    if k == |files| then s
    else FilesFrom(batchSize, uuid, FileStep(batchSize, uuid, s, files[k]), files, k + 1)
  }

  /** The coverage call takes effect unless there are no tags, the transaction is aborted or its
      own commit is lost. */
  predicate CallTakes(s: State, c: Closing) {
    c.hasTags && !s.aborted && c.coverage.durable
  }

  /** The coverage call commits whatever is still open; when it does not get that far, the open rows
      are rolled back with the connection. */
  function Settled(s: State, c: Closing): State {
    if c.hasTags && !s.aborted then AfterCommit(s, c.coverage) else s.(uncommitted := [], aborted := false)
  }

  function Closed(s: State, fileCount: nat, c: Closing): (State, Ending) {
    if s.points == [] then (Settled(s, c), Completed(s.idx, fileCount, CallTakes(s, c)))
    else
      var (s', raised) := Flushed(s, c.final);
      (Settled(s', c), if raised then Reverted(CallTakes(s', c)) else Completed(s'.idx, fileCount, CallTakes(s', c)))
  }

  function Job(batchSize: int, uuid: nat -> string, files: seq<File>, c: Closing): (State, Ending) {
    Closed(FilesFrom(batchSize, uuid, START, files, 0), |files|, c)
  }

  // ---------------------------------------------------------------- the job as the service runs it

  /** The database connection and the queue producer as the job uses them. */
  class Services {
    var deliveries: seq<Delivery>
    var uncommitted: seq<Row>
    var committed: seq<Row>
    var aborted: bool

    constructor ()
      ensures deliveries == [] && uncommitted == [] && committed == [] && !aborted
    {
      deliveries, uncommitted, committed, aborted := [], [], [], false;
    }

    /** The abstract state made of the job's local variables and these services. */
    ghost function View(points: seq<Point>, idx: nat, failedChunks: seq<(string, nat)>, log: Log): State
      reads this
    {
      State(points, idx, failedChunks, deliveries, uncommitted, committed, aborted, log.made, log.inserts)
    }

    method Send(batch: seq<Point>, f: Flush)
      modifies this`deliveries
      ensures deliveries ==
              if f.sends then old(deliveries) + [Delivery(batch, uncommitted, f.commit)] else old(deliveries)
    {
      if f.sends {
        deliveries := deliveries + [Delivery(batch, uncommitted, f.commit)];
      }
    }

    method Insert(row: Row, answer: bool) returns (ok: bool)
      modifies this`uncommitted, this`aborted
      ensures ok == (answer && !old(aborted)) && aborted == !ok
      ensures uncommitted == if ok then old(uncommitted) + [row] else old(uncommitted)
    {
      ok := answer && !aborted;
      if ok {
        uncommitted := uncommitted + [row];
      } else {
        aborted := true;
      }
    }

    method CommitRows(c: Commit)
      modifies this`uncommitted, this`committed, this`aborted
      ensures uncommitted == [] && !aborted
      ensures committed == if c.durable && !old(aborted) then old(committed) + old(uncommitted) else old(committed)
    {
      if c.durable && !aborted {
        committed := committed + uncommitted;
      }
      uncommitted, aborted := [], false;
    }

    /** Send, then commit; `raised` reports an exception from either. */
    method FlushBatch(batch: seq<Point>, f: Flush, ghost idx: nat, ghost failed: seq<(string, nat)>, ghost log: Log)
      returns (raised: bool)
      modifies this`deliveries, this`uncommitted, this`committed, this`aborted
      ensures (View(if raised then batch else [], idx, failed, log), raised) ==
              Flushed(old(View(batch, idx, failed, log)), f)
    {
      Send(batch, f);
      if !f.sends {
        return true;
      }
      CommitRows(f.commit);
      raised := f.commit.raises;
    }

    /** The coverage call on this connection, and returning the connection to its pool. */
    method Settle(c: Closing, ghost points: seq<Point>, ghost idx: nat, ghost failed: seq<(string, nat)>,
                  ghost log: Log)
      returns (recorded: bool)
      modifies this`uncommitted, this`committed, this`aborted
      ensures View(points, idx, failed, log) == Settled(old(View(points, idx, failed, log)), c)
      ensures recorded == CallTakes(old(View(points, idx, failed, log)), c)
    {
      recorded := false;
      if c.hasTags && !aborted {
        CommitRows(c.coverage);
        recorded := c.coverage.durable;
      } else {
        uncommitted, aborted := [], false;
      }
    }
  }

  /** What the job did so far: the points it appended and the answers of its inserts. */
  datatype Log = Log(made: seq<Point>, inserts: seq<bool>)

  /** The inner loop: the chunks of one file. */
  method ProcessFile(batchSize: int, uuid: nat -> string, f: File, services: Services, points0: seq<Point>, idx0: nat,
                     failed0: seq<(string, nat)>, drawn0: nat, ghost log0: Log)
    returns (points: seq<Point>, idx: nat, failed: seq<(string, nat)>, drawn: nat, ghost log: Log)
    requires drawn0 == |log0.made|
    modifies services
    ensures drawn == |log.made|
    ensures services.View(points, idx, failed, log) ==
            FileStep(batchSize, uuid, old(services.View(points0, idx0, failed0, log0)), f)
  {
    points, idx, failed, drawn, log := points0, idx0, failed0, drawn0, log0;
    if f.Unreadable? {
      return;
    }
    var i := 0;
    while i < |f.attempts|
      invariant 0 <= i <= |f.attempts|
      invariant drawn == |log.made|
      invariant ChunksFrom(batchSize, uuid, services.View(points, idx, failed, log), f, i) ==
                FileStep(batchSize, uuid, old(services.View(points0, idx0, failed0, log0)), f)
    {
      var a := f.attempts[i];
      if a.embedding.None? {
        failed := failed + [(f.key, i)];
        i := i + 1;
        continue;
      }
      if !a.builds {
        return;
      }
      var p := Point(uuid(drawn), f.key, i, a.text, a.embedding.value);
      drawn, points := drawn + 1, points + [p];
      var ok := services.Insert(RowOf(p), a.inserts);
      log := Log(log.made + [p], log.inserts + [ok]);
      if !ok {
        return;
      }
      idx := idx + 1;
      if |points| >= batchSize {
        var raised := services.FlushBatch(points, a.flush, idx, failed, log);
        if raised {
          return;
        }
        points := [];
      }
      i := i + 1;
    }
  }

  /** The whole job: the file loop, the final flush and the coverage step. */
  method RunIngestion(batchSize: int, uuid: nat -> string, files: seq<File>, c: Closing)
    returns (ending: Ending, services: Services, points: seq<Point>, idx: nat, failed: seq<(string, nat)>,
             ghost log: Log)
    ensures fresh(services)
    ensures Job(batchSize, uuid, files, c) == (services.View(points, idx, failed, log), ending)
  {
    services := new Services();
    points, idx, failed, log := [], 0, [], Log([], []);
    var drawn := 0;
    for k := 0 to |files|
      invariant drawn == |log.made|
      invariant fresh(services)
      invariant FilesFrom(batchSize, uuid, services.View(points, idx, failed, log), files, k) ==
                FilesFrom(batchSize, uuid, START, files, 0)
    {
      points, idx, failed, drawn, log :=
        ProcessFile(batchSize, uuid, files[k], services, points, idx, failed, drawn, log);
    }
    var raised := false;
    if points != [] {
      raised := services.FlushBatch(points, c.final, idx, failed, log);
      if !raised {
        points := [];
      }
    }
    var recorded := services.Settle(c, points, idx, failed, log);
    ending := if raised then Reverted(recorded) else Completed(idx, |files|, recorded);
  }
}
