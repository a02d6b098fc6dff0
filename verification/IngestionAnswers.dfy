/** What the answers of the outside world determine: how far each file is processed, which points are
    in hand, and which messages are sent.  Nothing here mentions the job's own steps. */
module IngestionAnswers {
  import opened Ingestion

  // ---------------------------------------------------------------- what the files turned into

  /** A chunk as the splitter and the embedder deliver it, before it gets an identifier. */
  datatype Chunk = Chunk(path: string, index: nat, text: string, vector: Vector)

  function ChunksOf(ps: seq<Point>): (cs: seq<Chunk>)
    ensures |cs| == |ps|
  {
    seq(|ps|, k requires 0 <= k < |ps| => Chunk(ps[k].path, ps[k].chunk, ps[k].text, ps[k].vector))
  }

  lemma ChunksOfAppend(ps: seq<Point>, p: Point)
    ensures ChunksOf(ps + [p]) == ChunksOf(ps) + [Chunk(p.path, p.chunk, p.text, p.vector)]
  {}

  /** The embedded chunks among the first `n` of a file. */
  function EmbeddedOf(f: File, n: nat): seq<Chunk>
    requires f.Readable? && n <= |f.attempts|
  {
    if n == 0 then []
    else
      var a := f.attempts[n - 1];
      EmbeddedOf(f, n - 1) + if a.embedding.Some? then [Chunk(f.key, n - 1, a.text, a.embedding.value)] else []
  }

  /** The chunks among the first `n` of a file whose embedding failed. */
  function UnembeddedOf(f: File, n: nat): seq<(string, nat)>
    requires f.Readable? && n <= |f.attempts|
  {
    if n == 0 then []
    else UnembeddedOf(f, n - 1) + if f.attempts[n - 1].embedding.None? then [(f.key, n - 1)] else []
  }

  /** How many chunks a file has to offer. */
  function Size(f: File): nat {
    if f.Readable? then |f.attempts| else 0
  }

  /** A position per file: the chunks in front of it were processed. */
  ghost predicate Cuts(files: seq<File>, cuts: seq<nat>) {
    |cuts| == |files| && forall k :: 0 <= k < |files| ==> cuts[k] <= Size(files[k])
  }

  /** The embedded chunks in front of the cuts, in file order. */
  function EmbeddedUpTo(files: seq<File>, cuts: seq<nat>): seq<Chunk>
    requires Cuts(files, cuts)
  {
    if files == [] then []
    else
      var k := |files| - 1;
      EmbeddedUpTo(files[..k], cuts[..k]) + if files[k].Readable? then EmbeddedOf(files[k], cuts[k]) else []
  }

  /** The chunks in front of the cuts whose embedding failed, in file order. */
  function UnembeddedUpTo(files: seq<File>, cuts: seq<nat>): seq<(string, nat)>
    requires Cuts(files, cuts)
  {
    if files == [] then []
    else
      var k := |files| - 1;
      UnembeddedUpTo(files[..k], cuts[..k]) + if files[k].Readable? then UnembeddedOf(files[k], cuts[k]) else []
  }

  function AllOf(files: seq<File>): (cuts: seq<nat>)
    ensures Cuts(files, cuts)
  {
    seq(|files|, k requires 0 <= k < |files| => Size(files[k]))
  }

  /** All embedded chunks of the readable files, in file order. */
  function Embedded(files: seq<File>): seq<Chunk> {
    EmbeddedUpTo(files, AllOf(files))
  }

  function Unembedded(files: seq<File>): seq<(string, nat)> {
    UnembeddedUpTo(files, AllOf(files))
  }

  // ---------------------------------------------------------------- how far a file is processed

  /** The embedded attempts among the first `n` of a file. */
  function TriedOf(f: File, n: nat): seq<Attempt>
    requires f.Readable? && n <= |f.attempts|
  {
    if n == 0 then []
    else TriedOf(f, n - 1) + if f.attempts[n - 1].embedding.Some? then [f.attempts[n - 1]] else []
  }

  /** The embedded attempts in front of the cuts, in file order. */
  function TriedUpTo(files: seq<File>, cuts: seq<nat>): seq<Attempt>
    requires Cuts(files, cuts)
  {
    if files == [] then []
    else
      var k := |files| - 1;
      TriedUpTo(files[..k], cuts[..k]) + if files[k].Readable? then TriedOf(files[k], cuts[k]) else []
  }

  /** The database accepts the last of these inserts exactly when it is willing to take all of them:
      one refusal aborts the transaction, and no flush is reached any more to end it. */
  predicate AllInsert(tried: seq<Attempt>) {
    forall i :: 0 <= i < |tried| ==> tried[i].inserts
  }

  /** A flush that neither the queue nor the commit fails. */
  predicate Passes(f: Flush) {
    f.sends && !f.commit.raises
  }

  /** How many points are in hand after these attempts: those since the last flush that passed. */
  function InHand(batchSize: int, tried: seq<Attempt>): (n: nat)
    ensures n <= |tried|
    decreases |tried|, 1
  {
    if tried == [] then 0
    else
      var last := tried[|tried| - 1];
      if Flushes(batchSize, tried) && Passes(last.flush) then 0 else InHand(batchSize, tried[..|tried| - 1]) + 1
  }

  /** The last attempt is inserted and brings the points in hand to the threshold. */
  predicate Flushes(batchSize: int, tried: seq<Attempt>)
    requires tried != []
    decreases |tried|, 0
  {
    AllInsert(tried) && InHand(batchSize, tried[..|tried| - 1]) + 1 >= batchSize
  }

  /** The last attempt raises: its insert is refused, or its flush at the threshold fails. */
  predicate Raises(batchSize: int, tried: seq<Attempt>)
    requires tried != []
  {
    !AllInsert(tried) || (Flushes(batchSize, tried) && !Passes(tried[|tried| - 1].flush))
  }

  /** The messages: for each accepted one, the stretch of the points that it carries. */
  function Messages(batchSize: int, tried: seq<Attempt>): (ms: seq<(nat, nat)>)
    ensures forall b :: 0 <= b < |ms| ==> ms[b].0 < ms[b].1 <= |tried|
  {
    if tried == [] then []
    else
      var init, last := tried[..|tried| - 1], tried[|tried| - 1];
      Messages(batchSize, init) +
      if Flushes(batchSize, tried) && last.flush.sends then [(|init| - InHand(batchSize, init), |tried|)] else []
  }

  /** The payload of chunk `i` cannot be built. */
  predicate StopsAt(f: File, i: nat)
    requires f.Readable? && i < |f.attempts|
  {
    f.attempts[i].embedding.Some? && !f.attempts[i].builds
  }

  /** Chunk `i` raises when `before` was tried in the earlier files. */
  predicate StopsBehind(batchSize: int, before: seq<Attempt>, f: File, i: nat)
    requires f.Readable? && i < |f.attempts|
  {
    f.attempts[i].embedding.Some? && Raises(batchSize, before + TriedOf(f, i + 1))
  }

  /** The file is processed up to `cut`: nothing stops it earlier, and if chunks are left, something
      stops it there. */
  predicate ForcedCut(batchSize: int, before: seq<Attempt>, f: File, cut: nat)
    requires f.Readable? && cut <= |f.attempts|
  {
    && (forall i :: 0 <= i < cut ==> !StopsAt(f, i))
    && (forall i :: 0 <= i < cut - 1 ==> !StopsBehind(batchSize, before, f, i))
    && (cut < |f.attempts| ==> StopsAt(f, cut) || (cut > 0 && StopsBehind(batchSize, before, f, cut - 1)))
  }

  /** Each readable file is processed up to its forced cut, given the earlier files. */
  ghost predicate Forced(batchSize: int, files: seq<File>, cuts: seq<nat>)
    requires Cuts(files, cuts)
  {
    files == [] ||
    var k := |files| - 1;
    && Forced(batchSize, files[..k], cuts[..k])
    && (files[k].Readable? ==> ForcedCut(batchSize, TriedUpTo(files[..k], cuts[..k]), files[k], cuts[k]))
    && (files[k].Unreadable? ==> cuts[k] == 0)
  }

  /** The answers leave no choice. */
  lemma {:induction false} ForcedIsUnique(batchSize: int, files: seq<File>, cuts: seq<nat>, cuts': seq<nat>)
    requires Cuts(files, cuts) && Forced(batchSize, files, cuts)
    requires Cuts(files, cuts') && Forced(batchSize, files, cuts')
    ensures cuts == cuts'
  {
    if files != [] {
      var k := |files| - 1;
      ForcedIsUnique(batchSize, files[..k], cuts[..k], cuts'[..k]);
      if files[k].Readable? {
        ForcedCutIsUnique(batchSize, TriedUpTo(files[..k], cuts[..k]), files[k], cuts[k], cuts'[k]);
      }
      assert cuts == cuts[..k] + [cuts[k]] && cuts' == cuts'[..k] + [cuts'[k]];
    }
  }

  lemma ForcedCutIsUnique(batchSize: int, before: seq<Attempt>, f: File, cut: nat, cut': nat)
    requires f.Readable? && cut <= |f.attempts| && cut' <= |f.attempts|
    requires ForcedCut(batchSize, before, f, cut) && ForcedCut(batchSize, before, f, cut')
    ensures cut == cut'
  {}

  // ---------------------------------------------------------------- what the job makes of it

  /** The points made and the chunks listed as failed are those in front of the forced cuts. */
  ghost predicate MadeFrom(batchSize: int, files: seq<File>, cuts: seq<nat>, s: State) {
    && Cuts(files, cuts) && Forced(batchSize, files, cuts)
    && ChunksOf(s.made) == EmbeddedUpTo(files, cuts)
    && s.failedChunks == UnembeddedUpTo(files, cuts)
  }

  /** The messages sent so far are the given stretches, each with the answer of its own commit. */
  ghost predicate SentAs(ds: seq<Delivery>, ms: seq<(nat, nat)>, made: seq<Point>, tried: seq<Attempt>) {
    && |ds| == |ms| && |made| == |tried|
    && forall b :: 0 <= b < |ds| ==>
         && ms[b].0 < ms[b].1 <= |tried|
         && ds[b].batch == made[ms[b].0..ms[b].1] && ds[b].commit == tried[ms[b].1 - 1].flush.commit
  }

  /** Which of the inserts were accepted. */
  ghost predicate InsertedAs(inserts: seq<bool>, tried: seq<Attempt>) {
    |inserts| == |tried| && forall j :: 0 <= j < |tried| ==> (inserts[j] <==> AllInsert(tried[..j + 1]))
  }

  /** The state inside the loops is what the attempts so far determine. */
  ghost predicate Follows(batchSize: int, s: State, tried: seq<Attempt>) {
    && |s.made| == |tried| && InsertedAs(s.inserts, tried)
    && (s.aborted <==> !AllInsert(tried))
    && s.points == s.made[|tried| - InHand(batchSize, tried)..]
    && SentAs(s.deliveries, Messages(batchSize, tried), s.made, tried)
  }

  lemma AllInsertAppend(tried: seq<Attempt>, a: Attempt)
    ensures AllInsert(tried + [a]) <==> AllInsert(tried) && a.inserts
  {
    var more := tried + [a];
    assert more[|tried|] == a && forall i :: 0 <= i < |tried| ==> more[i] == tried[i];
  }

  lemma InsertedAppend(inserts: seq<bool>, tried: seq<Attempt>, a: Attempt)
    requires InsertedAs(inserts, tried)
    ensures InsertedAs(inserts + [AllInsert(tried + [a])], tried + [a])
  {
    var more, tried' := inserts + [AllInsert(tried + [a])], tried + [a];
    forall j | 0 <= j < |tried'|
      ensures more[j] <==> AllInsert(tried'[..j + 1])
    {
      if j < |tried| {
        assert tried'[..j + 1] == tried[..j + 1];
      } else {
        assert tried'[..j + 1] == tried';
      }
    }
  }

  lemma SentKeeps(ds: seq<Delivery>, ms: seq<(nat, nat)>, made: seq<Point>, tried: seq<Attempt>, p: Point, a: Attempt)
    requires SentAs(ds, ms, made, tried)
    ensures SentAs(ds, ms, made + [p], tried + [a])
  {
    forall b | 0 <= b < |ds|
      ensures ds[b].batch == (made + [p])[ms[b].0..ms[b].1]
      ensures ds[b].commit == (tried + [a])[ms[b].1 - 1].flush.commit
    {}
  }

  lemma SentOneMore(ds: seq<Delivery>, ms: seq<(nat, nat)>, made: seq<Point>, tried: seq<Attempt>, d: Delivery, lo: nat)
    requires SentAs(ds, ms, made, tried) && lo < |tried|
    requires d.batch == made[lo..] && d.commit == tried[|tried| - 1].flush.commit
    ensures SentAs(ds + [d], ms + [(lo, |tried|)], made, tried)
  {}
}
