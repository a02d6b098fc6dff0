/** The job processes each file exactly as far as the answers force it to, and its state is what they
    determine. */
module IngestionCuts {
  import opened Ingestion
  import opened IngestionAnswers
  import opened IngestionInvariants

  // ---------------------------------------------------------------- one attempt

  lemma OneMoreHeld(batchSize: int, tried: seq<Attempt>, a: Attempt)
    requires !(Flushes(batchSize, tried + [a]) && a.flush.sends)
    ensures InHand(batchSize, tried + [a]) == InHand(batchSize, tried) + 1
    ensures Messages(batchSize, tried + [a]) == Messages(batchSize, tried)
  {
    assert (tried + [a])[..|tried|] == tried;
    assert Messages(batchSize, tried) + [] == Messages(batchSize, tried);
  }

  lemma OneMoreSent(batchSize: int, tried: seq<Attempt>, a: Attempt)
    requires Flushes(batchSize, tried + [a]) && a.flush.sends
    ensures InHand(batchSize, tried + [a]) == if a.flush.commit.raises then InHand(batchSize, tried) + 1 else 0
    ensures Messages(batchSize, tried + [a]) ==
            Messages(batchSize, tried) + [(|tried| - InHand(batchSize, tried), |tried| + 1)]
  {
    assert (tried + [a])[..|tried|] == tried;
  }

  /** The points in hand grow by the new one. */
  lemma HeldGrows(s: State, lo: nat, p: Point)
    requires lo <= |s.made| && s.points == s.made[lo..]
    ensures s.points + [p] == (s.made + [p])[lo..]
  {}

  lemma InsertFollows(batchSize: int, s: State, tried: seq<Attempt>, p: Point, a: Attempt)
    requires Follows(batchSize, s, tried)
    requires !(Flushes(batchSize, tried + [a]) && a.flush.sends)
    ensures Follows(batchSize, Inserted(s, p, a.inserts && !s.aborted), tried + [a])
  {
    AllInsertAppend(tried, a);
    InsertedAppend(s.inserts, tried, a);
    SentKeeps(s.deliveries, Messages(batchSize, tried), s.made, tried, p, a);
    OneMoreHeld(batchSize, tried, a);
    HeldGrows(s, |tried| - InHand(batchSize, tried), p);
  }

  lemma SendFollows(batchSize: int, s: State, tried: seq<Attempt>, p: Point, a: Attempt)
    requires Follows(batchSize, s, tried)
    requires Flushes(batchSize, tried + [a]) && a.flush.sends
    ensures Follows(batchSize, Flushed(Inserted(s, p, true), a.flush).0, tried + [a])
  {
    var ms, lo := Messages(batchSize, tried), |tried| - InHand(batchSize, tried);
    var s' := Inserted(s, p, true);
    AllInsertAppend(tried, a);
    InsertedAppend(s.inserts, tried, a);
    SentKeeps(s.deliveries, ms, s.made, tried, p, a);
    OneMoreSent(batchSize, tried, a);
    HeldGrows(s, lo, p);
    SentOneMore(s.deliveries, ms, s'.made, tried + [a], Delivery(s'.points, s'.uncommitted, a.flush.commit), lo);
  }

  /** One more attempt: the state follows, and raises exactly when the answers say so. */
  lemma ChunkFollows(batchSize: int, uuid: nat -> string, s: State, tried: seq<Attempt>, key: string, i: nat,
                     a: Attempt)
    requires Follows(batchSize, s, tried) && a.embedding.Some? && a.builds
    ensures var (s', raised) := ChunkStep(batchSize, uuid, s, key, i, a);
            Follows(batchSize, s', tried + [a]) && (raised <==> Raises(batchSize, tried + [a]))
  {
    var p := Point(uuid(|s.made|), key, i, a.text, a.embedding.value);
    assert (tried + [a])[..|tried|] == tried && (tried + [a])[|tried|] == a;
    AllInsertAppend(tried, a);
    ChunkStepIs(batchSize, uuid, s, key, i, a);
    if Flushes(batchSize, tried + [a]) && a.flush.sends {
      SendFollows(batchSize, s, tried, p, a);
    } else {
      InsertFollows(batchSize, s, tried, p, a);
    }
  }

  // ---------------------------------------------------------------- one file

  /** Nothing among the first `n` chunks stops the file. */
  ghost predicate Unstopped(batchSize: int, before: seq<Attempt>, f: File, n: nat)
    requires f.Readable? && n <= |f.attempts|
  {
    forall j :: 0 <= j < n ==> !StopsAt(f, j) && !StopsBehind(batchSize, before, f, j)
  }

  /** What a file's first `n` chunks have turned into, after the chunks and attempts of earlier files. */
  ghost predicate Reached(batchSize: int, before: Past, f: File, n: nat, s: State)
    requires f.Readable? && n <= |f.attempts|
  {
    && ChunksOf(s.made) == before.chunks + EmbeddedOf(f, n)
    && s.failedChunks == before.failed + UnembeddedOf(f, n)
    && Follows(batchSize, s, before.tried + TriedOf(f, n))
  }

  datatype Past = Past(chunks: seq<Chunk>, failed: seq<(string, nat)>, tried: seq<Attempt>)

  lemma SkippedReaches(batchSize: int, s: State, before: Past, f: File, i: nat)
    requires f.Readable? && i < |f.attempts| && Reached(batchSize, before, f, i, s) && f.attempts[i].embedding.None?
    ensures Reached(batchSize, before, f, i + 1, s.(failedChunks := s.failedChunks + [(f.key, i)]))
  {
    assert EmbeddedOf(f, i + 1) == EmbeddedOf(f, i) && TriedOf(f, i + 1) == TriedOf(f, i);
  }

  lemma OneMoreEmbedded(before: Past, f: File, i: nat)
    requires f.Readable? && i < |f.attempts| && f.attempts[i].embedding.Some?
    ensures var a := f.attempts[i];
            && before.tried + TriedOf(f, i + 1) == before.tried + TriedOf(f, i) + [a]
            && before.chunks + EmbeddedOf(f, i + 1) ==
               before.chunks + EmbeddedOf(f, i) + [Chunk(f.key, i, a.text, a.embedding.value)]
            && before.failed + UnembeddedOf(f, i + 1) == before.failed + UnembeddedOf(f, i)
  {}

  lemma ChunkReaches(batchSize: int, uuid: nat -> string, s: State, before: Past, f: File, i: nat)
    requires f.Readable? && i < |f.attempts| && Reached(batchSize, before, f, i, s) && !StopsAt(f, i)
    ensures var (s', raised) := ChunkStep(batchSize, uuid, s, f.key, i, f.attempts[i]);
            Reached(batchSize, before, f, i + 1, s') && (raised <==> StopsBehind(batchSize, before.tried, f, i))
  {
    var a := f.attempts[i];
    if a.embedding.Some? {
      OneMoreEmbedded(before, f, i);
      ChunkFollows(batchSize, uuid, s, before.tried + TriedOf(f, i), f.key, i, a);
      ChunkMakes(batchSize, uuid, s, f.key, i, a);
    } else {
      SkippedReaches(batchSize, s, before, f, i);
    }
  }

  lemma ChunkMakes(batchSize: int, uuid: nat -> string, s: State, key: string, i: nat, a: Attempt)
    requires a.embedding.Some? && a.builds
    ensures var s' := ChunkStep(batchSize, uuid, s, key, i, a).0;
            && ChunksOf(s'.made) == ChunksOf(s.made) + [Chunk(key, i, a.text, a.embedding.value)]
            && s'.failedChunks == s.failedChunks
  {
    ChunksOfAppend(s.made, Point(uuid(|s.made|), key, i, a.text, a.embedding.value));
  }

  lemma {:induction false} FileMakesPrefix(batchSize: int, uuid: nat -> string, s: State, before: Past, f: File, i: nat)
    returns (cut: nat)
    requires f.Readable? && i <= |f.attempts|
    requires Reached(batchSize, before, f, i, s) && Unstopped(batchSize, before.tried, f, i)
    ensures i <= cut <= |f.attempts| && ForcedCut(batchSize, before.tried, f, cut)
    ensures Reached(batchSize, before, f, cut, ChunksFrom(batchSize, uuid, s, f, i))
    decreases |f.attempts| - i
  {
    cut := i;
    if i < |f.attempts| && !StopsAt(f, i) {
      ChunkReaches(batchSize, uuid, s, before, f, i);
      var (s', raised) := ChunkStep(batchSize, uuid, s, f.key, i, f.attempts[i]);
      if raised {
        cut := i + 1;
      } else {
        cut := FileMakesPrefix(batchSize, uuid, s', before, f, i + 1);
      }
    }
  }

  // ---------------------------------------------------------------- all files

  function PastOf(files: seq<File>, cuts: seq<nat>): Past
    requires Cuts(files, cuts)
  {
    Past(EmbeddedUpTo(files, cuts), UnembeddedUpTo(files, cuts), TriedUpTo(files, cuts))
  }

  /** One more file adds what its chunks up to the cut have turned into. */
  lemma PastOneMore(files: seq<File>, f: File, cuts: seq<nat>, cut: nat)
    requires Cuts(files, cuts) && cut <= Size(f)
    ensures Cuts(files + [f], cuts + [cut])
    ensures var past, past' := PastOf(files, cuts), PastOf(files + [f], cuts + [cut]);
            if f.Readable? then
              past' == Past(past.chunks + EmbeddedOf(f, cut), past.failed + UnembeddedOf(f, cut),
                            past.tried + TriedOf(f, cut))
            else past' == past
  {
    assert (files + [f])[..|files|] == files && (cuts + [cut])[..|files|] == cuts;
    var past := PastOf(files, cuts);
    assert past.chunks + [] == past.chunks && past.failed + [] == past.failed && past.tried + [] == past.tried;
  }

  lemma ForcedOneMore(batchSize: int, files: seq<File>, f: File, cuts: seq<nat>, cut: nat)
    requires Cuts(files, cuts) && Forced(batchSize, files, cuts) && cut <= Size(f)
    requires f.Readable? ==> ForcedCut(batchSize, TriedUpTo(files, cuts), f, cut)
    ensures Cuts(files + [f], cuts + [cut]) && Forced(batchSize, files + [f], cuts + [cut])
  {
    assert (files + [f])[..|files|] == files && (cuts + [cut])[..|files|] == cuts;
  }

  lemma FileMovesCut(batchSize: int, uuid: nat -> string, s: State, files: seq<File>, f: File, cuts: seq<nat>)
    returns (cut: nat)
    requires MadeFrom(batchSize, files, cuts, s) && Follows(batchSize, s, TriedUpTo(files, cuts))
    ensures cut <= Size(f)
    ensures var s' := FileStep(batchSize, uuid, s, f);
            && MadeFrom(batchSize, files + [f], cuts + [cut], s')
            && Follows(batchSize, s', TriedUpTo(files + [f], cuts + [cut]))
  {
    var past := PastOf(files, cuts);
    cut := 0;
    if f.Readable? {
      assert past.chunks + EmbeddedOf(f, 0) == past.chunks && past.failed + UnembeddedOf(f, 0) == past.failed;
      assert past.tried + TriedOf(f, 0) == past.tried;
      cut := FileMakesPrefix(batchSize, uuid, s, past, f, 0);
    }
    PastOneMore(files, f, cuts, cut);
    ForcedOneMore(batchSize, files, f, cuts, cut);
  }

  lemma {:induction false} FilesMakePrefixes(batchSize: int, uuid: nat -> string, s: State, files: seq<File>, k: nat,
                                             cuts: seq<nat>)
    returns (all: seq<nat>)
    requires k <= |files|
    requires MadeFrom(batchSize, files[..k], cuts, s) && Follows(batchSize, s, TriedUpTo(files[..k], cuts))
    ensures var s' := FilesFrom(batchSize, uuid, s, files, k);
            MadeFrom(batchSize, files, all, s') && Follows(batchSize, s', TriedUpTo(files, all))
    decreases |files| - k
  {
    if k == |files| {
      assert files[..k] == files;
      all := cuts;
    } else {
      assert files[..k + 1] == files[..k] + [files[k]];
      var cut := FileMovesCut(batchSize, uuid, s, files[..k], files[k], cuts);
      all := FilesMakePrefixes(batchSize, uuid, FileStep(batchSize, uuid, s, files[k]), files, k + 1, cuts + [cut]);
    }
  }

  lemma EmptyFollows(batchSize: int, s: State, tried: seq<Attempt>)
    requires Empty(s) && |tried| == 0
    ensures Follows(batchSize, s, tried)
  {
    assert InHand(batchSize, tried) == 0 && |Messages(batchSize, tried)| == 0;
    assert s.made[0..] == s.points;
  }

  lemma LoopsMakePrefixes(batchSize: int, uuid: nat -> string, s: State, files: seq<File>) returns (cuts: seq<nat>)
    requires Empty(s)
    ensures var s' := FilesFrom(batchSize, uuid, s, files, 0);
            MadeFrom(batchSize, files, cuts, s') && Follows(batchSize, s', TriedUpTo(files, cuts))
  {
    assert files[..0] == [];
    EmptyFollows(batchSize, s, TriedUpTo(files[..0], []));
    cuts := FilesMakePrefixes(batchSize, uuid, s, files, 0, []);
  }

  // ---------------------------------------------------------------- when nothing stops a file

  lemma {:induction false} TriedAre(files: seq<File>, cuts: seq<nat>, w: Weather, batchSize: int)
    requires Cuts(files, cuts) && AllAllowed(w, batchSize, files)
    ensures forall i :: 0 <= i < |TriedUpTo(files, cuts)| ==> Allows(w, batchSize, TriedUpTo(files, cuts)[i])
  {
    if files != [] {
      var k := |files| - 1;
      assert files[k] in files;
      TriedAre(files[..k], cuts[..k], w, batchSize);
      if files[k].Readable? {
        TriedOfAre(files[k], cuts[k], w, batchSize);
      }
    }
  }

  lemma {:induction false} TriedOfAre(f: File, n: nat, w: Weather, batchSize: int)
    requires f.Readable? && n <= |f.attempts|
    requires forall j :: 0 <= j < |f.attempts| ==> Allows(w, batchSize, f.attempts[j])
    ensures forall i :: 0 <= i < |TriedOf(f, n)| ==> Allows(w, batchSize, TriedOf(f, n)[i])
  {
    if n > 0 {
      TriedOfAre(f, n - 1, w, batchSize);
    }
  }

  lemma NothingRaises(batchSize: int, tried: seq<Attempt>)
    requires forall i :: 0 <= i < |tried| ==> Allows(Smooth, batchSize, tried[i])
    ensures tried != [] ==> !Raises(batchSize, tried)
  {
    assert forall i :: 0 <= i < |tried| ==> Allows(Smooth, batchSize, tried[i]) && tried[i].inserts;
  }

  /** While only reads and embeddings fail, every file is processed to its end. */
  lemma {:induction false} SmoothCuts(batchSize: int, files: seq<File>, cuts: seq<nat>)
    requires AllAllowed(Smooth, batchSize, files) && Cuts(files, cuts) && Forced(batchSize, files, cuts)
    ensures cuts == AllOf(files)
  {
    if files != [] {
      var k := |files| - 1;
      var f := files[k];
      assert f in files;
      SmoothCuts(batchSize, files[..k], cuts[..k]);
      TriedAre(files[..k], cuts[..k], Smooth, batchSize);
      if f.Readable? && cuts[k] < |f.attempts| {
        TriedOfAre(f, cuts[k], Smooth, batchSize);
        assert Allows(Smooth, batchSize, f.attempts[cuts[k]]) && !StopsAt(f, cuts[k]);
        NothingRaises(batchSize, TriedUpTo(files[..k], cuts[..k]) + TriedOf(f, cuts[k]));
        assert false;
      }
      assert cuts == cuts[..k] + [cuts[k]];
    }
  }

  // ---------------------------------------------------------------- the whole job

  /** The end of the job, as the attempts and the closing answers determine it. */
  ghost predicate EndsAs(batchSize: int, tried: seq<Attempt>, c: Closing, fileCount: nat, s: State, ending: Ending) {
    var ms, hold := Messages(batchSize, tried), InHand(batchSize, tried);
    var n := |ms|;
    && |s.made| == |tried| && InsertedAs(s.inserts, tried)
    && |s.deliveries| == (if hold > 0 && c.final.sends then n + 1 else n)
    && SentAs(s.deliveries[..n], ms, s.made, tried)
    && (hold > 0 && c.final.sends ==>
          s.deliveries[n].batch == s.made[|tried| - hold..] && s.deliveries[n].commit == c.final.commit)
    && s.points == (if Passes(c.final) then [] else s.made[|tried| - hold..])
    && (ending.Completed? <==> hold == 0 || Passes(c.final))
    && (ending.Completed? ==> ending.vectorCount == CountOk(s.inserts) && ending.fileCount == fileCount)
  }

  lemma CloseFollows(batchSize: int, uuid: nat -> string, tried: seq<Attempt>, s: State, fileCount: nat, c: Closing)
    requires Follows(batchSize, s, tried) && Counted(s)
    ensures var (s', ending) := Closed(s, fileCount, c);
            EndsAs(batchSize, tried, c, fileCount, s', ending)
  {
    ClosedIs(s, fileCount, c);
    ClosedKeeps(s, fileCount, c);
    assert s.points == [] <==> InHand(batchSize, tried) == 0;
  }

  /** What the final flush and the coverage call leave of the job's points and messages. */
  lemma ClosedKeeps(s: State, fileCount: nat, c: Closing)
    ensures var s' := Closed(s, fileCount, c).0;
            && s'.made == s.made && s'.inserts == s.inserts && s'.idx == s.idx
            && s'.points == (if Passes(c.final) then [] else s.points)
            && s'.deliveries[..|s.deliveries|] == s.deliveries
            && s'.deliveries[|s.deliveries|..] ==
               if s.points != [] && c.final.sends then [Delivery(s.points, s.uncommitted, c.final.commit)] else []
  {
    ClosedIs(s, fileCount, c);
  }

  lemma JobIsFinal(batchSize: int, uuid: nat -> string, files: seq<File>, c: Closing) returns (cuts: seq<nat>)
    ensures var (s, ending) := Job(batchSize, uuid, files, c);
            && Final(uuid, s, ending)
            && (ending.recorded <==> c.hasTags && c.coverage.durable && (AllOk(s.inserts) || c.final.sends))
            && MadeFrom(batchSize, files, cuts, s)
            && EndsAs(batchSize, TriedUpTo(files, cuts), c, |files|, s, ending)
  {
    LoopsEndInInv(Any, batchSize, uuid, files);
    var s0 := FilesFrom(batchSize, uuid, START, files, 0);
    ClosingIsFinal(Any, batchSize, uuid, s0, |files|, c);
    cuts := LoopsMakePrefixes(batchSize, uuid, START, files);
    CloseFollows(batchSize, uuid, TriedUpTo(files, cuts), s0, |files|, c);
  }
}
