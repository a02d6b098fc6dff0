/** Which backup rows become durable: every inserted row belongs to one transaction, and the answer to
    that transaction's commit decides. */
module IngestionLedger {
  import opened Ingestion
  import opened IngestionInvariants

  /** The rows of the accepted inserts, one per point. */
  function InsertedRows(made: seq<Point>, inserts: seq<bool>): seq<Row>
    requires |made| == |inserts|
  {
    if made == [] then []
    else
      var n := |made| - 1;
      InsertedRows(made[..n], inserts[..n]) +
      if inserts[n] then [Row(made[n].path, made[n].chunk, made[n].vector)] else []
  }

  /** The rows that were open at some send, and so belong to the transaction that was then committed. */
  function SettledRows(ds: seq<Delivery>): seq<Row> {
    if ds == [] then [] else SettledRows(ds[..|ds| - 1]) + ds[|ds| - 1].uncommitted
  }

  /** Those of them whose commit made them durable. */
  function DurableRows(ds: seq<Delivery>): seq<Row> {
    if ds == [] then []
    else DurableRows(ds[..|ds| - 1]) + if ds[|ds| - 1].commit.durable then ds[|ds| - 1].uncommitted else []
  }

  /** Holds inside the loops. */
  ghost predicate Ledger(s: State) {
    && |s.made| == |s.inserts|
    && SettledRows(s.deliveries) + s.uncommitted == InsertedRows(s.made, s.inserts)
    && s.committed == DurableRows(s.deliveries)
  }

  lemma InsertedAppend(made: seq<Point>, inserts: seq<bool>, p: Point, ok: bool)
    requires |made| == |inserts|
    ensures InsertedRows(made + [p], inserts + [ok]) ==
            InsertedRows(made, inserts) + if ok then [Row(p.path, p.chunk, p.vector)] else []
  {
    assert (made + [p])[..|made|] == made && (inserts + [ok])[..|made|] == inserts;
  }

  lemma SettledAppend(ds: seq<Delivery>, d: Delivery)
    ensures SettledRows(ds + [d]) == SettledRows(ds) + d.uncommitted
    ensures DurableRows(ds + [d]) == DurableRows(ds) + if d.commit.durable then d.uncommitted else []
  {
    assert (ds + [d])[..|ds|] == ds;
  }

  lemma InsertKeepsLedger(s: State, p: Point, ok: bool)
    requires Ledger(s)
    ensures Ledger(Inserted(s, p, ok))
  {
    InsertedAppend(s.made, s.inserts, p, ok);
    var s' := Inserted(s, p, ok);
    if ok {
      assert SettledRows(s.deliveries) + (s.uncommitted + [RowOf(p)]) ==
             SettledRows(s.deliveries) + s.uncommitted + [RowOf(p)];
    }
  }

  lemma FlushKeepsLedger(s: State, f: Flush)
    requires Ledger(s) && !s.aborted
    ensures Ledger(Flushed(s, f).0)
  {
    if f.sends {
      SettledAppend(s.deliveries, Delivery(s.points, s.uncommitted, f.commit));
      var s' := Flushed(s, f).0;
      assert SettledRows(s'.deliveries) + s'.uncommitted == SettledRows(s'.deliveries);
      assert s.committed + [] == s.committed;
    }
  }

  lemma ChunkKeepsLedger(batchSize: int, uuid: nat -> string, s: State, key: string, i: nat, a: Attempt)
    requires Ledger(s)
    ensures Ledger(ChunkStep(batchSize, uuid, s, key, i, a).0)
  {
    if a.embedding.Some? && a.builds {
      ChunkStepIs(batchSize, uuid, s, key, i, a);
      var p, ok := Point(uuid(|s.made|), key, i, a.text, a.embedding.value), a.inserts && !s.aborted;
      InsertKeepsLedger(s, p, ok);
      if ok && |s.points| + 1 >= batchSize {
        FlushKeepsLedger(Inserted(s, p, ok), a.flush);
      }
    }
  }

  lemma LoopsKeepLedger(batchSize: int, uuid: nat -> string, s: State, files: seq<File>)
    requires Empty(s)
    ensures Ledger(FilesFrom(batchSize, uuid, s, files, 0))
  {
    var inv := (s: State) => Ledger(s);
    forall s, key, i: nat, a | inv(s) && Allows(Any, batchSize, a)
      ensures inv(ChunkStep(batchSize, uuid, s, key, i, a).0)
    {
      ChunkKeepsLedger(batchSize, uuid, s, key, i, a);
    }
    assert SettledRows(s.deliveries) + s.uncommitted == [];
    FilesKeep(inv, Any, batchSize, uuid, s, files, 0);
  }

  /** Every inserted row was open at exactly one send or is left over at the end.  Those of a send are
      durable exactly when its commit was, except that a failed insert has the last send's commit roll
      back; those left over are durable exactly when the closing call took effect. */
  ghost predicate Accounted(s: State, c: Closing, ending: Ending, left: seq<Row>)
    requires |s.made| == |s.inserts|
  {
    var rolledBack := !AllOk(s.inserts) && c.final.sends;
    && SettledRows(s.deliveries) + left == InsertedRows(s.made, s.inserts)
    && (rolledBack ==> s.deliveries != [] && left == [])
    && s.committed ==
       DurableRows(if rolledBack then s.deliveries[..|s.deliveries| - 1] else s.deliveries) +
       if ending.recorded then left else []
  }

  lemma CloseSent(s: State, fileCount: nat, c: Closing)
    requires Ledger(s) && AbortedSinceFailure(s) && s.points != [] && c.final.sends
    ensures var (s', ending) := Closed(s, fileCount, c);
            |s'.made| == |s'.inserts| && Accounted(s', c, ending, [])
  {
    ClosedIs(s, fileCount, c);
    var d := Delivery(s.points, s.uncommitted, c.final.commit);
    var s' := Closed(s, fileCount, c).0;
    SettledAppend(s.deliveries, d);
    assert s'.deliveries == s.deliveries + [d] && s'.deliveries[..|s'.deliveries| - 1] == s.deliveries;
    assert SettledRows(s'.deliveries) + [] == SettledRows(s'.deliveries);
    assert forall rows: seq<Row> :: rows + [] == rows;
  }

  lemma CloseUnsent(s: State, fileCount: nat, c: Closing)
    requires Ledger(s) && AbortedSinceFailure(s) && (s.points == [] || !c.final.sends)
    ensures var (s', ending) := Closed(s, fileCount, c);
            |s'.made| == |s'.inserts| && Accounted(s', c, ending, s.uncommitted)
  {
    ClosedIs(s, fileCount, c);
    assert s.committed + [] == s.committed;
  }

  lemma CloseAccounts(s: State, fileCount: nat, c: Closing) returns (left: seq<Row>)
    requires Ledger(s) && AbortedSinceFailure(s)
    ensures var (s', ending) := Closed(s, fileCount, c);
            |s'.made| == |s'.inserts| && Accounted(s', c, ending, left)
  {
    if s.points != [] && c.final.sends {
      CloseSent(s, fileCount, c);
      left := [];
    } else {
      CloseUnsent(s, fileCount, c);
      left := s.uncommitted;
    }
  }
}
