/** What the coverage table says about its history, for every interleaving of jobs. */
module CoverageProperties {
  import opened Coverage

  /** The table after a history of calls, in commit order. */
  function Run(t: Table, es: seq<Event>): Table {
    if es == [] then t else Apply(Run(t, es[..|es| - 1]), es[|es| - 1])
  }

  predicate HasStatus(t: Table, k: Key, s: Status) {
    k in t && t[k].status == s
  }

  /** The row of `k` exists before event `n`: it was there, or some start created it. */
  ghost predicate RowKnown(t: Table, es: seq<Event>, n: nat, k: Key)
    requires n <= |es|
  {
    k in t || exists b :: 0 <= b < n && es[b].Began? && Covers(es[b], k)
  }

  // ---------------------------------------------------------------- which rows are complete

  /** Calls after which `k` is not complete any more: a restart or a failure of its own, or
      another model completing for the same tag. */
  predicate Displaces(e: Event, k: Key) {
    if e.Completed? then k.tag in e.tags && e.model != k.model else Covers(e, k)
  }

  ghost predicate CrownedAt(t: Table, es: seq<Event>, i: nat, k: Key) {
    && i < |es| && es[i].Completed? && Covers(es[i], k)
    && RowKnown(t, es, i, k)
    && forall j :: i < j < |es| ==> !Displaces(es[j], k)
  }

  /** `k` was complete from the start and nothing displaced it. */
  ghost predicate StillComplete(t: Table, es: seq<Event>, k: Key) {
    HasStatus(t, k, Complete) && forall j :: 0 <= j < |es| ==> !Displaces(es[j], k)
  }

  lemma RowKnownSplit(t: Table, es: seq<Event>, n: nat, k: Key)
    requires n < |es|
    ensures RowKnown(t, es, n, k) <==> RowKnown(t, es[..|es| - 1], n, k)
  {
    var init := es[..|es| - 1];
    assert forall b :: 0 <= b < n ==> init[b] == es[b];
  }

  lemma {:induction false} RowExistsIff(t: Table, es: seq<Event>, k: Key)
    ensures k in Run(t, es) <==> RowKnown(t, es, |es|, k)
  {
    if es != [] {
      var init, e := es[..|es| - 1], es[|es| - 1];
      RowExistsIff(t, init, k);
      RowKnownSplit(t, es, |init|, k);
      assert k in Run(t, es) <==> k in Run(t, init) || (e.Began? && Covers(e, k));
    }
  }

  lemma CrownedSplit(t: Table, es: seq<Event>, k: Key)
    requires es != []
    ensures var init, e := es[..|es| - 1], es[|es| - 1];
            (exists i :: CrownedAt(t, es, i, k)) <==>
            || ((exists i :: CrownedAt(t, init, i, k)) && !Displaces(e, k))
            || (e.Completed? && Covers(e, k) && RowKnown(t, init, |init|, k))
  {
    var init, e := es[..|es| - 1], es[|es| - 1];
    forall i: nat | CrownedAt(t, es, i, k)
      ensures i == |init| || (CrownedAt(t, init, i, k) && !Displaces(e, k))
    {
      RowKnownSplit(t, es, i, k);
    }
    RowKnownSplit(t, es, |init|, k);
    if e.Completed? && Covers(e, k) && RowKnown(t, init, |init|, k) {
      assert CrownedAt(t, es, |init|, k);
    }
    if !Displaces(e, k) {
      forall i: nat | CrownedAt(t, init, i, k)
        ensures CrownedAt(t, es, i, k)
      {
        RowKnownSplit(t, es, i, k);
      }
    }
  }

  lemma StillCompleteSplit(t: Table, es: seq<Event>, k: Key)
    requires es != []
    ensures var init, e := es[..|es| - 1], es[|es| - 1];
            StillComplete(t, es, k) <==> StillComplete(t, init, k) && !Displaces(e, k)
  {}

  lemma CompleteStep(t: Table, e: Event, k: Key)
    ensures HasStatus(Apply(t, e), k, Complete) <==>
            (e.Completed? && Covers(e, k) && k in t) || (HasStatus(t, k, Complete) && !Displaces(e, k))
  {}

  /** A row is complete exactly when some completion of the pair found its row and nothing
      displaced it since, or it was complete from the start and never displaced. */
  lemma {:induction false} CompleteIff(t: Table, es: seq<Event>, k: Key)
    ensures HasStatus(Run(t, es), k, Complete) <==> (exists i :: CrownedAt(t, es, i, k)) || StillComplete(t, es, k)
  {
    if es != [] {
      var init, e := es[..|es| - 1], es[|es| - 1];
      CompleteIff(t, init, k);
      CompleteStep(Run(t, init), e, k);
      RowExistsIff(t, init, k);
      CrownedSplit(t, es, k);
      StillCompleteSplit(t, es, k);
    }
  }

  ghost predicate OneCompleteModel(t: Table) {
    forall k, k' :: HasStatus(t, k, Complete) && HasStatus(t, k', Complete) && k.tag == k'.tag ==> k == k'
  }

  /** No interleaving gives a tag two complete models. */
  lemma {:induction false} AtMostOneCompleteModel(t: Table, es: seq<Event>)
    requires OneCompleteModel(t)
    ensures OneCompleteModel(Run(t, es))
  {
    if es != [] {
      AtMostOneCompleteModel(t, es[..|es| - 1]);
      assert forall k :: HasStatus(Run(t, es), k, Complete) ==>
          HasStatus(Run(t, es[..|es| - 1]), k, Complete) || Covers(es[|es| - 1], k);
    }
  }

  // ---------------------------------------------------------------- which rows are building

  predicate Closes(e: Event, k: Key) {
    !e.Began? && Covers(e, k)
  }

  ghost predicate OpenSince(es: seq<Event>, i: nat, k: Key) {
    && i < |es| && es[i].Began? && Covers(es[i], k)
    && forall j :: i < j < |es| ==> !Closes(es[j], k)
  }

  ghost predicate StillBuilding(t: Table, es: seq<Event>, k: Key) {
    HasStatus(t, k, Building) && forall j :: 0 <= j < |es| ==> !Closes(es[j], k)
  }

  lemma OpenSplit(es: seq<Event>, k: Key)
    requires es != []
    ensures var init, e := es[..|es| - 1], es[|es| - 1];
            (exists i :: OpenSince(es, i, k)) <==>
            (e.Began? && Covers(e, k)) || ((exists i :: OpenSince(init, i, k)) && !Closes(e, k))
  {
    var init, e := es[..|es| - 1], es[|es| - 1];
    if e.Began? && Covers(e, k) {
      assert OpenSince(es, |init|, k);
    }
    forall i: nat | OpenSince(init, i, k) && !Closes(e, k)
      ensures OpenSince(es, i, k)
    {}
    forall i: nat | OpenSince(es, i, k)
      ensures i == |init| || (OpenSince(init, i, k) && !Closes(e, k))
    {}
  }

  lemma StillBuildingSplit(t: Table, es: seq<Event>, k: Key)
    requires es != []
    ensures var init, e := es[..|es| - 1], es[|es| - 1];
            StillBuilding(t, es, k) <==> StillBuilding(t, init, k) && !Closes(e, k)
  {}

  /** A row is building exactly when some start of the pair has no later completion or revert of
      the same pair; other models' completions leave it alone. */
  lemma {:induction false} BuildingIff(t: Table, es: seq<Event>, k: Key)
    ensures HasStatus(Run(t, es), k, Building) <==> (exists i :: OpenSince(es, i, k)) || StillBuilding(t, es, k)
  {
    if es != [] {
      BuildingIff(t, es[..|es| - 1], k);
      OpenSplit(es, k);
      StillBuildingSplit(t, es, k);
    }
  }

  // ---------------------------------------------------------------- what the count column says

  /** The completion at `i` is the last one of the pair that found its row. */
  ghost predicate LastReport(t: Table, es: seq<Event>, i: nat, k: Key) {
    && i < |es| && es[i].Completed? && Covers(es[i], k)
    && RowKnown(t, es, i, k)
    && forall j :: i < j < |es| && es[j].Completed? ==> !Covers(es[j], k)
  }

  /** One more event: a completion of a known pair becomes the last report, others change none. */
  lemma LastReportSplit(t: Table, es: seq<Event>, i: nat, k: Key)
    requires i < |es|
    ensures var init, e := es[..|es| - 1], es[|es| - 1];
            LastReport(t, es, i, k) <==>
            if e.Completed? && Covers(e, k) && RowKnown(t, init, |init|, k) then i == |init|
            else LastReport(t, init, i, k)
  {
    RowKnownSplit(t, es, i, k);
    RowKnownSplit(t, es, |es| - 1, k);
  }

  /** The two count columns are what the last completion of the pair that found its row reported;
      without one they are the initial ones, zero for a new row. */
  lemma {:induction false} CountIsTheLastReport(t: Table, es: seq<Event>, k: Key)
    requires k in Run(t, es)
    ensures var r := Run(t, es)[k];
            && (forall i: nat :: LastReport(t, es, i, k) ==>
                  r.vectorCount == es[i].vectorCount && r.fileCount == es[i].fileCount)
            && ((forall i: nat :: !LastReport(t, es, i, k)) ==>
                  && r.vectorCount == (if k in t then t[k].vectorCount else 0)
                  && r.fileCount == (if k in t then t[k].fileCount else 0))
  {
    if es != [] {
      var init, e := es[..|es| - 1], es[|es| - 1];
      RowExistsIff(t, init, k);
      forall i: nat | i < |es|
        ensures LastReport(t, es, i, k) <==>
                if e.Completed? && Covers(e, k) && k in Run(t, init) then i == |init| else LastReport(t, init, i, k)
      {
        LastReportSplit(t, es, i, k);
      }
      if k in Run(t, init) {
        CountIsTheLastReport(t, init, k);
      }
      if e.Completed? && Covers(e, k) {
        assert LastReport(t, es, |init|, k);
      }
    }
  }

  /** The start at `i` is the first one of the pair. */
  ghost predicate FirstStart(es: seq<Event>, i: nat, k: Key) {
    && i < |es| && es[i].Began? && Covers(es[i], k)
    && forall j :: 0 <= j < i && es[j].Began? ==> !Covers(es[j], k)
  }

  /** A row keeps the dimensions it was created with, whatever later starts report. */
  lemma {:induction false} DimsAreTheFirst(t: Table, es: seq<Event>, k: Key)
    requires k in Run(t, es)
    ensures k in t ==> Run(t, es)[k].dims == t[k].dims
    ensures k !in t ==> exists i: nat :: FirstStart(es, i, k) && Run(t, es)[k].dims == es[i].dims
  {
    if es != [] {
      var init, e := es[..|es| - 1], es[|es| - 1];
      RowExistsIff(t, init, k);
      if k in Run(t, init) {
        DimsAreTheFirst(t, init, k);
        if k !in t {
          var i: nat :| FirstStart(init, i, k) && Run(t, init)[k].dims == init[i].dims;
          assert FirstStart(es, i, k);
        }
      } else {
        assert FirstStart(es, |init|, k);
      }
    }
  }

  /** The call at `i` is the last one addressed to the pair, and it found or made the row. */
  ghost predicate LastCall(t: Table, es: seq<Event>, i: nat, k: Key) {
    && i < |es| && Covers(es[i], k)
    && (es[i].Began? || RowKnown(t, es, i, k))
    && forall j :: i < j < |es| ==> !Covers(es[j], k)
  }

  ghost predicate LastCallIs(t: Table, es: seq<Event>, k: Key, p: Event -> bool) {
    exists i: nat :: LastCall(t, es, i, k) && p(es[i])
  }

  ghost predicate Untouched(es: seq<Event>, k: Key) {
    forall j :: 0 <= j < |es| ==> !Covers(es[j], k)
  }

  lemma LastCallSplit(t: Table, es: seq<Event>, k: Key, p: Event -> bool)
    requires es != []
    ensures var init, e := es[..|es| - 1], es[|es| - 1];
            && (Untouched(es, k) <==> Untouched(init, k) && !Covers(e, k))
            && (LastCallIs(t, es, k, p) <==>
                if Covers(e, k) then (e.Began? || k in Run(t, init)) && p(e) else LastCallIs(t, init, k, p))
  {
    var init, e := es[..|es| - 1], es[|es| - 1];
    RowExistsIff(t, init, k);
    RowKnownSplit(t, es, |init|, k);
    forall i: nat | i < |init|
      ensures LastCall(t, es, i, k) <==> LastCall(t, init, i, k) && !Covers(e, k)
    {
      RowKnownSplit(t, es, i, k);
    }
    if Covers(e, k) {
      assert LastCall(t, es, |init|, k) <==> e.Began? || k in Run(t, init);
    } else if LastCallIs(t, init, k, p) {
      var i: nat :| LastCall(t, init, i, k) && p(init[i]);
      assert LastCall(t, es, i, k) && p(es[i]);
    }
  }

  predicate Reverts(e: Event) {
    e.Reverted?
  }

  /** A pending row is one whose last call was a revert that found no count, or that was pending from
      the start and never addressed. */
  lemma {:induction false} PendingIff(t: Table, es: seq<Event>, k: Key)
    ensures HasStatus(Run(t, es), k, Pending) <==>
            || (k in Run(t, es) && Run(t, es)[k].vectorCount <= 0 && LastCallIs(t, es, k, Reverts))
            || (HasStatus(t, k, Pending) && Untouched(es, k))
  {
    if es != [] {
      PendingIff(t, es[..|es| - 1], k);
      LastCallSplit(t, es, k, Reverts);
    }
  }

  /** A stale or complete row whose count column shows no vector. */
  predicate Hollow(t: Table, k: Key) {
    k in t && (t[k].status == Stale || t[k].status == Complete) && t[k].vectorCount <= 0
  }

  predicate ReportsNothing(e: Event) {
    e.Completed? && e.vectorCount <= 0
  }

  /** A stale or complete row counts no vector exactly when the last call on its pair was a completion
      that reported none, or it was so from the start and never addressed. */
  lemma {:induction false} HollowIff(t: Table, es: seq<Event>, k: Key)
    ensures Hollow(Run(t, es), k) <==> LastCallIs(t, es, k, ReportsNothing) || (Hollow(t, k) && Untouched(es, k))
  {
    if es != [] {
      HollowIff(t, es[..|es| - 1], k);
      LastCallSplit(t, es, k, ReportsNothing);
    }
  }

  /** Such rows exist: a job that embeds nothing still completes, and the next model's completion
      turns its row stale with no vector behind it. */
  lemma StaleWithoutVectors()
    ensures var es := [Began({1}, "a", 3), Completed({1}, "a", 0, 2), Completed({1}, "b", 7, 2)];
            var t := Run(map[], es);
            HasStatus(t, Key(1, "a"), Stale) && t[Key(1, "a")].vectorCount == 0
  {
    var es := [Began({1}, "a", 3), Completed({1}, "a", 0, 2), Completed({1}, "b", 7, 2)];
    var k := Key(1, "a");
    assert es[..2][..1] == es[..1] && es[..1][..0] == [] && es[..2] == [es[0], es[1]];
    var t1 := Apply(map[], es[0]);
    assert Run(map[], es[..1]) == t1;
    assert Covers(es[0], k) && k in t1;
    var t2 := Apply(t1, es[1]);
    assert Run(map[], es[..2]) == t2;
    assert t2[k].status == Complete && t2[k].vectorCount == 0;
    assert Run(map[], es) == Apply(t2, es[2]);
  }
}
