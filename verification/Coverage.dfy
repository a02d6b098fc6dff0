/** The tag coverage table: one row per (tag, model) and the three calls that move its status.
    Each call is one atomic transaction over the tags of a job. */
module Coverage {

  datatype Status = Pending | Building | Complete | Stale

  datatype Key = Key(tag: int, model: string)

  datatype Row = Row(dims: int, status: Status, vectorCount: int, fileCount: int)

  type Table = map<Key, Row>

  // ---------------------------------------------------------------- one SQL statement each

  /** Insert a building row with zero counts, or on conflict only set the status. */
  function ExecUpsertBuilding(t: Table, tag: int, model: string, dims: int): Table {
    var k := Key(tag, model);
    t[k := if k in t then t[k].(status := Building) else Row(dims, Building, 0, 0)]
  }

  /** An update: without a row it does nothing. */
  function ExecUpsertComplete(t: Table, tag: int, model: string, vectorCount: int, fileCount: int): Table {
    var k := Key(tag, model);
    if k in t then t[k := t[k].(status := Complete, vectorCount := vectorCount, fileCount := fileCount)] else t
  }

  function ExecMarkOthersStale(t: Table, tag: int, model: string): Table {
    map k | k in t ::
      if k.tag == tag && k.model != model && t[k].status == Complete then t[k].(status := Stale) else t[k]
  }

  function ExecRevertOnFailure(t: Table, tag: int, model: string): Table {
    var k := Key(tag, model);
    if k in t then t[k := t[k].(status := if t[k].vectorCount > 0 then Stale else Pending)] else t
  }

  // ---------------------------------------------------------------- the calls, all tags at once

  datatype Event =
    | Began(tags: set<int>, model: string, dims: int)
    | Completed(tags: set<int>, model: string, vectorCount: int, fileCount: int)
    | Reverted(tags: set<int>, model: string)

  predicate Covers(e: Event, k: Key) {
    k.tag in e.tags && k.model == e.model
  }

  /** What a call does to one row, whatever the order in which it visits its tags. */
  function RowAfter(e: Event, k: Key, r: Row): Row {
    match e
    case Began(_, _, _) => if Covers(e, k) then r.(status := Building) else r
    case Completed(tags, model, vectorCount, fileCount) =>
      if Covers(e, k) then r.(status := Complete, vectorCount := vectorCount, fileCount := fileCount)
      else if k.tag in tags && r.status == Complete then r.(status := Stale)
      else r
    case Reverted(_, _) =>
      if Covers(e, k) then r.(status := if r.vectorCount > 0 then Stale else Pending) else r
  }

  /** The rows a call is addressed to. */
  function Scope(e: Event): (keys: set<Key>)
    ensures forall k :: k in keys <==> Covers(e, k)
  {
    set tag | tag in e.tags :: Key(tag, e.model)
  }

  /** Only a start creates rows; the other calls change the rows they find. */
  function Apply(t: Table, e: Event): (t': Table)
    ensures e.Began? ==> t'.Keys == t.Keys + Scope(e)
    ensures !e.Began? ==> t'.Keys == t.Keys
    ensures forall k :: k in t ==> t'[k] == RowAfter(e, k, t[k])
    ensures forall k :: k in t' && k !in t ==> e.Began? && t'[k] == Row(e.dims, Building, 0, 0)
  {
    var kept := map k | k in t :: RowAfter(e, k, t[k]);
    if e.Began? then
      (map k | k in Scope(e) :: Row(e.dims, Building, 0, 0)) + kept
    else kept
  }

  function Tags(ids: seq<int>): set<int> {
    set i | 0 <= i < |ids| :: ids[i]
  }

  lemma TagsAppend(ids: seq<int>, n: nat)
    requires n < |ids|
    ensures Tags(ids[..n + 1]) == Tags(ids[..n]) + {ids[n]}
  {
    assert ids[..n + 1][n] == ids[n];
    forall tag | tag in Tags(ids[..n])
      ensures tag in Tags(ids[..n + 1])
    {
      var i :| 0 <= i < n && ids[i] == tag;
      assert ids[..n + 1][i] == tag;
    }
  }

  lemma NoTags(t: Table, e: Event)
    requires e.tags == {}
    ensures Apply(t, e) == t
  {}

  lemma BeganOneMoreAt(t: Table, tags: set<int>, tag: int, model: string, dims: int, k: Key)
    ensures var a := ExecUpsertBuilding(Apply(t, Began(tags, model, dims)), tag, model, dims);
            var b := Apply(t, Began(tags + {tag}, model, dims));
            (k in a <==> k in b) && (k in a ==> a[k] == b[k])
  {
    assert Covers(Began(tags + {tag}, model, dims), k) <==> Covers(Began(tags, model, dims), k) || k == Key(tag, model);
  }

  /** One more tag of the same call is one more round of its statements. */
  lemma BeganOneMore(t: Table, tags: set<int>, tag: int, model: string, dims: int)
    ensures ExecUpsertBuilding(Apply(t, Began(tags, model, dims)), tag, model, dims) ==
            Apply(t, Began(tags + {tag}, model, dims))
  {
    forall k {
      BeganOneMoreAt(t, tags, tag, model, dims, k);
    }
  }

  lemma CompletedOneMore(t: Table, tags: set<int>, tag: int, model: string, vc: int, fc: int)
    ensures var t' := ExecUpsertComplete(Apply(t, Completed(tags, model, vc, fc)), tag, model, vc, fc);
            ExecMarkOthersStale(t', tag, model) == Apply(t, Completed(tags + {tag}, model, vc, fc))
  {}

  lemma RevertedOneMore(t: Table, tags: set<int>, tag: int, model: string)
    ensures ExecRevertOnFailure(Apply(t, Reverted(tags, model)), tag, model) == Apply(t, Reverted(tags + {tag}, model))
  {}

  // ---------------------------------------------------------------- the calls as the service runs them

  class CoverageTable {
    var rows: Table

    constructor ()
      ensures rows == map[]
    {
      rows := map[];
    }

    method UpsertBuilding(tagIds: seq<int>, model: string, dims: int)
      modifies this
      ensures rows == Apply(old(rows), Began(Tags(tagIds), model, dims))
    {
      NoTags(rows, Began({}, model, dims));
      for n := 0 to |tagIds|
        invariant rows == Apply(old(rows), Began(Tags(tagIds[..n]), model, dims))
      {
        BeganOneMore(old(rows), Tags(tagIds[..n]), tagIds[n], model, dims);
        TagsAppend(tagIds, n);
        rows := ExecUpsertBuilding(rows, tagIds[n], model, dims);
      }
      assert tagIds[..|tagIds|] == tagIds;
    }

    method UpsertComplete(tagIds: seq<int>, model: string, vectorCount: int, fileCount: int)
      modifies this
      ensures rows == Apply(old(rows), Completed(Tags(tagIds), model, vectorCount, fileCount))
    {
      NoTags(rows, Completed({}, model, vectorCount, fileCount));
      for n := 0 to |tagIds|
        invariant rows == Apply(old(rows), Completed(Tags(tagIds[..n]), model, vectorCount, fileCount))
      {
        CompletedOneMore(old(rows), Tags(tagIds[..n]), tagIds[n], model, vectorCount, fileCount);
        TagsAppend(tagIds, n);
        rows := ExecUpsertComplete(rows, tagIds[n], model, vectorCount, fileCount);
        rows := ExecMarkOthersStale(rows, tagIds[n], model);
      }
      assert tagIds[..|tagIds|] == tagIds;
    }

    method RevertOnFailure(tagIds: seq<int>, model: string)
      modifies this
      ensures rows == Apply(old(rows), Reverted(Tags(tagIds), model))
    {
      NoTags(rows, Reverted({}, model));
      for n := 0 to |tagIds|
        invariant rows == Apply(old(rows), Reverted(Tags(tagIds[..n]), model))
      {
        RevertedOneMore(old(rows), Tags(tagIds[..n]), tagIds[n], model);
        TagsAppend(tagIds, n);
        rows := ExecRevertOnFailure(rows, tagIds[n], model);
      }
      assert tagIds[..|tagIds|] == tagIds;
    }
  }
}
