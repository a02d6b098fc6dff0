/** What the loaded edges mean: the hash joins are the nested-loop joins, and the two directions of
    an edge are inverse to each other. */
module EagerLoadingProperties {
  import opened Wrappers
  import opened EagerLoading

  // ---------------------------------------------------------------- lists are filters

  lemma {:induction false} MatchingIff<N>(ns: seq<N>, key: N -> Option<int>, id: int, n: N)
    ensures n in Matching(ns, key, id) <==> n in ns && key(n) == Some(id)
  {
    if ns != [] {
      MatchingIff(ns[..|ns| - 1], key, id, n);
      assert n in ns <==> n in ns[..|ns| - 1] || n == ns[|ns| - 1];
    }
  }

  lemma {:induction false} LastMatchingIff<N>(ns: seq<N>, key: N -> Option<int>, id: int, n: N)
    requires Distinct(ns, key)
    ensures LastMatching(ns, key, id) == Some(n) <==> n in ns && key(n) == Some(id)
  {
    if ns != [] {
      LastMatchingIff(ns[..|ns| - 1], key, id, n);
      assert n in ns <==> n in ns[..|ns| - 1] || n == ns[|ns| - 1];
    }
  }

  /** One to many and many to one over the same data are inverse: a child is in a parent's list
      exactly when the child's edge points to that parent. */
  lemma EdgesAreInverse<P, C>(parents: seq<P>, pk: P -> Option<int>, children: seq<C>, fk: C -> Option<int>, p: P, c: C)
    requires Distinct(parents, pk) && p in parents && c in children
    ensures c in Matching(children, fk, pk(p).value) <==>
            fk(c).Some? && LastMatching(parents, pk, fk(c).value) == Some(p)
  {
    MatchingIff(children, fk, pk(p).value, c);
    if fk(c).Some? {
      LastMatchingIff(parents, pk, fk(c).value, p);
    }
  }

  // ---------------------------------------------------------------- lists partition the neighbours

  /** The lists of all parents together. */
  function Lists<P(==), C(==)>(parents: seq<P>, pk: P -> Option<int>, children: seq<C>, fk: C -> Option<int>):
    multiset<C>
    requires forall i :: 0 <= i < |parents| ==> pk(parents[i]).Some?
  {
    if parents == [] then multiset{}
    else
      var last := parents[|parents| - 1];
      Lists(parents[..|parents| - 1], pk, children, fk) + multiset(Matching(children, fk, pk(last).value))
  }

  lemma MatchingOneMore<C>(children: seq<C>, fk: C -> Option<int>, id: int, c: C)
    ensures Matching(children + [c], fk, id) ==
            if fk(c) == Some(id) then Matching(children, fk, id) + [c] else Matching(children, fk, id)
  {
    MatchingNext(children + [c], fk, id, |children|);
    assert (children + [c])[..|children|] == children && (children + [c])[..|children| + 1] == children + [c];
  }

  lemma JoinRight<N>(x: seq<N>, y: seq<N>, n: N)
    ensures x + (y + [n]) == (x + y) + [n] && x + [] == x
  {}

  /** The list is the elements with the key in their own order: what comes first is listed first. */
  lemma {:induction false} MatchingInOrder<C>(first: seq<C>, second: seq<C>, fk: C -> Option<int>, id: int)
    ensures Matching(first + second, fk, id) == Matching(first, fk, id) + Matching(second, fk, id)
  {
    if second == [] {
      assert first + second == first;
    } else {
      var init, last := second[..|second| - 1], second[|second| - 1];
      MatchingInOrder(first, init, fk, id);
      JoinRight(first, init, last);
      assert second == init + [last];
      MatchingOneMore(first + init, fk, id, last);
      MatchingOneMore(init, fk, id, last);
      JoinRight(Matching(first, fk, id), Matching(init, fk, id), last);
    }
  }

  lemma KeysSplit<P>(parents: seq<P>, pk: P -> Option<int>)
    requires Distinct(parents, pk) && parents != []
    ensures var init, last := parents[..|parents| - 1], parents[|parents| - 1];
            Keys(parents, pk) == Keys(init, pk) + {pk(last).value} && pk(last).value !in Keys(init, pk)
  {
    KeysNext(parents, pk, |parents| - 1);
    assert parents[..|parents|] == parents;
  }

  lemma {:induction false} ListsOfOneMore<P, C>(parents: seq<P>, pk: P -> Option<int>, children: seq<C>,
                                                fk: C -> Option<int>, c: C)
    requires Distinct(parents, pk)
    ensures Lists(parents, pk, children + [c], fk) ==
            Lists(parents, pk, children, fk) + if Known(fk, Keys(parents, pk), c) then multiset{c} else multiset{}
  {
    if parents != [] {
      ListsOfOneMore(parents[..|parents| - 1], pk, children, fk, c);
      MatchingOneMore(children, fk, pk(parents[|parents| - 1]).value, c);
      KeysSplit(parents, pk);
    }
  }

  lemma {:induction false} ListsOfNone<P, C>(parents: seq<P>, pk: P -> Option<int>, fk: C -> Option<int>)
    requires Distinct(parents, pk)
    ensures Lists(parents, pk, [], fk) == multiset{}
  {
    if parents != [] {
      ListsOfNone(parents[..|parents| - 1], pk, fk);
    }
  }

  /** Children the query returned for these parents land in exactly one list, as often as they were
      returned. */
  lemma {:induction false} ListsPartitionTheChildren<P, C>(parents: seq<P>, pk: P -> Option<int>, children: seq<C>,
                                                           fk: C -> Option<int>)
    requires Distinct(parents, pk)
    requires forall i :: 0 <= i < |children| ==> Known(fk, Keys(parents, pk), children[i])
    ensures Lists(parents, pk, children, fk) == multiset(children)
  {
    if children == [] {
      ListsOfNone(parents, pk, fk);
    } else {
      var init, c := children[..|children| - 1], children[|children| - 1];
      assert children == init + [c];
      ListsPartitionTheChildren(parents, pk, init, fk);
      ListsOfOneMore(parents, pk, init, fk, c);
    }
  }

  // ---------------------------------------------------------------- both directions on the heap

  /** After both loaders ran on fresh nodes, an embedding is in an ingestion's list exactly when its
      own edge is that ingestion. */
  lemma LoadedEmbeddingEdgesAgree(ingestions: seq<CodeIngestion>, embeddings: seq<CodeEmbedding>,
                                  was: map<CodeEmbedding, CodeIngestion?>, p: CodeIngestion, c: CodeEmbedding)
    requires Distinct(ingestions, IngestionKey) && p in ingestions && c in embeddings
    requires forall n :: n in embeddings ==> n in was && was[n] == null
    requires EmbeddingsJoined(ingestions, embeddings) && IngestionJoined(embeddings, was, ingestions)
    ensures c in p.embeddings <==> c.ingestion == p
    ensures c.ingestion == p <==> c.ingestionId == p.id
  {
    EdgesAreInverse(ingestions, IngestionKey, embeddings, EmbeddingFk, p, c);
    LastMatchingIff(ingestions, IngestionKey, c.ingestionId, p);
  }

  /** The same over the nullable foreign key. */
  lemma LoadedIdentifierEdgesAgree(types: seq<ActionType>, identifiers: seq<ActionIdentifier>,
                                   was: map<ActionIdentifier, ActionType?>, p: ActionType, c: ActionIdentifier)
    requires Distinct(types, ActionTypeKey) && p in types && c in identifiers
    requires forall n :: n in identifiers ==> n in was && was[n] == null
    requires IdentifiersJoined(types, identifiers) && ActionTypeJoined(identifiers, was, types)
    ensures c in p.identifiers <==> c.actionType == p
    ensures c.actionType == p <==> c.actionTypeId == Some(p.id)
  {
    EdgesAreInverse(types, ActionTypeKey, identifiers, IdentifierFk, p, c);
    if c.actionTypeId != None {
      LastMatchingIff(types, ActionTypeKey, c.actionTypeId.value, p);
    }
  }

  // ---------------------------------------------------------------- tags

  /** The list of a node when no interceptor changes the tags. */
  ghost function TagList(rows: seq<TagRow>, node: int): seq<Tag> {
    TagsOf(FirstTags(rows), rows, node)
  }

  ghost predicate DistinctTags(tags: seq<Tag>) {
    forall i, j :: 0 <= i < j < |tags| ==> tags[i].id != tags[j].id
  }

  /** Some row of `earlier` comes before every row of `later`. */
  ghost predicate AppearsBefore(rows: seq<TagRow>, earlier: int, later: int) {
    exists r :: 0 <= r < |rows| && rows[r].tag.id == earlier && forall q :: 0 <= q <= r ==> rows[q].tag.id != later
  }

  ghost predicate InRowOrder(rows: seq<TagRow>, tags: seq<Tag>) {
    forall i, j :: 0 <= i < j < |tags| ==> AppearsBefore(rows, tags[i].id, tags[j].id)
  }

  ghost predicate Occurs(rows: seq<TagRow>, tag: int) {
    exists r :: 0 <= r < |rows| && rows[r].tag.id == tag
  }

  lemma {:induction false} FirstTagsAreDistinct(rows: seq<TagRow>)
    ensures DistinctTags(FirstTags(rows))
    ensures forall tag :: tag in Keys(FirstTags(rows), TagKey) <==> Occurs(rows, tag)
  {
    if rows != [] {
      var k := |rows| - 1;
      var init := rows[..k];
      FirstTagsAreDistinct(init);
      SeenTagsNext(rows, k);
      assert rows[..k + 1] == rows;
      forall tag
        ensures Occurs(rows, tag) <==> Occurs(init, tag) || tag == rows[k].tag.id
      {
        if Occurs(init, tag) {
          var r :| 0 <= r < k && init[r].tag.id == tag;
          assert rows[r].tag.id == tag;
        }
        if Occurs(rows, tag) && tag != rows[k].tag.id {
          var r :| 0 <= r < |rows| && rows[r].tag.id == tag;
          assert init[r].tag.id == tag;
        }
      }
    }
  }

  lemma AppearsBeforeExtends(rows: seq<TagRow>, k: nat, earlier: int, later: int)
    requires k <= |rows| && AppearsBefore(rows[..k], earlier, later)
    ensures AppearsBefore(rows, earlier, later)
  {
    var r :| 0 <= r < k && rows[..k][r].tag.id == earlier && forall q :: 0 <= q <= r ==> rows[..k][q].tag.id != later;
    assert rows[r].tag.id == earlier && forall q :: 0 <= q <= r ==> rows[q].tag.id == rows[..k][q].tag.id;
  }

  lemma {:induction false} FirstTagsInRowOrder(rows: seq<TagRow>)
    ensures InRowOrder(rows, FirstTags(rows))
  {
    if rows != [] {
      var k := |rows| - 1;
      var init, tags := rows[..k], FirstTags(rows);
      FirstTagsInRowOrder(init);
      FirstTagsAreDistinct(init);
      forall i, j | 0 <= i < j < |tags|
        ensures AppearsBefore(rows, tags[i].id, tags[j].id)
      {
        if j < |FirstTags(init)| {
          AppearsBeforeExtends(rows, k, tags[i].id, tags[j].id);
        } else {
          assert tags[i].id in Keys(FirstTags(init), TagKey);
          var r :| 0 <= r < k && init[r].tag.id == tags[i].id;
          assert rows[r].tag.id == tags[i].id;
          assert !Occurs(init, tags[j].id);
          assert forall q :: 0 <= q <= r ==> rows[q] == init[q];
        }
      }
    }
  }

  /** The tag as the first row with its id has it. */
  ghost predicate FirstSeen(rows: seq<TagRow>, t: Tag) {
    exists r :: 0 <= r < |rows| && rows[r].tag == t && forall q :: 0 <= q < r ==> rows[q].tag.id != t.id
  }

  lemma FirstSeenExtends(rows: seq<TagRow>, k: nat, t: Tag)
    requires k <= |rows| && FirstSeen(rows[..k], t)
    ensures FirstSeen(rows, t)
  {
    var r :| 0 <= r < k && rows[..k][r].tag == t && forall q :: 0 <= q < r ==> rows[..k][q].tag.id != t.id;
    assert rows[r].tag == t && forall q :: 0 <= q < r ==> rows[q].tag.id == rows[..k][q].tag.id;
  }

  lemma {:induction false} FirstTagsAreFirst(rows: seq<TagRow>)
    ensures forall i :: 0 <= i < |FirstTags(rows)| ==> FirstSeen(rows, FirstTags(rows)[i])
  {
    if rows != [] {
      var k := |rows| - 1;
      var init, tags := rows[..k], FirstTags(rows);
      FirstTagsAreFirst(init);
      FirstTagsAreDistinct(init);
      forall i | 0 <= i < |tags|
        ensures FirstSeen(rows, tags[i])
      {
        if i < |FirstTags(init)| {
          FirstSeenExtends(rows, k, tags[i]);
        } else {
          assert rows[k].tag == tags[i] && !Occurs(init, tags[i].id);
          assert forall q :: 0 <= q < k ==> init[q] == rows[q];
        }
      }
    }
  }

  lemma {:induction false} TagsOfIff(tags: seq<Tag>, rows: seq<TagRow>, node: int, t: Tag)
    ensures t in TagsOf(tags, rows, node) <==> t in tags && Paired(rows, node, t.id)
  {
    if tags != [] {
      TagsOfIff(tags[..|tags| - 1], rows, node, t);
      assert t in tags <==> t in tags[..|tags| - 1] || t == tags[|tags| - 1];
    }
  }

  /** Selecting keeps an order that holds between all earlier and later elements. */
  lemma {:induction false} TagsOfKeepsOrder(tags: seq<Tag>, rows: seq<TagRow>, node: int)
    requires DistinctTags(tags) && InRowOrder(rows, tags)
    ensures DistinctTags(TagsOf(tags, rows, node)) && InRowOrder(rows, TagsOf(tags, rows, node))
  {
    if tags != [] {
      var init, t := tags[..|tags| - 1], tags[|tags| - 1];
      var chosen := TagsOf(init, rows, node);
      TagsOfKeepsOrder(init, rows, node);
      forall i | 0 <= i < |chosen|
        ensures chosen[i].id != t.id && AppearsBefore(rows, chosen[i].id, t.id)
      {
        TagsOfIff(init, rows, node, chosen[i]);
        var j :| 0 <= j < |init| && init[j] == chosen[i];
        assert tags[j] == init[j];
      }
    }
  }

  lemma PairedIsListed(rows: seq<TagRow>, node: int, tag: int)
    requires Paired(rows, node, tag)
    ensures exists t :: t in TagList(rows, node) && t.id == tag
  {
    PairedTagIsFirst(rows, node, tag);
    var i :| 0 <= i < |FirstTags(rows)| && FirstTags(rows)[i].id == tag;
    TagsOfIff(FirstTags(rows), rows, node, FirstTags(rows)[i]);
  }

  /** The list of a node holds exactly the tags that rows pair with it, each once and as its first row
      has it, in the order in which the tags first appear in the whole row stream. */
  lemma TagListIsTheJoin(rows: seq<TagRow>, node: int)
    ensures var list := TagList(rows, node);
            && (forall tag :: (exists t :: t in list && t.id == tag) <==> Paired(rows, node, tag))
            && (forall t :: t in list ==> exists i :: 0 <= i < |rows| && rows[i].node == node && rows[i].tag.id == t.id)
            && (forall i :: 0 <= i < |rows| && rows[i].node == node ==> exists t :: t in list && t.id == rows[i].tag.id)
            && (forall t :: t in list ==> FirstSeen(rows, t))
            && DistinctTags(list)
            && InRowOrder(rows, list)
  {
    var list := TagList(rows, node);
    FirstTagsAreDistinct(rows);
    FirstTagsInRowOrder(rows);
    TagsOfKeepsOrder(FirstTags(rows), rows, node);
    FirstTagsAreFirst(rows);
    forall t | t in list
      ensures FirstSeen(rows, t)
    {
      TagsOfIff(FirstTags(rows), rows, node, t);
    }
    forall t | t in list
      ensures exists i :: 0 <= i < |rows| && rows[i].node == node && rows[i].tag.id == t.id
    {
      TagsOfIff(FirstTags(rows), rows, node, t);
    }
    forall i | 0 <= i < |rows| && rows[i].node == node
      ensures exists t :: t in list && t.id == rows[i].tag.id
    {
      assert Paired(rows, node, rows[i].tag.id);
      PairedIsListed(rows, node, rows[i].tag.id);
    }
    forall tag
      ensures (exists t :: t in list && t.id == tag) <==> Paired(rows, node, tag)
    {
      forall t | t in list && t.id == tag
        ensures Paired(rows, node, tag)
      {
        TagsOfIff(FirstTags(rows), rows, node, t);
      }
      if Paired(rows, node, tag) {
        PairedIsListed(rows, node, tag);
      }
    }
  }

  /** Without interceptors the loader never stops early, so it gives every node its `TagList`. */
  lemma PlainTagsAreKnown(rows: seq<TagRow>)
    ensures var tags := FirstTags(rows);
            KnownPrefix(tags, TagKey, Keys(tags, TagKey)) == tags
  {
    var tags := FirstTags(rows);
    assert forall i :: 0 <= i < |tags| ==> TagKey(tags[i]).value in Keys(tags, TagKey);
    KnownPrefixIs(tags, TagKey, Keys(tags, TagKey), |tags|);
    assert tags[..|tags|] == tags;
  }
}
