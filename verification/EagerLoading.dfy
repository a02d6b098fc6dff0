/** The generated eager loaders: hash joins that attach query results to already loaded nodes.

    Rows come from the database as parameters; ids are primary keys, so nodes have distinct ids. */
module EagerLoading {
  import opened Wrappers

  datatype Tag = Tag(id: int, name: string)

  /** One row of the join table read together with its tag. */
  datatype TagRow = TagRow(node: int, tag: Tag)

  class CodeEmbedding {
    const id: int
    const ingestionId: int
    var ingestion: CodeIngestion?
    var tags: seq<Tag>

    constructor (id: int, ingestionId: int)
      ensures this.id == id && this.ingestionId == ingestionId && ingestion == null && tags == []
    {
      this.id, this.ingestionId, ingestion, tags := id, ingestionId, null, [];
    }
  }

  class CodeIngestion {
    const id: int
    var embeddings: seq<CodeEmbedding>

    constructor (id: int)
      ensures this.id == id && embeddings == []
    {
      this.id, embeddings := id, [];
    }
  }

  class ActionIdentifier {
    const id: int
    const actionTypeId: Option<int>
    var actionType: ActionType?

    constructor (id: int, actionTypeId: Option<int>)
      ensures this.id == id && this.actionTypeId == actionTypeId && actionType == null
    {
      this.id, this.actionTypeId, actionType := id, actionTypeId, null;
    }
  }

  class ActionType {
    const id: int
    var identifiers: seq<ActionIdentifier>

    constructor (id: int)
      ensures this.id == id && identifiers == []
    {
      this.id, identifiers := id, [];
    }
  }

  // ---------------------------------------------------------------- the joins as functions

  function EmbeddingFk(e: CodeEmbedding): Option<int> {
    Some(e.ingestionId)
  }

  function IngestionKey(i: CodeIngestion): Option<int> {
    Some(i.id)
  }

  function IdentifierFk(a: ActionIdentifier): Option<int> {
    a.actionTypeId
  }

  function ActionTypeKey(a: ActionType): Option<int> {
    Some(a.id)
  }

  function TagKey(t: Tag): Option<int> {
    Some(t.id)
  }

  predicate Known<N>(key: N -> Option<int>, ids: set<int>, n: N) {
    key(n).Some? && key(n).value in ids
  }

  /** The neighbours in front of the first one with no key or an unknown one; a loader stops there
      with an error. */
  function KnownPrefix<N>(ns: seq<N>, key: N -> Option<int>, ids: set<int>): (prefix: seq<N>)
    ensures prefix <= ns
    ensures forall i :: 0 <= i < |prefix| ==> Known(key, ids, prefix[i])
    ensures |prefix| < |ns| ==> !Known(key, ids, ns[|prefix|])
  {
    if ns == [] || !Known(key, ids, ns[0]) then [] else [ns[0]] + KnownPrefix(ns[1..], key, ids)
  }

  /** The elements whose key is `id`, in order: the inner loop of a nested-loop join. */
  function Matching<N>(ns: seq<N>, key: N -> Option<int>, id: int): seq<N> {
    if ns == [] then []
    else Matching(ns[..|ns| - 1], key, id) + if key(ns[|ns| - 1]) == Some(id) then [ns[|ns| - 1]] else []
  }

  /** The last element whose key is `id`. */
  function LastMatching<N>(ns: seq<N>, key: N -> Option<int>, id: int): Option<N> {
    if ns == [] then None
    else if key(ns[|ns| - 1]) == Some(id) then Some(ns[|ns| - 1])
    else LastMatching(ns[..|ns| - 1], key, id)
  }

  function Keys<N>(ns: seq<N>, key: N -> Option<int>): set<int> {
    set i | 0 <= i < |ns| && key(ns[i]).Some? :: key(ns[i]).value
  }

  /** Primary keys: every element has one and no two share it. */
  ghost predicate Distinct<N>(ns: seq<N>, key: N -> Option<int>) {
    && (forall i :: 0 <= i < |ns| ==> key(ns[i]).Some?)
    && (forall i, j :: 0 <= i < j < |ns| ==> key(ns[i]) != key(ns[j]))
  }

  predicate StartsKnown<N>(ns: seq<N>, key: N -> Option<int>, ids: set<int>, k: nat)
    requires k <= |ns|
  {
    forall i :: 0 <= i < k ==> Known(key, ids, ns[i])
  }

  lemma StartsKnownNext<N>(ns: seq<N>, key: N -> Option<int>, ids: set<int>, k: nat)
    requires k < |ns| && StartsKnown(ns, key, ids, k) && Known(key, ids, ns[k])
    ensures StartsKnown(ns, key, ids, k + 1)
  {}

  lemma {:induction false} KnownPrefixIs<N>(ns: seq<N>, key: N -> Option<int>, ids: set<int>, k: nat)
    requires k <= |ns| && StartsKnown(ns, key, ids, k)
    requires k < |ns| ==> !Known(key, ids, ns[k])
    ensures KnownPrefix(ns, key, ids) == ns[..k]
  {
    if k > 0 {
      KnownPrefixIs(ns[1..], key, ids, k - 1);
      assert ns[..k] == [ns[0]] + ns[1..][..k - 1];
    }
  }

  lemma MatchingNext<N>(ns: seq<N>, key: N -> Option<int>, id: int, k: nat)
    requires k < |ns|
    ensures Matching(ns[..k + 1], key, id) ==
            if key(ns[k]) == Some(id) then Matching(ns[..k], key, id) + [ns[k]] else Matching(ns[..k], key, id)
    ensures LastMatching(ns[..k + 1], key, id) ==
            if key(ns[k]) == Some(id) then Some(ns[k]) else LastMatching(ns[..k], key, id)
  {
    assert ns[..k + 1][..k] == ns[..k];
  }

  /** `index` finds every node under its id and nothing else. */
  ghost predicate Indexes<N>(index: map<int, N>, nodes: seq<N>, key: N -> Option<int>) {
    && index.Keys == Keys(nodes, key)
    && (forall n :: n in nodes ==> key(n).Some? && key(n).value in index && index[key(n).value] == n)
    && (forall id :: id in index ==> index[id] in nodes && key(index[id]) == Some(id))
  }

  lemma IndexesNext<N>(index: map<int, N>, nodes: seq<N>, key: N -> Option<int>, i: nat)
    requires i < |nodes| && Distinct(nodes, key) && Indexes(index, nodes[..i], key)
    ensures Indexes(index[key(nodes[i]).value := nodes[i]], nodes[..i + 1], key)
  {
    var next := nodes[..i + 1];
    assert next == nodes[..i] + [nodes[i]];
    assert Keys(next, key) == Keys(nodes[..i], key) + {key(nodes[i]).value} by {
      assert next[i] == nodes[i];
      assert forall j :: 0 <= j < i ==> next[j] == nodes[..i][j];
    }
    assert forall n :: n in nodes[..i] ==> key(n) != key(nodes[i]);
  }

  // ---------------------------------------------------------------- one to many

  /** Indexes the nodes by id, clears their lists and appends each neighbour to its node. */
  method LoadEmbeddings(nodes: seq<CodeIngestion>, neighbors: seq<CodeEmbedding>) returns (ok: bool)
    requires Distinct(nodes, IngestionKey)
    modifies nodes
    ensures var joined := KnownPrefix(neighbors, EmbeddingFk, Keys(nodes, IngestionKey));
            (ok <==> joined == neighbors) && EmbeddingsJoined(nodes, joined)
  {
    var nodeids: map<int, CodeIngestion> := map[];
    for i := 0 to |nodes|
      invariant Indexes(nodeids, nodes[..i], IngestionKey)
      invariant forall j :: 0 <= j < i ==> nodes[j].embeddings == []
    {
      IndexesNext(nodeids, nodes, IngestionKey, i);
      nodeids := nodeids[nodes[i].id := nodes[i]];
      nodes[i].embeddings := [];
    }
    assert nodes[..|nodes|] == nodes;
    ok := AssignEmbeddings(nodes, nodeids, neighbors);
  }

  ghost predicate EmbeddingsJoined(nodes: seq<CodeIngestion>, neighbors: seq<CodeEmbedding>)
    reads nodes
  {
    forall n :: n in nodes ==> n.embeddings == Matching(neighbors, EmbeddingFk, n.id)
  }

  /** Appends neighbour `k` to its node's list. */
  method AssignEmbedding(nodes: seq<CodeIngestion>, node: CodeIngestion, neighbors: seq<CodeEmbedding>, k: nat)
    requires k < |neighbors| && node in nodes
    requires forall n :: n in nodes ==> (n == node <==> n.id == neighbors[k].ingestionId)
    requires EmbeddingsJoined(nodes, neighbors[..k])
    modifies node
    ensures EmbeddingsJoined(nodes, neighbors[..k + 1])
  {
    node.embeddings := node.embeddings + [neighbors[k]];
    forall n | n in nodes
      ensures n.embeddings == Matching(neighbors[..k + 1], EmbeddingFk, n.id)
    {
      MatchingNext(neighbors, EmbeddingFk, n.id, k);
    }
  }

  method AssignEmbeddings(nodes: seq<CodeIngestion>, nodeids: map<int, CodeIngestion>, neighbors: seq<CodeEmbedding>)
    returns (ok: bool)
    requires Indexes(nodeids, nodes, IngestionKey)
    requires EmbeddingsJoined(nodes, [])
    modifies nodes
    ensures var joined := KnownPrefix(neighbors, EmbeddingFk, nodeids.Keys);
            (ok <==> joined == neighbors) && EmbeddingsJoined(nodes, joined)
  {
    for k := 0 to |neighbors|
      invariant StartsKnown(neighbors, EmbeddingFk, nodeids.Keys, k)
      invariant EmbeddingsJoined(nodes, neighbors[..k])
    {
      var fk := neighbors[k].ingestionId;
      if fk !in nodeids {
        KnownPrefixIs(neighbors, EmbeddingFk, nodeids.Keys, k);
        return false;
      }
      StartsKnownNext(neighbors, EmbeddingFk, nodeids.Keys, k);
      AssignEmbedding(nodes, nodeids[fk], neighbors, k);
    }
    KnownPrefixIs(neighbors, EmbeddingFk, nodeids.Keys, |neighbors|);
    assert neighbors[..|neighbors|] == neighbors;
    ok := true;
  }

  ghost predicate IdentifiersJoined(nodes: seq<ActionType>, neighbors: seq<ActionIdentifier>)
    reads nodes
  {
    forall n :: n in nodes ==> n.identifiers == Matching(neighbors, IdentifierFk, n.id)
  }

  /** The same join over a nullable foreign key: a neighbour without one is an error too. */
  method LoadIdentifiers(nodes: seq<ActionType>, neighbors: seq<ActionIdentifier>) returns (ok: bool)
    requires Distinct(nodes, ActionTypeKey)
    modifies nodes
    ensures var joined := KnownPrefix(neighbors, IdentifierFk, Keys(nodes, ActionTypeKey));
            (ok <==> joined == neighbors) && IdentifiersJoined(nodes, joined)
  {
    var nodeids: map<int, ActionType> := map[];
    for i := 0 to |nodes|
      invariant Indexes(nodeids, nodes[..i], ActionTypeKey)
      invariant forall j :: 0 <= j < i ==> nodes[j].identifiers == []
    {
      IndexesNext(nodeids, nodes, ActionTypeKey, i);
      nodeids := nodeids[nodes[i].id := nodes[i]];
      nodes[i].identifiers := [];
    }
    assert nodes[..|nodes|] == nodes;
    ok := AssignIdentifiers(nodes, nodeids, neighbors);
  }

  method AssignIdentifier(nodes: seq<ActionType>, node: ActionType, neighbors: seq<ActionIdentifier>, k: nat)
    requires k < |neighbors| && node in nodes
    requires forall n :: n in nodes ==> (n == node <==> neighbors[k].actionTypeId == Some(n.id))
    requires IdentifiersJoined(nodes, neighbors[..k])
    modifies node
    ensures IdentifiersJoined(nodes, neighbors[..k + 1])
  {
    node.identifiers := node.identifiers + [neighbors[k]];
    forall n | n in nodes
      ensures n.identifiers == Matching(neighbors[..k + 1], IdentifierFk, n.id)
    {
      MatchingNext(neighbors, IdentifierFk, n.id, k);
    }
  }

  method AssignIdentifiers(nodes: seq<ActionType>, nodeids: map<int, ActionType>, neighbors: seq<ActionIdentifier>)
    returns (ok: bool)
    requires Indexes(nodeids, nodes, ActionTypeKey)
    requires IdentifiersJoined(nodes, [])
    modifies nodes
    ensures var joined := KnownPrefix(neighbors, IdentifierFk, nodeids.Keys);
            (ok <==> joined == neighbors) && IdentifiersJoined(nodes, joined)
  {
    for k := 0 to |neighbors|
      invariant StartsKnown(neighbors, IdentifierFk, nodeids.Keys, k)
      invariant IdentifiersJoined(nodes, neighbors[..k])
    {
      var fk := neighbors[k].actionTypeId;
      if fk == None || fk.value !in nodeids {
        KnownPrefixIs(neighbors, IdentifierFk, nodeids.Keys, k);
        return false;
      }
      StartsKnownNext(neighbors, IdentifierFk, nodeids.Keys, k);
      AssignIdentifier(nodes, nodeids[fk.value], neighbors, k);
    }
    KnownPrefixIs(neighbors, IdentifierFk, nodeids.Keys, |neighbors|);
    assert neighbors[..|neighbors|] == neighbors;
    ok := true;
  }

  // ---------------------------------------------------------------- many to one

  /** `buckets` groups the nodes that have a foreign key by it. */
  ghost predicate Buckets<N>(buckets: map<int, seq<N>>, nodes: seq<N>, key: N -> Option<int>) {
    && buckets.Keys == Keys(nodes, key)
    && (forall id, n :: id in buckets && n in buckets[id] ==> n in nodes && key(n) == Some(id))
    && (forall n :: n in nodes && key(n).Some? ==> key(n).value in buckets && n in buckets[key(n).value])
  }

  function Added<N>(buckets: map<int, seq<N>>, fk: int, n: N): map<int, seq<N>> {
    buckets[fk := (if fk in buckets then buckets[fk] else []) + [n]]
  }

  lemma KeysNext<N>(nodes: seq<N>, key: N -> Option<int>, i: nat)
    requires i < |nodes|
    ensures Keys(nodes[..i + 1], key) ==
            Keys(nodes[..i], key) + if key(nodes[i]).Some? then {key(nodes[i]).value} else {}
  {
    var next := nodes[..i + 1];
    assert next[i] == nodes[i];
    assert forall j :: 0 <= j < i ==> next[j] == nodes[..i][j];
  }

  lemma BucketsNext<N>(buckets: map<int, seq<N>>, nodes: seq<N>, key: N -> Option<int>, i: nat)
    requires i < |nodes| && Buckets(buckets, nodes[..i], key)
    ensures var added := if key(nodes[i]).Some? then Added(buckets, key(nodes[i]).value, nodes[i]) else buckets;
            Buckets(added, nodes[..i + 1], key)
  {
    KeysNext(nodes, key, i);
    assert nodes[..i + 1] == nodes[..i] + [nodes[i]];
  }

  /** The edge of each node: the last neighbour with its key, or what it was before. */
  ghost predicate IngestionJoined(nodes: seq<CodeEmbedding>, was: map<CodeEmbedding, CodeIngestion?>,
                                  neighbors: seq<CodeIngestion>)
    requires forall n :: n in nodes ==> n in was
    reads nodes
  {
    forall n :: n in nodes ==>
      n.ingestion == match LastMatching(neighbors, IngestionKey, n.ingestionId) case Some(p) => p case None => was[n]
  }

  /** Buckets the nodes by foreign key and gives every node of a bucket the neighbour with that id. */
  method LoadIngestion(nodes: seq<CodeEmbedding>, neighbors: seq<CodeIngestion>) returns (ok: bool)
    modifies nodes`ingestion
    ensures var joined := KnownPrefix(neighbors, IngestionKey, Keys(nodes, EmbeddingFk));
            && (ok <==> nodes == [] || joined == neighbors)
            && IngestionJoined(nodes, old(map n | n in nodes :: n.ingestion), joined)
  {
    ghost var was := map n | n in nodes :: n.ingestion;
    var ids: seq<int> := [];
    var nodeids: map<int, seq<CodeEmbedding>> := map[];
    for i := 0 to |nodes|
      invariant Buckets(nodeids, nodes[..i], EmbeddingFk)
      invariant i > 0 <==> |ids| > 0
      invariant forall n :: n in nodes ==> n.ingestion == was[n]
    {
      BucketsNext(nodeids, nodes, EmbeddingFk, i);
      var fk := nodes[i].ingestionId;
      if fk !in nodeids {
        ids := ids + [fk];
      }
      nodeids := Added(nodeids, fk, nodes[i]);
    }
    assert nodes[..|nodes|] == nodes;
    if |ids| == 0 {
      return true;
    }
    ok := AssignIngestions(nodes, was, nodeids, neighbors);
  }

  method AssignIngestions(nodes: seq<CodeEmbedding>, ghost was: map<CodeEmbedding, CodeIngestion?>,
                          nodeids: map<int, seq<CodeEmbedding>>, neighbors: seq<CodeIngestion>)
    returns (ok: bool)
    requires Buckets(nodeids, nodes, EmbeddingFk)
    requires forall n :: n in nodes ==> n in was
    requires IngestionJoined(nodes, was, [])
    modifies nodes`ingestion
    ensures var joined := KnownPrefix(neighbors, IngestionKey, nodeids.Keys);
            (ok <==> joined == neighbors) && IngestionJoined(nodes, was, joined)
  {
    for k := 0 to |neighbors|
      invariant StartsKnown(neighbors, IngestionKey, nodeids.Keys, k)
      invariant IngestionJoined(nodes, was, neighbors[..k])
    {
      var id := neighbors[k].id;
      if id !in nodeids {
        KnownPrefixIs(neighbors, IngestionKey, nodeids.Keys, k);
        return false;
      }
      StartsKnownNext(neighbors, IngestionKey, nodeids.Keys, k);
      AssignIngestion(nodes, was, nodeids, neighbors, k);
    }
    KnownPrefixIs(neighbors, IngestionKey, nodeids.Keys, |neighbors|);
    assert neighbors[..|neighbors|] == neighbors;
    ok := true;
  }

  /** Gives neighbour `k` to every node of its bucket. */
  method AssignIngestion(nodes: seq<CodeEmbedding>, ghost was: map<CodeEmbedding, CodeIngestion?>,
                         nodeids: map<int, seq<CodeEmbedding>>, neighbors: seq<CodeIngestion>, k: nat)
    requires k < |neighbors| && neighbors[k].id in nodeids && Buckets(nodeids, nodes, EmbeddingFk)
    requires forall n :: n in nodes ==> n in was
    requires IngestionJoined(nodes, was, neighbors[..k])
    modifies nodes`ingestion
    ensures IngestionJoined(nodes, was, neighbors[..k + 1])
  {
    var bucket := nodeids[neighbors[k].id];
    for i := 0 to |bucket|
      invariant forall j :: 0 <= j < i ==> bucket[j].ingestion == neighbors[k]
      invariant forall n :: n in nodes && n !in bucket ==> n.ingestion == old(n.ingestion)
    {
      assert bucket[i] in nodes;
      bucket[i].ingestion := neighbors[k];
    }
    forall n | n in nodes
      ensures n in bucket <==> IngestionKey(neighbors[k]) == Some(n.ingestionId)
    {}
    forall n | n in nodes {
      MatchingNext(neighbors, IngestionKey, n.ingestionId, k);
    }
  }

  ghost predicate ActionTypeJoined(nodes: seq<ActionIdentifier>, was: map<ActionIdentifier, ActionType?>,
                                   neighbors: seq<ActionType>)
    requires forall n :: n in nodes ==> n in was
    reads nodes
  {
    forall n :: n in nodes ==>
      n.actionType ==
        if n.actionTypeId == None then was[n]
        else match LastMatching(neighbors, ActionTypeKey, n.actionTypeId.value) case Some(p) => p case None => was[n]
  }

  /** The same join over a nullable foreign key: nodes without one are skipped. */
  method LoadActionType(nodes: seq<ActionIdentifier>, neighbors: seq<ActionType>) returns (ok: bool)
    modifies nodes`actionType
    ensures var joined := KnownPrefix(neighbors, ActionTypeKey, Keys(nodes, IdentifierFk));
            && (ok <==> Keys(nodes, IdentifierFk) == {} || joined == neighbors)
            && ActionTypeJoined(nodes, old(map n | n in nodes :: n.actionType), joined)
  {
    ghost var was := map n | n in nodes :: n.actionType;
    var ids: seq<int> := [];
    var nodeids: map<int, seq<ActionIdentifier>> := map[];
    for i := 0 to |nodes|
      invariant Buckets(nodeids, nodes[..i], IdentifierFk)
      invariant nodeids.Keys == {} <==> |ids| == 0
      invariant forall n :: n in nodes ==> n.actionType == was[n]
    {
      BucketsNext(nodeids, nodes, IdentifierFk, i);
      if nodes[i].actionTypeId == None {
        continue;
      }
      var fk := nodes[i].actionTypeId.value;
      if fk !in nodeids {
        ids := ids + [fk];
      }
      nodeids := Added(nodeids, fk, nodes[i]);
      assert fk in nodeids;
    }
    assert nodes[..|nodes|] == nodes;
    if |ids| == 0 {
      return true;
    }
    ok := AssignActionTypes(nodes, was, nodeids, neighbors);
  }

  method AssignActionTypes(nodes: seq<ActionIdentifier>, ghost was: map<ActionIdentifier, ActionType?>,
                           nodeids: map<int, seq<ActionIdentifier>>, neighbors: seq<ActionType>)
    returns (ok: bool)
    requires Buckets(nodeids, nodes, IdentifierFk)
    requires forall n :: n in nodes ==> n in was
    requires ActionTypeJoined(nodes, was, [])
    modifies nodes`actionType
    ensures var joined := KnownPrefix(neighbors, ActionTypeKey, nodeids.Keys);
            (ok <==> joined == neighbors) && ActionTypeJoined(nodes, was, joined)
  {
    for k := 0 to |neighbors|
      invariant StartsKnown(neighbors, ActionTypeKey, nodeids.Keys, k)
      invariant ActionTypeJoined(nodes, was, neighbors[..k])
    {
      var id := neighbors[k].id;
      if id !in nodeids {
        KnownPrefixIs(neighbors, ActionTypeKey, nodeids.Keys, k);
        return false;
      }
      StartsKnownNext(neighbors, ActionTypeKey, nodeids.Keys, k);
      AssignActionType(nodes, was, nodeids, neighbors, k);
    }
    KnownPrefixIs(neighbors, ActionTypeKey, nodeids.Keys, |neighbors|);
    assert neighbors[..|neighbors|] == neighbors;
    ok := true;
  }

  method AssignActionType(nodes: seq<ActionIdentifier>, ghost was: map<ActionIdentifier, ActionType?>,
                          nodeids: map<int, seq<ActionIdentifier>>, neighbors: seq<ActionType>, k: nat)
    requires k < |neighbors| && neighbors[k].id in nodeids && Buckets(nodeids, nodes, IdentifierFk)
    requires forall n :: n in nodes ==> n in was
    requires ActionTypeJoined(nodes, was, neighbors[..k])
    modifies nodes`actionType
    ensures ActionTypeJoined(nodes, was, neighbors[..k + 1])
  {
    var bucket := nodeids[neighbors[k].id];
    for i := 0 to |bucket|
      invariant forall j :: 0 <= j < i ==> bucket[j].actionType == neighbors[k]
      invariant forall n :: n in nodes && n !in bucket ==> n.actionType == old(n.actionType)
    {
      assert bucket[i] in nodes;
      bucket[i].actionType := neighbors[k];
    }
    forall n | n in nodes
      ensures n in bucket <==> n.actionTypeId == Some(neighbors[k].id)
    {}
    forall n | n in nodes && n.actionTypeId != None {
      MatchingNext(neighbors, ActionTypeKey, n.actionTypeId.value, k);
    }
  }

  // ---------------------------------------------------------------- many to many

  ghost predicate Paired(rows: seq<TagRow>, node: int, tag: int) {
    exists i :: 0 <= i < |rows| && rows[i].node == node && rows[i].tag.id == tag
  }

  /** The tags of the row stream, each at its first occurrence. */
  function FirstTags(rows: seq<TagRow>): seq<Tag> {
    if rows == [] then []
    else
      var before, t := FirstTags(rows[..|rows| - 1]), rows[|rows| - 1].tag;
      if t.id in Keys(before, TagKey) then before else before + [t]
  }

  /** The tags among `tags` that some row pairs with the node, in order. */
  ghost function TagsOf(tags: seq<Tag>, rows: seq<TagRow>, node: int): seq<Tag> {
    if tags == [] then []
    else
      var t := tags[|tags| - 1];
      TagsOf(tags[..|tags| - 1], rows, node) + if Paired(rows, node, t.id) then [t] else []
  }

  /** `nids` gives, per tag id, the nodes some row pairs with it. */
  ghost predicate PairsUp(nids: map<int, set<CodeEmbedding>>, nodes: seq<CodeEmbedding>, rows: seq<TagRow>) {
    && nids.Keys == Keys(FirstTags(rows), TagKey)
    && (forall tag, n :: tag in nids && n in nids[tag] ==> n in nodes && Paired(rows, n.id, tag))
    && (forall tag, n :: tag in nids && n in nodes && Paired(rows, n.id, tag) ==> n in nids[tag])
  }

  ghost predicate TagsJoined(nodes: seq<CodeEmbedding>, tags: seq<Tag>, rows: seq<TagRow>)
    reads nodes
  {
    forall n :: n in nodes ==> n.tags == TagsOf(tags, rows, n.id)
  }

  function EmbeddingKey(e: CodeEmbedding): Option<int> {
    Some(e.id)
  }

  lemma PairedNext(rows: seq<TagRow>, i: nat, node: int, tag: int)
    requires i < |rows|
    ensures Paired(rows[..i + 1], node, tag) <==>
            Paired(rows[..i], node, tag) || (rows[i].node == node && rows[i].tag.id == tag)
  {
    var next := rows[..i + 1];
    assert next[i] == rows[i] && forall j :: 0 <= j < i ==> next[j] == rows[..i][j];
  }

  lemma FirstTagsNext(rows: seq<TagRow>, i: nat)
    requires i < |rows|
    ensures var before := FirstTags(rows[..i]);
            FirstTags(rows[..i + 1]) ==
            if rows[i].tag.id in Keys(before, TagKey) then before else before + [rows[i].tag]
  {
    assert rows[..i + 1][..i] == rows[..i];
  }

  lemma KeysAppend<N>(ns: seq<N>, key: N -> Option<int>, n: N)
    ensures Keys(ns + [n], key) == Keys(ns, key) + if key(n).Some? then {key(n).value} else {}
  {
    KeysNext(ns + [n], key, |ns|);
    assert (ns + [n])[..|ns|] == ns && (ns + [n])[..|ns| + 1] == ns + [n];
  }

  function WithPair(nids: map<int, set<CodeEmbedding>>, tag: int, n: CodeEmbedding): map<int, set<CodeEmbedding>> {
    nids[tag := if tag in nids then nids[tag] + {n} else {n}]
  }

  lemma SeenTagsNext(rows: seq<TagRow>, i: nat)
    requires i < |rows|
    ensures Keys(FirstTags(rows[..i + 1]), TagKey) == Keys(FirstTags(rows[..i]), TagKey) + {rows[i].tag.id}
  {
    FirstTagsNext(rows, i);
    KeysAppend(FirstTags(rows[..i]), TagKey, rows[i].tag);
  }

  lemma PairsUpNext(nids: map<int, set<CodeEmbedding>>, nodes: seq<CodeEmbedding>, rows: seq<TagRow>, i: nat,
                    n: CodeEmbedding)
    requires i < |rows| && n in nodes && n.id == rows[i].node && Distinct(nodes, EmbeddingKey)
    requires PairsUp(nids, nodes, rows[..i])
    ensures PairsUp(WithPair(nids, rows[i].tag.id, n), nodes, rows[..i + 1])
  {
    var tag := rows[i].tag.id;
    var nids' := WithPair(nids, tag, n);
    SeenTagsNext(rows, i);
    forall t, m | t in nids' && m in nids'[t]
      ensures m in nodes && Paired(rows[..i + 1], m.id, t)
    {
      PairedNext(rows, i, m.id, t);
    }
    forall t, m | t in nids' && m in nodes && Paired(rows[..i + 1], m.id, t)
      ensures m in nids'[t]
    {
      PairedIsKept(nids, nodes, rows, i, n, t, m);
    }
  }

  lemma PairedIsKept(nids: map<int, set<CodeEmbedding>>, nodes: seq<CodeEmbedding>, rows: seq<TagRow>, i: nat,
                     n: CodeEmbedding, t: int, m: CodeEmbedding)
    requires i < |rows| && n in nodes && n.id == rows[i].node && Distinct(nodes, EmbeddingKey)
    requires PairsUp(nids, nodes, rows[..i])
    requires m in nodes && Paired(rows[..i + 1], m.id, t)
    ensures var nids' := WithPair(nids, rows[i].tag.id, n);
            t in nids' && m in nids'[t]
  {
    PairedNext(rows, i, m.id, t);
    if Paired(rows[..i], m.id, t) {
      PairedTagIsFirst(rows[..i], m.id, t);
    } else {
      SameKeySameNode(nodes, EmbeddingKey, m, n);
    }
  }

  lemma SameKeySameNode<N>(nodes: seq<N>, key: N -> Option<int>, m: N, n: N)
    requires Distinct(nodes, key) && m in nodes && n in nodes && key(m) == key(n)
    ensures m == n
  {
    var i :| 0 <= i < |nodes| && nodes[i] == m;
    var j :| 0 <= j < |nodes| && nodes[j] == n;
    assert !(i < j) && !(j < i);
  }

  lemma {:induction false} PairedTagIsFirst(rows: seq<TagRow>, node: int, tag: int)
    ensures Paired(rows, node, tag) ==> tag in Keys(FirstTags(rows), TagKey)
  {
    if rows != [] {
      var i := |rows| - 1;
      PairedTagIsFirst(rows[..i], node, tag);
      PairedNext(rows, i, node, tag);
      KeysAppend(FirstTags(rows[..i]), TagKey, rows[i].tag);
      assert rows[..i + 1] == rows;
    }
  }

  /** Reads the rows once: notes which node each row pairs with which tag and keeps each tag at its
      first row.  Interceptors may then change the list of tags.  Finally each remaining tag is
      appended to the nodes paired with it, in whatever order the map gives them. */
  method LoadTags(nodes: seq<CodeEmbedding>, rows: seq<TagRow>, intercept: seq<Tag> -> seq<Tag>) returns (ok: bool)
    requires Distinct(nodes, EmbeddingKey)
    requires forall i :: 0 <= i < |rows| ==> rows[i].node in Keys(nodes, EmbeddingKey)
    modifies nodes`tags
    ensures var tags := intercept(FirstTags(rows));
            var joined := KnownPrefix(tags, TagKey, Keys(FirstTags(rows), TagKey));
            (ok <==> joined == tags) && TagsJoined(nodes, joined, rows)
  {
    var byID: map<int, CodeEmbedding> := map[];
    for i := 0 to |nodes|
      invariant Indexes(byID, nodes[..i], EmbeddingKey)
      invariant forall j :: 0 <= j < i ==> nodes[j].tags == []
    {
      IndexesNext(byID, nodes, EmbeddingKey, i);
      byID := byID[nodes[i].id := nodes[i]];
      nodes[i].tags := [];
    }
    assert nodes[..|nodes|] == nodes;
    var neighbors, nids := ScanRows(nodes, byID, rows);
    ok := AssignTags(nodes, nids, rows, intercept(neighbors));
  }

  method ScanRows(nodes: seq<CodeEmbedding>, byID: map<int, CodeEmbedding>, rows: seq<TagRow>)
    returns (neighbors: seq<Tag>, nids: map<int, set<CodeEmbedding>>)
    requires Distinct(nodes, EmbeddingKey) && Indexes(byID, nodes, EmbeddingKey)
    requires forall i :: 0 <= i < |rows| ==> rows[i].node in byID
    ensures neighbors == FirstTags(rows) && PairsUp(nids, nodes, rows)
  {
    neighbors, nids := [], map[];
    for i := 0 to |rows|
      invariant neighbors == FirstTags(rows[..i])
      invariant PairsUp(nids, nodes, rows[..i])
    {
      var node, inValue := byID[rows[i].node], rows[i].tag.id;
      ghost var next := WithPair(nids, inValue, node);
      assert PairsUp(next, nodes, rows[..i + 1]) by {
        PairsUpNext(nids, nodes, rows, i, node);
      }
      FirstTagsNext(rows, i);
      if inValue !in nids {
        nids := nids[inValue := {node}];
        neighbors := neighbors + [rows[i].tag];
      } else {
        nids := nids[inValue := nids[inValue] + {node}];
      }
      assert nids == next;
    }
    assert rows[..|rows|] == rows;
  }

  method AssignTags(nodes: seq<CodeEmbedding>, nids: map<int, set<CodeEmbedding>>, ghost rows: seq<TagRow>,
                    tags: seq<Tag>)
    returns (ok: bool)
    requires PairsUp(nids, nodes, rows) && TagsJoined(nodes, [], rows)
    modifies nodes`tags
    ensures var joined := KnownPrefix(tags, TagKey, nids.Keys);
            (ok <==> joined == tags) && TagsJoined(nodes, joined, rows)
  {
    for k := 0 to |tags|
      invariant StartsKnown(tags, TagKey, nids.Keys, k)
      invariant TagsJoined(nodes, tags[..k], rows)
    {
      if tags[k].id !in nids {
        KnownPrefixIs(tags, TagKey, nids.Keys, k);
        return false;
      }
      StartsKnownNext(tags, TagKey, nids.Keys, k);
      AssignTag(nodes, nids, rows, tags, k);
    }
    KnownPrefixIs(tags, TagKey, nids.Keys, |tags|);
    assert tags[..|tags|] == tags;
    ok := true;
  }

  /** Appends tag `k` to every node paired with it, in any order. */
  method AssignTag(nodes: seq<CodeEmbedding>, nids: map<int, set<CodeEmbedding>>, ghost rows: seq<TagRow>,
                   tags: seq<Tag>, k: nat)
    requires k < |tags| && tags[k].id in nids && PairsUp(nids, nodes, rows)
    requires TagsJoined(nodes, tags[..k], rows)
    modifies nodes`tags
    ensures TagsJoined(nodes, tags[..k + 1], rows)
  {
    var paired := nids[tags[k].id];
    var rest := paired;
    while rest != {}
      invariant rest <= paired
      invariant forall n :: n in nodes ==> n.tags == old(n.tags) + if n in paired && n !in rest then [tags[k]] else []
      decreases |rest|
    {
      var kn :| kn in rest;
      kn.tags := kn.tags + [tags[k]];
      rest := rest - {kn};
    }
    assert tags[..k + 1][..k] == tags[..k];
    forall n | n in nodes
      ensures n in paired <==> Paired(rows, n.id, tags[k].id)
    {}
  }
}
