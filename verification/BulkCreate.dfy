/** Saving many embeddings in one batch: a chain of mutators, each calling the next, the last one
    doing the single write.  Hooks change the mutation in place before they pass it on. */
module BulkCreate {
  import opened Wrappers

  type Time = int

  datatype Error =
    | HookError(message: string)
    | ValidationError(field: string)
    | WriteError(constraint: bool, message: string)
    | BuilderError(message: string)

  /** The pending changes of one builder; absent fields are None. */
  datatype Mutation = Mutation(
    id: Option<int>,
    vector: Option<seq<real>>,
    metadata: Option<map<string, string>>,
    createdAt: Option<Time>,
    ingestion: Option<int>,
    tags: set<int>,
    done: bool)

  /** The row to insert and its edges. */
  datatype Spec = Spec(
    id: Option<int>,
    vector: Option<seq<real>>,
    metadata: Option<map<string, string>>,
    createdAt: Option<Time>,
    ingestion: Option<int>,
    tags: set<int>)

  /** The entity handed back; zero values stand for what was not set. */
  datatype Node = Node(id: int, vector: seq<real>, metadata: map<string, string>, createdAt: Time, ingestionId: int)

  /** What a hook leaves: the mutation as far as it changed it, and its error if it stops there. */
  datatype Outcome = Outcome(mutation: Mutation, error: Option<Error>)

  type Hook = Mutation -> Outcome

  /** What the database answers to the batch write: new ids by position, or an error. */
  datatype Answer = Written(ids: nat -> int) | Rejected(constraint: bool, message: string)

  function Or<T>(o: Option<T>, zero: T): T {
    match o case Some(v) => v case None => zero
  }

  function Defaults(m: Mutation, now: Time): Mutation {
    if m.createdAt.None? then m.(createdAt := Some(now)) else m
  }

  function Check(m: Mutation): Option<Error> {
    if m.createdAt.None? then Some(ValidationError("created_at")) else None
  }

  function SpecOf(m: Mutation): Spec {
    Spec(m.id, m.vector, m.metadata, m.createdAt, m.ingestion, m.tags)
  }

  function NodeOf(m: Mutation): Node {
    Node(Or(m.id, 0), Or(m.vector, []), Or(m.metadata, map[]), Or(m.createdAt, 0), Or(m.ingestion, 0))
  }

  /** Running hooks in order until one fails; what they changed so far stays. */
  function RunHooks(hooks: seq<Hook>, m: Mutation): Outcome {
    if hooks == [] then Outcome(m, None)
    else
      var o := hooks[0](m);
      if o.error.Some? then o else RunHooks(hooks[1..], o.mutation)
  }

  /** A builder's mutation after its hooks and its check. */
  function Prepared(hooks: seq<Hook>, m: Mutation): Outcome {
    var o := RunHooks(hooks, m);
    if o.error.Some? then o else Outcome(o.mutation, Check(o.mutation))
  }

  class Builder {
    const hooks: seq<Hook>
    var mutation: Mutation

    constructor (hooks: seq<Hook>, mutation: Mutation)
      ensures this.hooks == hooks && this.mutation == mutation
    {
      this.hooks, this.mutation := hooks, mutation;
    }

    /** Runs the hooks around the check.  A failure leaves what the hooks changed before it. */
    method Prepare() returns (err: Option<Error>)
      modifies this
      ensures Outcome(mutation, err) == Prepared(hooks, old(mutation))
    {
      var chain := WrapHooks(hooks);
      var hooked := chain(mutation);
      mutation := hooked.mutation;
      if hooked.error.Some? {
        return hooked.error;
      }
      err := Check(mutation);
    }
  }

  class Database {
    var attempts: seq<seq<Spec>>
    const answer: Answer

    constructor (answer: Answer)
      ensures attempts == [] && this.answer == answer
    {
      attempts, this.answer := [], answer;
    }

    /** The batch write.  On success each spec has an id: its own or a new one. */
    method BatchCreate(specs: array<Spec>) returns (err: Option<Error>)
      modifies this, specs
      ensures attempts == old(attempts) + [old(specs[..])]
      ensures err == match answer case Written(_) => None case Rejected(c, msg) => Some(WriteError(c, msg))
      ensures forall k :: 0 <= k < specs.Length ==>
                specs[k] == if answer.Written? then WithId(old(specs[k]), answer.ids(k)) else old(specs[k])
    {
      attempts := attempts + [specs[..]];
      if answer.Rejected? {
        return Some(WriteError(answer.constraint, answer.message));
      }
      for k := 0 to specs.Length
        invariant attempts == old(attempts) + [old(specs[..])]
        invariant forall j :: 0 <= j < k ==> specs[j] == WithId(old(specs[j]), answer.ids(j))
        invariant forall j :: k <= j < specs.Length ==> specs[j] == old(specs[j])
      {
        specs[k] := WithId(specs[k], answer.ids(k));
      }
      err := None;
    }
  }

  function WithId(s: Spec, newId: int): Spec {
    if s.id.Some? then s else s.(id := Some(newId))
  }

  // ---------------------------------------------------------------- wrapping hooks

  /** One hook around the rest of a chain. */
  function Around(hook: Hook, next: Hook): Hook {
    m => var o := hook(m); if o.error.Some? then o else next(o.mutation)
  }

  /** Hooks are wrapped from the last to the first, so they run from the first to the last. */
  method WrapHooks(hooks: seq<Hook>) returns (chain: Hook)
    ensures forall m :: chain(m) == RunHooks(hooks, m)
  {
    chain := m => Outcome(m, None);
    var i := |hooks|;
    while i > 0
      invariant 0 <= i <= |hooks|
      invariant forall m :: chain(m) == RunHooks(hooks[i..], m)
    {
      i := i - 1;
      assert hooks[i..][1..] == hooks[i + 1..];
      chain := Around(hooks[i], chain);
    }
  }

  // ---------------------------------------------------------------- the chain

  /** The private flag that marks a saved mutation is out of reach of hooks. */
  ghost predicate KeepsDone(hook: Hook) {
    forall m :: hook(m).mutation.done == m.done
  }

  ghost predicate Disjoint(builders: seq<Builder>) {
    forall i, j :: 0 <= i < j < |builders| ==> builders[i] != builders[j]
  }

  /** Each builder's outcome before the write, from its mutation with defaults filled in. */
  ghost function Preparations(builders: seq<Builder>, now: nat -> Time): (preps: seq<Outcome>)
    reads builders
    ensures |preps| == |builders|
    ensures forall k :: 0 <= k < |builders| ==>
              preps[k] == Prepared(builders[k].hooks, Defaults(builders[k].mutation, now(k)))
  {
    seq(|builders|, k requires 0 <= k < |builders| reads builders =>
      Prepared(builders[k].hooks, Defaults(builders[k].mutation, now(k))))
  }

  /** The position of the first builder whose hooks or check fail, or the number of builders. */
  function FirstFailure(preps: seq<Outcome>): (f: nat)
    ensures f <= |preps|
    ensures forall k :: 0 <= k < f ==> preps[k].error.None?
    ensures f < |preps| ==> preps[f].error.Some?
  {
    if preps == [] || preps[0].error.Some? then 0 else 1 + FirstFailure(preps[1..])
  }

  function SpecsOf(preps: seq<Outcome>): (specs: seq<Spec>)
    requires forall k :: 0 <= k < |preps| ==> preps[k].error.None?
    ensures |specs| == |preps|
  {
    seq(|preps|, k requires 0 <= k < |preps| => SpecOf(preps[k].mutation))
  }

  /** The entity after the write: a zero id is replaced by the one in the row. */
  function SavedNode(m: Mutation, newId: int): Node {
    var node := NodeOf(m);
    if node.id == 0 then node.(id := WithId(SpecOf(m), newId).id.value) else node
  }

  /** The entity agrees with the row that was written, whose creation time is always there. */
  predicate IsRow(n: Node, s: Spec) {
    && s.id == Some(n.id)
    && s.createdAt == Some(n.createdAt)
    && n.vector == Or(s.vector, []) && n.metadata == Or(s.metadata, map[]) && n.ingestionId == Or(s.ingestion, 0)
  }

  function SavedMutation(m: Mutation, newId: int): Mutation {
    m.(id := Some(SavedNode(m, newId).id), done := true)
  }

  /** How the whole save ends. */
  function Verdict(preps: seq<Outcome>, answer: Answer): Option<Error> {
    var f := FirstFailure(preps);
    if f < |preps| then preps[f].error
    else match answer case Written(_) => None case Rejected(c, msg) => Some(WriteError(c, msg))
  }

  /** A row carries every field and every edge of a mutation. */
  predicate Carries(s: Spec, m: Mutation) {
    && s.id == m.id && s.vector == m.vector && s.metadata == m.metadata && s.createdAt == m.createdAt
    && s.ingestion == m.ingestion && s.tags == m.tags
  }

  lemma FirstFailureAt(preps: seq<Outcome>, f: nat)
    requires f < |preps| && preps[f].error.Some? && forall k :: 0 <= k < f ==> preps[k].error.None?
    ensures FirstFailure(preps) == f
  {}

  /** Mutator `i` of the chain: its hooks, its check, its spec, then the next mutator or the write;
      ids and flags are set only on the way back from a success. */
  method Mutate(builders: seq<Builder>, i: nat, specs: array<Spec>, nodes: array<Node>, db: Database,
                ghost preps: seq<Outcome>)
    returns (err: Option<Error>)
    requires i < |builders| == specs.Length == nodes.Length == |preps| && Disjoint(builders)
    requires forall k :: i <= k < |builders| ==> preps[k] == Prepared(builders[k].hooks, builders[k].mutation)
    requires forall k :: 0 <= k < i ==> preps[k].error.None? && specs[k] == SpecOf(preps[k].mutation)
    modifies builders[i..], specs, nodes, db
    ensures err == Verdict(preps, db.answer)
    ensures FirstFailure(preps) < |preps| ==> db.attempts == old(db.attempts)
    ensures FirstFailure(preps) == |preps| ==> db.attempts == old(db.attempts) + [SpecsOf(preps)]
    ensures err.Some? ==> forall k :: i <= k < |builders| ==>
              builders[k].mutation == if k <= FirstFailure(preps) then preps[k].mutation else old(builders[k].mutation)
    ensures err.None? ==> forall k :: i <= k < |builders| ==>
              && nodes[k] == SavedNode(preps[k].mutation, db.answer.ids(k))
              && builders[k].mutation == SavedMutation(preps[k].mutation, db.answer.ids(k))
    ensures err.None? ==> forall k :: 0 <= k < |builders| ==>
              specs[k] == WithId(SpecOf(preps[k].mutation), db.answer.ids(k))
    ensures forall k :: 0 <= k < i ==> nodes[k] == old(nodes[k])
    decreases |builders| - i
  {
    var builder := builders[i];
    err := builder.Prepare();
    if err.Some? {
      FirstFailureAt(preps, i);
      return;
    }
    var mutation := builder.mutation;
    nodes[i], specs[i] := NodeOf(mutation), SpecOf(mutation);
    if i < |builders| - 1 {
      err := Mutate(builders, i + 1, specs, nodes, db, preps);
    } else {
      assert specs[..] == SpecsOf(preps);
      err := db.BatchCreate(specs);
    }
    if err.None? {
      MarkSaved(builder, i, specs, nodes, mutation, db.answer.ids(i));
    }
  }

  /** On the way back: the entity takes the row's id if it has none, and the mutation is done. */
  method MarkSaved(builder: Builder, i: nat, specs: array<Spec>, nodes: array<Node>, m: Mutation, ghost newId: int)
    requires i < specs.Length == nodes.Length
    requires nodes[i] == NodeOf(m) && specs[i] == WithId(SpecOf(m), newId)
    modifies builder, nodes
    ensures nodes[i] == SavedNode(m, newId) && builder.mutation == SavedMutation(m, newId)
    ensures forall k :: 0 <= k < nodes.Length && k != i ==> nodes[k] == old(nodes[k])
  {
    if specs[i].id.Some? && nodes[i].id == 0 {
      nodes[i] := nodes[i].(id := specs[i].id.value);
    }
    builder.mutation := m.(id := Some(nodes[i].id), done := true);
  }

  lemma {:induction false} HooksKeepDone(hooks: seq<Hook>, m: Mutation)
    requires forall h :: h in hooks ==> KeepsDone(h)
    ensures RunHooks(hooks, m).mutation.done == m.done
  {
    if hooks != [] {
      assert hooks[0] in hooks;
      HooksKeepDone(hooks[1..], hooks[0](m).mutation);
    }
  }

  /** What a successful save makes of a builder that passed: the entity and the row agree, keep every
      field that was set, and have the mutation's id or the new one; the mutation is done. */
  lemma SavedMeans(hooks: seq<Hook>, m: Mutation, newId: int)
    requires Prepared(hooks, m).error.None?
    ensures var p := Prepared(hooks, m).mutation;
            var node, row, saved := SavedNode(p, newId), WithId(SpecOf(p), newId), SavedMutation(p, newId);
            && IsRow(node, row) && Carries(row, saved.(id := row.id))
            && node.id == (if p.id == None then newId else p.id.value)
            && node.vector == (if p.vector == None then [] else p.vector.value)
            && node.metadata == (if p.metadata == None then map[] else p.metadata.value)
            && node.ingestionId == (if p.ingestion == None then 0 else p.ingestion.value)
            && Some(node.createdAt) == p.createdAt
            && saved == p.(id := Some(node.id), done := true)
  {}

  /** Hooks run from the first to the last on one mutation, and the first error ends them. */
  lemma {:induction false} HooksCompose(first: seq<Hook>, second: seq<Hook>, m: Mutation)
    ensures var o := RunHooks(first, m);
            RunHooks(first + second, m) == if o.error.Some? then o else RunHooks(second, o.mutation)
    ensures forall h: Hook :: RunHooks([h], m) == h(m)
  {
    if first == [] {
      assert first + second == second;
    } else {
      assert (first + second)[1..] == first[1..] + second;
      HooksCompose(first[1..], second, first[0](m).mutation);
    }
    forall h: Hook
      ensures RunHooks([h], m) == h(m)
    {
      var o := RunHooks([h][1..], h(m).mutation);
    }
  }

  /** A builder without hooks passes with a creation time filled in unless it was given; with hooks it
      fails with the error of a hook, or for lack of a creation time after them. */
  lemma PreparedMeans(hooks: seq<Hook>, m: Mutation, now: Time)
    ensures var given := Defaults(m, now);
            var o, hooked := Prepared(hooks, given), RunHooks(hooks, given);
            && given == m.(createdAt := Some(if m.createdAt == None then now else m.createdAt.value))
            && (hooks == [] ==> o == Outcome(given, None))
            && o.mutation == hooked.mutation
            && (o.error == None <==> hooked.error == None && hooked.mutation.createdAt != None)
            && (hooked.error != None ==> o.error == hooked.error)
            && (hooked.error == None && o.error != None ==> o.error == Some(ValidationError("created_at")))
  {}

  /** The save succeeds exactly when every builder passes and the database takes the rows; otherwise
      its error is that of the first builder that fails, or the database's own. */
  lemma VerdictIff(preps: seq<Outcome>, answer: Answer)
    ensures Verdict(preps, answer) == None <==>
            answer.Written? && forall k :: 0 <= k < |preps| ==> preps[k].error == None
    ensures forall f :: 0 <= f < |preps| && preps[f].error != None &&
                        (forall k :: 0 <= k < f ==> preps[k].error == None) ==>
              Verdict(preps, answer) == preps[f].error
    ensures answer.Rejected? && (forall k :: 0 <= k < |preps| ==> preps[k].error == None) ==>
              Verdict(preps, answer) == Some(WriteError(answer.constraint, answer.message))
  {
    forall f: nat | f < |preps| && preps[f].error != None && (forall k :: 0 <= k < f ==> preps[k].error == None)
      ensures Verdict(preps, answer) == preps[f].error
    {
      FirstFailureAt(preps, f);
    }
  }

  lemma PreparationsKeepDone(builders: seq<Builder>, now: nat -> Time)
    requires forall k, h :: 0 <= k < |builders| && h in builders[k].hooks ==> KeepsDone(h)
    ensures forall k :: 0 <= k < |builders| ==>
              Preparations(builders, now)[k].mutation.done == builders[k].mutation.done
  {
    forall k | 0 <= k < |builders|
      ensures var prep := Prepared(builders[k].hooks, Defaults(builders[k].mutation, now(k)));
              prep.mutation.done == builders[k].mutation.done
    {
      HooksKeepDone(builders[k].hooks, Defaults(builders[k].mutation, now(k)));
    }
  }

  /** All or nothing.  The write is attempted at most once, exactly when every builder passed its
      hooks and its check, with every row in order; the save succeeds exactly when that write does,
      and only then are the mutations marked done and the nodes handed back. */
  method Save(builders: seq<Builder>, broken: Option<string>, now: nat -> Time, db: Database)
    returns (r: Result<seq<Node>, Error>)
    requires Disjoint(builders)
    requires forall k, h :: 0 <= k < |builders| && h in builders[k].hooks ==> KeepsDone(h)
    modifies builders, db
    ensures broken.Some? ==> r == Failure(BuilderError(broken.value)) && unchanged(builders) && unchanged(db)
    ensures broken.None? && builders == [] ==> r == Success([]) && unchanged(db)
    ensures broken.None? && builders != [] ==>
              var preps := old(Preparations(builders, now));
              && (match Verdict(preps, db.answer) case Some(e) => r == Failure(e) case None => r.Success?)
              && db.attempts == old(db.attempts) + if FirstFailure(preps) == |preps| then [SpecsOf(preps)] else []
    ensures broken.None? && |db.attempts| > |old(db.attempts)| ==>
              var preps, rows := old(Preparations(builders, now)), db.attempts[|old(db.attempts)|];
              |rows| == |builders| && forall k :: 0 <= k < |rows| ==> Carries(rows[k], preps[k].mutation)
    ensures r.Failure? ==> forall k :: 0 <= k < |builders| ==>
              builders[k].mutation.done == old(builders[k].mutation.done)
    ensures broken.None? && r.Failure? ==>
              var preps := old(Preparations(builders, now));
              forall k :: 0 <= k < |builders| ==>
                builders[k].mutation ==
                if k <= FirstFailure(preps) then preps[k].mutation else Defaults(old(builders[k].mutation), now(k))
    ensures r.Success? ==>
              var preps := old(Preparations(builders, now));
              && |r.value| == |builders|
              && forall k :: 0 <= k < |builders| ==>
                   && preps[k].error.None? && db.answer.Written?
                   && IsRow(r.value[k], WithId(SpecOf(preps[k].mutation), db.answer.ids(k)))
                   && r.value[k] == SavedNode(preps[k].mutation, db.answer.ids(k))
                   && builders[k].mutation == SavedMutation(preps[k].mutation, db.answer.ids(k))
  {
    if broken.Some? {
      return Failure(BuilderError(broken.value));
    }
    ghost var preps := Preparations(builders, now);
    PreparationsKeepDone(builders, now);
    FillDefaults(builders, now);
    if |builders| == 0 {
      return Success([]);
    }
    var specs := new Spec[|builders|](_ => Spec(None, None, None, None, None, {}));
    var nodes := new Node[|builders|](_ => Node(0, [], map[], 0, 0));
    var err := Mutate(builders, 0, specs, nodes, db, preps);
    if err.Some? {
      return Failure(err.value);
    }
    forall k | 0 <= k < |builders|
      ensures IsRow(nodes[k], WithId(SpecOf(preps[k].mutation), db.answer.ids(k)))
    {
      SavedMeans(builders[k].hooks, Defaults(old(builders[k].mutation), now(k)), db.answer.ids(k));
    }
    r := Success(nodes[..]);
  }

  method FillDefaults(builders: seq<Builder>, now: nat -> Time)
    requires Disjoint(builders)
    modifies builders
    ensures forall k :: 0 <= k < |builders| ==> builders[k].mutation == Defaults(old(builders[k].mutation), now(k))
  {
    for i := 0 to |builders|
      invariant forall k :: 0 <= k < i ==> builders[k].mutation == Defaults(old(builders[k].mutation), now(k))
      invariant forall k :: i <= k < |builders| ==> builders[k].mutation == old(builders[k].mutation)
    {
      builders[i].mutation := Defaults(builders[i].mutation, now(i));
    }
  }
}
