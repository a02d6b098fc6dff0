/** Safety, conservation and termination of the retry protocol over every interleaved run. */
module DeadLetterProperties {
  import opened Wrappers
  import opened Decimal
  import opened DeadLetter

  // ---------------------------------------------------------------- one call

  predicate Declared(call: Call) {
    call.result == SUCCESS || call.result == TRANSIENT || call.result == PERMANENT
  }

  /** A call does exactly one of acknowledging and refusing, and moves exactly one counter,
      exactly when the result is one of the three declared ones; otherwise it does nothing. */
  lemma OneVerdictPerCall(maxRetries: int, w: World, id: MessageId, call: Call)
    requires id in w.pending
    ensures var w' := Handle(maxRetries, w, id, call);
            var verdicts := (|w'.acked| - |w.acked|) + (w'.nacks - w.nacks);
            var bumps := (w'.routed - w.routed) + (w'.retried - w.retried) + (w'.succeeded - w.succeeded);
            && verdicts == bumps == (if Declared(call) then 1 else 0)
            && (Declared(call) <==> 0 <= call.result <= 2)
            && (id !in w'.pending <==> |w'.acked| == |w.acked| + 1)
            && (!Declared(call) ==> w' == w)
  {}

  /** The message as it was published, apart from the broker's redelivery count. */
  predicate SameMessage(m: Message, n: Message) {
    m.topic == n.topic && m.payload == n.payload && m.properties == n.properties
  }

  const HEADERS: set<string> := {ORIGINAL_TOPIC, RETRY_COUNT, FIRST_FAILURE, LAST_ERROR}

  /** A faithful copy: same payload, same properties outside the dead-letter headers, and the
      topic it came from. */
  predicate Faithful(c: Copy, m: Message) {
    && c.payload == m.payload
    && m.properties.Keys <= c.properties.Keys <= m.properties.Keys + HEADERS
    && (forall k :: k in m.properties && k !in HEADERS ==> c.properties[k] == m.properties[k])
    && ORIGINAL_TOPIC in c.properties && c.properties[ORIGINAL_TOPIC] == m.topic
  }

  lemma CopyIsFaithful(m: Message, n: Message, call: Call)
    requires SameMessage(m, n)
    ensures Faithful(CopyOf(m, call), n)
  {}

  /** The message leaves the queue for the dead-letter topic, or is lost when that send fails. */
  ghost predicate Routes(w: World, w': World, id: MessageId, call: Call)
    requires id in w.pending
  {
    && w'.pending == w.pending - {id} && w'.acked == w.acked + [id] && w'.routed == w.routed + 1
    && w'.succeeded == w.succeeded && w'.retried == w.retried && w'.nacks == w.nacks
    && (call.sends ==>
          && w'.origins == w.origins + [id] && w'.lost == w.lost
          && |w'.stored| == |w.stored| + 1 && w.stored <= w'.stored
          && Faithful(w'.stored[|w.stored|], w.pending[id]))
    && (!call.sends ==> w'.lost == w.lost + [id] && w'.origins == w.origins && w'.stored == w.stored)
  }

  /** What each result does.  A success only acknowledges; a permanent failure routes the message; a
      transient one routes it when its retries are used up and else has it delivered once more. */
  lemma ResultDecides(maxRetries: int, w: World, id: MessageId, call: Call)
    requires id in w.pending
    ensures var m, w' := w.pending[id], Handle(maxRetries, w, id, call);
            && (call.result == SUCCESS ==>
                  w' == w.(pending := w.pending - {id}, acked := w.acked + [id], succeeded := w.succeeded + 1))
            && (call.result == PERMANENT ==> Routes(w, w', id, call))
            && (call.result == TRANSIENT && GetRetryCount(m) >= maxRetries ==> Routes(w, w', id, call))
            && (call.result == TRANSIENT && GetRetryCount(m) < maxRetries ==>
                  w' == w.(pending := w.pending[id := m.(redeliveries := m.redeliveries + 1)],
                           nacks := w.nacks + 1, retried := w.retried + 1))
            && (!Declared(call) ==> w' == w)
  {
    CopyIsFaithful(w.pending[id], w.pending[id], call);
  }

  // ---------------------------------------------------------------- runs

  datatype Step = Step(id: MessageId, call: Call)

  /** A run handles pending messages one call at a time, in any order. */
  predicate Possible(maxRetries: int, w: World, run: seq<Step>)
    decreases |run|
  {
    run == [] ||
    (run[0].id in w.pending && Possible(maxRetries, Handle(maxRetries, w, run[0].id, run[0].call), run[1..]))
  }

  function After(maxRetries: int, w: World, run: seq<Step>): World
    requires Possible(maxRetries, w, run)
    decreases |run|
  {
    if run == [] then w else After(maxRetries, Handle(maxRetries, w, run[0].id, run[0].call), run[1..])
  }

  predicate AllDeclared(run: seq<Step>) {
    forall i :: 0 <= i < |run| ==> Declared(run[i].call)
  }

  predicate Fresh(w: World) {
    && w.acked == [] && w.stored == [] && w.origins == [] && w.lost == []
    && w.nacks == w.routed == w.retried == w.succeeded == 0
  }

  // ---------------------------------------------------------------- conservation

  predicate NoRepeats(s: seq<MessageId>) {
    forall i, j :: 0 <= i < j < |s| ==> s[i] != s[j]
  }

  /** Each published message is pending, unchanged, or acknowledged, and never twice. */
  ghost predicate Tracked(w0: map<MessageId, Message>, w: World) {
    && (forall id :: id in w0 <==> id in w.pending || id in w.acked)
    && (forall id :: id in w.pending ==> id !in w.acked && SameMessage(w.pending[id], w0[id]))
    && NoRepeats(w.acked)
  }

  /** The counters agree with the lists they count. */
  ghost predicate Accounted(w: World) {
    && |w.acked| == w.succeeded + w.routed
    && w.routed == |w.stored| + |w.lost|
    && w.retried == w.nacks
    && |w.stored| == |w.origins|
  }

  /** Each dead-lettered message went once to one place, and what is stored is faithful. */
  ghost predicate Copied(w0: map<MessageId, Message>, w: World) {
    && |w.stored| == |w.origins|
    && (forall id :: id in w.origins || id in w.lost ==> id in w.acked)
    && NoRepeats(w.origins + w.lost)
    && (forall i :: 0 <= i < |w.stored| ==> w.origins[i] in w0 && Faithful(w.stored[i], w0[w.origins[i]]))
  }

  ghost predicate Balanced(w0: map<MessageId, Message>, w: World) {
    Tracked(w0, w) && Accounted(w) && Copied(w0, w)
  }

  lemma AppendNoRepeats(a: seq<MessageId>, b: seq<MessageId>, id: MessageId)
    requires NoRepeats(a + b) && id !in a && id !in b
    ensures NoRepeats((a + [id]) + b) && NoRepeats(a + (b + [id]))
  {
    var s := (a + [id]) + b;
    forall i, j | 0 <= i < j < |s|
      ensures s[i] != s[j]
    {
      var i', j' := if i > |a| then i - 1 else i, if j > |a| then j - 1 else j;
      if i != |a| && j != |a| {
        assert (a + b)[i'] == s[i] && (a + b)[j'] == s[j];
      }
    }
    assert a + (b + [id]) == (a + b) + [id];
  }

  lemma CallKeepsTracked(maxRetries: int, w0: map<MessageId, Message>, w: World, id: MessageId, call: Call)
    requires Tracked(w0, w) && id in w.pending
    ensures Tracked(w0, Handle(maxRetries, w, id, call))
  {
    AppendNoRepeats(w.acked, [], id);
    assert w.acked + [] == w.acked && (w.acked + [id]) + [] == w.acked + [id];
  }

  lemma CallKeepsCopied(maxRetries: int, w0: map<MessageId, Message>, w: World, id: MessageId, call: Call)
    requires Tracked(w0, w) && Copied(w0, w) && id in w.pending
    ensures Copied(w0, Handle(maxRetries, w, id, call))
  {
    CopyIsFaithful(w.pending[id], w0[id], call);
    AppendNoRepeats(w.origins, w.lost, id);
  }

  lemma CallKeepsBalance(maxRetries: int, w0: map<MessageId, Message>, w: World, id: MessageId, call: Call)
    requires Balanced(w0, w) && id in w.pending
    ensures Balanced(w0, Handle(maxRetries, w, id, call))
  {
    CallKeepsTracked(maxRetries, w0, w, id, call);
    CallKeepsCopied(maxRetries, w0, w, id, call);
  }

  lemma {:induction false} RunKeepsBalance(maxRetries: int, w0: map<MessageId, Message>, w: World, run: seq<Step>)
    requires Balanced(w0, w) && Possible(maxRetries, w, run)
    ensures Balanced(w0, After(maxRetries, w, run))
    decreases |run|
  {
    if run != [] {
      CallKeepsBalance(maxRetries, w0, w, run[0].id, run[0].call);
      RunKeepsBalance(maxRetries, w0, Handle(maxRetries, w, run[0].id, run[0].call), run[1..]);
    }
  }

  lemma {:induction false} PartitionSize(all: set<MessageId>, pending: set<MessageId>, acked: seq<MessageId>)
    requires NoRepeats(acked)
    requires forall id :: id in all <==> id in pending || id in acked
    requires forall id :: id in pending ==> id !in acked
    ensures |all| == |pending| + |acked|
    decreases |acked|
  {
    if acked == [] {
      assert all == pending;
    } else {
      var init, last := acked[..|acked| - 1], acked[|acked| - 1];
      assert forall id :: id in acked <==> id in init || id == last;
      PartitionSize(all - {last}, pending, init);
    }
  }

  lemma AckedIsTheRest(w0: map<MessageId, Message>, w: World)
    requires Tracked(w0, w)
    ensures |w0| == |w.pending| + |w.acked|
  {
    PartitionSize(w0.Keys, w.pending.Keys, w.acked);
  }

  /** Every message published is pending or acknowledged, once; every acknowledged one succeeded, is
      stored in the dead-letter topic, or was lost to a failed dead-letter send. */
  lemma MessagesAreConserved(maxRetries: int, w: World, run: seq<Step>)
    requires Fresh(w) && Possible(maxRetries, w, run)
    ensures var w' := After(maxRetries, w, run);
            && |w.pending| == |w'.pending| + |w'.acked|
            && |w'.acked| == w'.succeeded + |w'.stored| + |w'.lost|
            && w'.routed == |w'.stored| + |w'.lost|
            && w'.retried == w'.nacks
  {
    RunKeepsBalance(maxRetries, w.pending, w, run);
    AckedIsTheRest(w.pending, After(maxRetries, w, run));
  }

  /** No message is dead-lettered twice, and each stored copy is faithful to its original. */
  lemma DeadLettersAreFaithful(maxRetries: int, w: World, run: seq<Step>)
    requires Fresh(w) && Possible(maxRetries, w, run)
    ensures var w' := After(maxRetries, w, run);
            && |w'.origins| == |w'.stored|
            && NoRepeats(w'.origins + w'.lost)
            && (forall i :: 0 <= i < |w'.stored| ==>
                  w'.origins[i] in w.pending && Faithful(w'.stored[i], w.pending[w'.origins[i]]))
  {
    RunKeepsBalance(maxRetries, w.pending, w, run);
  }

  // ---------------------------------------------------------------- which messages end where

  /** How often a run's steps with the given result handled the message. */
  function Times(run: seq<Step>, id: MessageId, result: int): nat {
    if run == [] then 0
    else (if run[0].id == id && run[0].call.result == result then 1 else 0) + Times(run[1..], id, result)
  }

  function TimesAny(run: seq<Step>, result: int): nat {
    if run == [] then 0 else (if run[0].call.result == result then 1 else 0) + TimesAny(run[1..], result)
  }

  /** The retry count the handler reads after a run: the carried one, or the broker's, which grows by
      one with each transient failure. */
  function RetriesAfter(m: Message, run: seq<Step>, id: MessageId): int {
    match CarriedCount(m)
    case Some(n) => n
    case None => m.redeliveries + Times(run, id, TRANSIENT)
  }

  /** Step `i` fails for good the message that started as `m`. */
  predicate FailsForGood(maxRetries: int, m: Message, run: seq<Step>, i: nat)
    requires i < |run|
  {
    || run[i].call.result == PERMANENT
    || (run[i].call.result == TRANSIENT && RetriesAfter(m, run[..i], run[i].id) >= maxRetries)
  }

  ghost predicate FailedForGood(maxRetries: int, w: World, run: seq<Step>, id: MessageId) {
    id in w.pending && exists i :: 0 <= i < |run| && run[i].id == id && FailsForGood(maxRetries, w.pending[id], run, i)
  }

  ghost predicate Succeeded(w: World, run: seq<Step>, id: MessageId) {
    id in w.pending && exists i :: 0 <= i < |run| && run[i].id == id && run[i].call.result == SUCCESS
  }

  /** A later step of the run is a step of its rest, and its message is still there after the first. */
  lemma FailsShift(maxRetries: int, w: World, run: seq<Step>, i: nat)
    requires run != [] && Possible(maxRetries, w, run) && i < |run| - 1
    ensures var w1, id := Handle(maxRetries, w, run[0].id, run[0].call), run[i + 1].id;
            && id in w.pending && id in w1.pending
            && (FailsForGood(maxRetries, w.pending[id], run, i + 1) <==>
                FailsForGood(maxRetries, w1.pending[id], run[1..], i))
  {
    var rest, w1, id := run[1..], Handle(maxRetries, w, run[0].id, run[0].call), run[i + 1].id;
    assert rest[i].id == id;
    if id !in w1.pending {
      GoneStaysGone(maxRetries, w1, rest, id);
    }
    assert run[..i + 1][0] == run[0] && run[..i + 1][1..] == rest[..i];
  }

  lemma FailedSplit(maxRetries: int, w: World, run: seq<Step>, id: MessageId)
    requires run != [] && Possible(maxRetries, w, run)
    ensures var w1 := Handle(maxRetries, w, run[0].id, run[0].call);
            FailedForGood(maxRetries, w, run, id) <==>
            || (run[0].id == id && FailsForGood(maxRetries, w.pending[id], run, 0))
            || FailedForGood(maxRetries, w1, run[1..], id)
  {
    var rest, w1 := run[1..], Handle(maxRetries, w, run[0].id, run[0].call);
    forall i: nat | i < |rest| && rest[i].id == id
      ensures id in w.pending && id in w1.pending
      ensures FailsForGood(maxRetries, w.pending[id], run, i + 1) <==> FailsForGood(maxRetries, w1.pending[id], rest, i)
    {
      FailsShift(maxRetries, w, run, i);
    }
    if FailedForGood(maxRetries, w1, rest, id) {
      var i :| 0 <= i < |rest| && rest[i].id == id && FailsForGood(maxRetries, w1.pending[id], rest, i);
      assert run[i + 1].id == id && FailsForGood(maxRetries, w.pending[id], run, i + 1);
    }
    assert forall i :: 0 < i < |run| && run[i].id == id ==> rest[i - 1].id == id;
  }

  lemma SucceededSplit(maxRetries: int, w: World, run: seq<Step>, id: MessageId)
    requires run != [] && Possible(maxRetries, w, run)
    ensures var w1 := Handle(maxRetries, w, run[0].id, run[0].call);
            Succeeded(w, run, id) <==>
            (run[0].id == id && run[0].call.result == SUCCESS) || Succeeded(w1, run[1..], id)
  {
    var rest, w1 := run[1..], Handle(maxRetries, w, run[0].id, run[0].call);
    if Succeeded(w1, rest, id) {
      var i :| 0 <= i < |rest| && rest[i].id == id && rest[i].call.result == SUCCESS;
      assert run[i + 1].id == id && run[i + 1].call.result == SUCCESS;
    }
    if Succeeded(w, run, id) {
      var i :| 0 <= i < |run| && run[i].id == id && run[i].call.result == SUCCESS;
      if i > 0 {
        FailsShift(maxRetries, w, run, i - 1);
        assert rest[i - 1] == run[i];
      }
    }
  }

  lemma {:induction false} GoneStaysGone(maxRetries: int, w: World, run: seq<Step>, id: MessageId)
    requires Possible(maxRetries, w, run) && id !in w.pending
    ensures id !in After(maxRetries, w, run).pending
    ensures forall i :: 0 <= i < |run| ==> run[i].id != id
    decreases |run|
  {
    if run != [] {
      GoneStaysGone(maxRetries, Handle(maxRetries, w, run[0].id, run[0].call), run[1..], id);
    }
  }

  /** Over every run, a message is dead-lettered or lost exactly when some step failed it for good, and
      still pending exactly when no step did that or succeeded.  A pending one has been redelivered
      once for each transient failure.  The successes are those of the results. */
  lemma {:induction false} ResultsDecideRuns(maxRetries: int, w: World, run: seq<Step>, id: MessageId)
    requires Possible(maxRetries, w, run)
    ensures var w' := After(maxRetries, w, run);
            && (id in w'.origins + w'.lost <==> id in w.origins + w.lost || FailedForGood(maxRetries, w, run, id))
            && (id in w'.pending <==>
                id in w.pending && !FailedForGood(maxRetries, w, run, id) && !Succeeded(w, run, id))
            && (id in w'.pending ==>
                  var m := w.pending[id];
                  w'.pending[id] == m.(redeliveries := m.redeliveries + Times(run, id, TRANSIENT)))
            && w'.succeeded == w.succeeded + TimesAny(run, SUCCESS)
    decreases |run|
  {
    if run != [] {
      var w1 := Handle(maxRetries, w, run[0].id, run[0].call);
      ResultDecides(maxRetries, w, run[0].id, run[0].call);
      ResultsDecideRuns(maxRetries, w1, run[1..], id);
      FailedSplit(maxRetries, w, run, id);
      SucceededSplit(maxRetries, w, run, id);
    }
  }

  // ---------------------------------------------------------------- how many calls a run can make

  /** The broker's count decides, or the carried count is already exhausted. */
  predicate Exhaustible(maxRetries: int, m: Message) {
    match CarriedCount(m)
    case Some(n) => n >= maxRetries
    case None => true
  }

  /** An upper bound on the calls a message can still take. */
  function CallsLeft(maxRetries: int, m: Message): nat {
    if CarriedCount(m).Some? || m.redeliveries >= maxRetries then 1 else maxRetries + 1 - m.redeliveries
  }

  ghost function Total(maxRetries: int, ms: map<MessageId, Message>): nat
    decreases |ms|
  {
    var ids := ms.Keys;
    if ids == {} then 0
    else
      var id :| id in ids;
      CallsLeft(maxRetries, ms[id]) + Total(maxRetries, ms - {id})
  }

  lemma EitherFirst(ms: map<MessageId, Message>, x: MessageId, y: MessageId)
    ensures ms - {x} - {y} == ms - {y} - {x}
  {}

  lemma {:induction false} TotalSplit(maxRetries: int, ms: map<MessageId, Message>, id: MessageId)
    requires id in ms
    ensures Total(maxRetries, ms) == CallsLeft(maxRetries, ms[id]) + Total(maxRetries, ms - {id})
    decreases |ms|
  {
    var x :| x in ms.Keys && Total(maxRetries, ms) == CallsLeft(maxRetries, ms[x]) + Total(maxRetries, ms - {x});
    if x != id {
      TotalSplit(maxRetries, ms - {x}, id);
      TotalSplit(maxRetries, ms - {id}, x);
      EitherFirst(ms, x, id);
    }
  }

  lemma CallSpendsOne(maxRetries: int, w: World, id: MessageId, call: Call)
    requires id in w.pending && Declared(call)
    requires forall x :: x in w.pending ==> Exhaustible(maxRetries, w.pending[x])
    ensures var w' := Handle(maxRetries, w, id, call);
            && Total(maxRetries, w'.pending) < Total(maxRetries, w.pending)
            && (forall x :: x in w'.pending ==> Exhaustible(maxRetries, w'.pending[x]))
  {
    var w' := Handle(maxRetries, w, id, call);
    TotalSplit(maxRetries, w.pending, id);
    assert w'.pending - {id} == w.pending - {id};
    if id in w'.pending {
      TotalSplit(maxRetries, w'.pending, id);
    } else {
      assert w'.pending == w.pending - {id};
    }
  }

  lemma {:induction false} RunIsBoundedByTotal(maxRetries: int, w: World, run: seq<Step>)
    requires Possible(maxRetries, w, run) && AllDeclared(run)
    requires forall x :: x in w.pending ==> Exhaustible(maxRetries, w.pending[x])
    ensures |run| + Total(maxRetries, After(maxRetries, w, run).pending) <= Total(maxRetries, w.pending)
    decreases |run|
  {
    if run != [] {
      assert Declared(run[0].call);
      CallSpendsOne(maxRetries, w, run[0].id, run[0].call);
      RunIsBoundedByTotal(maxRetries, Handle(maxRetries, w, run[0].id, run[0].call), run[1..]);
    }
  }

  lemma OneMoreTimes(n: nat, c: nat)
    requires n > 0
    ensures n * c == (n - 1) * c + c
  {}

  lemma {:induction false} EqualTotal(maxRetries: int, ms: map<MessageId, Message>, c: nat)
    requires forall id :: id in ms ==> CallsLeft(maxRetries, ms[id]) == c
    ensures Total(maxRetries, ms) == |ms| * c
    decreases |ms|
  {
    var ids := ms.Keys;
    if ids != {} {
      var id :| id in ids;
      TotalSplit(maxRetries, ms, id);
      EqualTotal(maxRetries, ms - {id}, c);
      assert |ms - {id}| == |ms| - 1;
      OneMoreTimes(|ms|, c);
    }
  }

  /** From N fresh messages that carry no count, no run takes more than N * (maxRetries + 1) calls. */
  lemma FreshRunsAreShort(maxRetries: int, w: World, run: seq<Step>)
    requires maxRetries > 0 && Possible(maxRetries, w, run) && AllDeclared(run)
    requires forall id :: id in w.pending ==> CarriedCount(w.pending[id]) == None && w.pending[id].redeliveries == 0
    ensures |run| <= |w.pending| * (maxRetries + 1)
  {
    RunIsBoundedByTotal(maxRetries, w, run);
    EqualTotal(maxRetries, w.pending, maxRetries + 1);
  }

  // ---------------------------------------------------------------- messages that carry a count

  const FAILS := Call(TRANSIENT, None, true, "")

  function AlwaysFails(id: MessageId, n: nat): seq<Step> {
    if n == 0 then [] else [Step(id, FAILS)] + AlwaysFails(id, n - 1)
  }

  /** A carried count that has reached the limit dead-letters the first transient failure, whatever
      the broker has counted. */
  lemma ExhaustedCountDeadLettersAtOnce(maxRetries: int, w: World, id: MessageId, call: Call)
    requires id in w.pending && call.result == TRANSIENT
    requires CarriedCount(w.pending[id]).Some? && CarriedCount(w.pending[id]).value >= maxRetries
    ensures var w' := Handle(maxRetries, w, id, call);
            id !in w'.pending && w'.routed == w.routed + 1 && w'.nacks == w.nacks
  {}

  /** A carried count below the limit is never exhausted: the message can fail any number of times. */
  lemma {:induction false} LowCountNeverExhausts(maxRetries: int, w: World, id: MessageId, n: nat)
    requires id in w.pending && !Exhaustible(maxRetries, w.pending[id])
    ensures Possible(maxRetries, w, AlwaysFails(id, n)) && |AlwaysFails(id, n)| == n && AllDeclared(AlwaysFails(id, n))
    ensures var w' := After(maxRetries, w, AlwaysFails(id, n));
            id in w'.pending && w'.pending[id].redeliveries == w.pending[id].redeliveries + n && w'.acked == w.acked
    decreases n
  {
    if n > 0 {
      var run := AlwaysFails(id, n);
      assert run[1..] == AlwaysFails(id, n - 1);
      LowCountNeverExhausts(maxRetries, Handle(maxRetries, w, id, FAILS), id, n - 1);
    }
  }

  ghost predicate RunsWithin(maxRetries: int, w: World, bound: nat) {
    forall run :: Possible(maxRetries, w, run) && AllDeclared(run) ==> |run| <= bound
  }

  /** Runs from a state have a common bound exactly when no pending message carries a count below
      the limit. */
  lemma RunsAreBoundedIff(maxRetries: int, w: World)
    ensures (exists bound :: RunsWithin(maxRetries, w, bound)) <==>
            (forall id :: id in w.pending ==> Exhaustible(maxRetries, w.pending[id]))
  {
    if forall id :: id in w.pending ==> Exhaustible(maxRetries, w.pending[id]) {
      forall run | Possible(maxRetries, w, run) && AllDeclared(run)
        ensures |run| <= Total(maxRetries, w.pending)
      {
        RunIsBoundedByTotal(maxRetries, w, run);
      }
      assert RunsWithin(maxRetries, w, Total(maxRetries, w.pending));
    } else {
      var id :| id in w.pending && !Exhaustible(maxRetries, w.pending[id]);
      forall bound: nat
        ensures !RunsWithin(maxRetries, w, bound)
      {
        LowCountNeverExhausts(maxRetries, w, id, bound + 1);
      }
    }
  }

  /** The bound is reached: a fresh message without a count takes all its calls before it is
      dead-lettered by the last one. */
  lemma {:induction false} EveryRetryIsUsed(maxRetries: int, w: World, id: MessageId)
    requires id in w.pending && CarriedCount(w.pending[id]) == None && w.pending[id].redeliveries <= maxRetries
    ensures var run := AlwaysFails(id, maxRetries + 1 - w.pending[id].redeliveries);
            && Possible(maxRetries, w, run)
            && id !in After(maxRetries, w, run).pending
            && After(maxRetries, w, run).nacks == w.nacks + |run| - 1
            && After(maxRetries, w, run).routed == w.routed + 1
    decreases maxRetries - w.pending[id].redeliveries
  {
    var m := w.pending[id];
    var run := AlwaysFails(id, maxRetries + 1 - m.redeliveries);
    var w' := Handle(maxRetries, w, id, FAILS);
    assert run[1..] == AlwaysFails(id, maxRetries - m.redeliveries);
    if m.redeliveries < maxRetries {
      EveryRetryIsUsed(maxRetries, w', id);
    } else {
      assert run[1..] == [];
    }
  }

  // ---------------------------------------------------------------- the dead-letter copy

  /** The copy read back as a message keeps the retry count of the original, whatever the broker
      counts on the dead-letter topic. */
  lemma RetryCountSurvivesRouting(m: Message, call: Call, topic: string, redeliveries: nat)
    requires m.redeliveries <= MAX_INT64
    ensures var c := CopyOf(m, call);
            GetRetryCount(Message(topic, c.payload, c.properties, redeliveries)) == GetRetryCount(m)
  {
    AtoiItoa(GetRetryCount(m));
  }

  /** So a message dead-lettered for exhausted retries and replayed from its copy is dead-lettered
      again by its first transient failure, while one dead-lettered earlier is retried for ever. */
  lemma ReplayedCopy(maxRetries: int, m: Message, call: Call, topic: string)
    requires m.redeliveries <= MAX_INT64
    ensures var replay := Message(topic, CopyOf(m, call).payload, CopyOf(m, call).properties, 0);
            Exhaustible(maxRetries, replay) <==> GetRetryCount(m) >= maxRetries
  {
    AtoiItoa(GetRetryCount(m));
  }

  /** The headers of the copy: the topic, the retry count, the time, and the error cut to 500
      characters.  Everything else is untouched, and an older error header survives a call that
      reports none. */
  lemma CopyHeaders(m: Message, call: Call)
    ensures var p := CopyOf(m, call).properties;
            && (forall k :: k !in HEADERS ==> (k in p <==> k in m.properties) && (k in p ==> p[k] == m.properties[k]))
            && HEADERS == {"dlq-original-topic", "dlq-retry-count", "dlq-first-failure", "dlq-last-error"}
            && {"dlq-original-topic", "dlq-retry-count", "dlq-first-failure"} <= p.Keys
            && p["dlq-original-topic"] == m.topic && p["dlq-first-failure"] == call.now
            && (CarriedCount(m).None? ==> p["dlq-retry-count"] == Itoa(m.redeliveries))
            && (CarriedCount(m).Some? ==> p["dlq-retry-count"] == Itoa(CarriedCount(m).value))
            && LAST_ERROR == "dlq-last-error"
            && (call.error.None? ==> (LAST_ERROR in p <==> LAST_ERROR in m.properties)
                                     && (LAST_ERROR in p ==> p[LAST_ERROR] == m.properties[LAST_ERROR]))
            && (call.error.Some? ==> LAST_ERROR in p && p[LAST_ERROR] <= call.error.value
                                     && |p[LAST_ERROR]| ==
                                        if |call.error.value| <= 500 then |call.error.value| else 500)
  {}
}
