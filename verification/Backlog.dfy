/** The poller that keeps the dead-letter depth gauge at the topic's backlog. */
module Backlog {
  import opened Wrappers
  import opened Decimal

  const TWO_64: int := 0x1_0000_0000_0000_0000

  const STATUS_OK := 200

  type Int64 = n: int | MIN_INT64 <= n <= MAX_INT64

  /** Two's-complement wrap-around of 64-bit arithmetic. */
  function Wrap(n: int): (w: Int64)
    ensures (w - n) % 0x1_0000_0000_0000_0000 == 0
    ensures MIN_INT64 <= n <= MAX_INT64 ==> w == n
  {
    (n - MIN_INT64) % TWO_64 + MIN_INT64
  }

  /** The answer to one request: it fails, or has a status and a body; the body either does not
      parse or gives the 64-bit backlog, 0 when the field is missing. */
  datatype Reply = RequestFailed | Response(status: int, backlog: Option<Int64>)

  datatype Event = Tick(reply: Reply) | Stop

  predicate Readable(e: Event) {
    e.Tick? && e.reply.Response? && e.reply.status == STATUS_OK && e.reply.backlog.Some?
  }

  /** The events up to the first stop. */
  function Heard(events: seq<Event>): seq<Event> {
    if events == [] || events[0].Stop? then [] else [events[0]] + Heard(events[1..])
  }

  /** The last backlog read after one more event. */
  function LastReadNext(last: Int64, e: Event): Int64 {
    if Readable(e) then e.reply.backlog.value else last
  }

  /** The last backlog that was read, or 0. */
  function LastRead(events: seq<Event>): Int64 {
    if events == [] then 0 else LastReadNext(LastRead(events[..|events| - 1]), events[|events| - 1])
  }

  lemma SameResidue(a: int, b: int, q: int)
    requires a == b + q * TWO_64
    ensures a % TWO_64 == b % TWO_64
  {
    var a', b' := a / TWO_64, b / TWO_64;
    assert a == a' * TWO_64 + a % TWO_64 && b == b' * TWO_64 + b % TWO_64;
  }

  /** Wrapping an operand of a wrapped sum changes nothing. */
  lemma WrapSum(a: int, b: int)
    ensures Wrap(Wrap(a) + Wrap(b)) == Wrap(a + b)
  {
    var q, r := (a - MIN_INT64) / TWO_64, (b - MIN_INT64) / TWO_64;
    assert Wrap(a) == a - q * TWO_64 && Wrap(b) == b - r * TWO_64;
    SameResidue(a + b - MIN_INT64, Wrap(a) + Wrap(b) - MIN_INT64, q + r);
  }

  lemma HeardPrefix(events: seq<Event>, n: nat)
    requires n <= |events| && forall i :: 0 <= i < n ==> events[i].Tick?
    ensures n == |events| || events[n].Stop? ==> Heard(events) == events[..n]
  {
    if n > 0 {
      HeardPrefix(events[1..], n - 1);
      assert events[..n] == [events[0]] + events[1..][..n - 1];
    }
  }

  /** Tick `i` is a good reading: its request succeeded with status 200 and a body that parses. */
  predicate GoodAt(events: seq<Event>, i: nat, backlog: Int64) {
    i < |events| && events[i] == Tick(Response(200, Some(backlog)))
  }

  lemma {:induction false} LastReadUpTo(events: seq<Event>, n: nat)
    requires n <= |events|
    ensures forall i: nat, b ::
              i < n && GoodAt(events, i, b) && (forall j: nat, c :: i < j < n ==> !GoodAt(events, j, c)) ==>
              LastRead(events[..n]) == b
    ensures (forall i: nat, b :: i < n ==> !GoodAt(events, i, b)) ==> LastRead(events[..n]) == 0
  {
    if n > 0 {
      LastReadUpTo(events, n - 1);
      OneMoreRead(events, n - 1);
      if Readable(events[n - 1]) {
        assert GoodAt(events, n - 1, events[n - 1].reply.backlog.value);
      }
    }
  }

  /** The reading that counts is the last good one among the events before the first stop, and 0 when
      there is none. */
  lemma ReadingIs(events: seq<Event>, n: nat)
    requires n <= |events| && forall i :: 0 <= i < n ==> events[i] != Stop
    requires n < |events| ==> events[n] == Stop
    ensures forall i: nat, b ::
              i < n && GoodAt(events, i, b) && (forall j: nat, c :: i < j < n ==> !GoodAt(events, j, c)) ==>
              LastRead(Heard(events)) == b
    ensures (forall i: nat, b :: i < n ==> !GoodAt(events, i, b)) ==> LastRead(Heard(events)) == 0
  {
    LastReadUpTo(events, n);
    HeardPrefix(events, n);
  }

  class Poller {
    var dlqDepth: Int64

    constructor ()
      ensures dlqDepth == 0
    {
      dlqDepth := 0;
    }

    /** One answer: a good one moves the gauge by the change since the last good one, any other is
        skipped. */
    method Observe(reply: Reply, lastBacklog: Int64, ghost start: Int64) returns (last: Int64)
      requires dlqDepth == Wrap(start + lastBacklog)
      modifies this
      ensures last == LastReadNext(lastBacklog, Tick(reply))
      ensures dlqDepth == Wrap(start + last)
    {
      last := lastBacklog;
      if reply.RequestFailed? || reply.status != STATUS_OK || reply.backlog.None? {
        return;
      }
      var delta := Wrap(reply.backlog.value - lastBacklog);
      DeltaMoves(dlqDepth, start, lastBacklog, reply.backlog.value, delta);
      if delta != 0 {
        dlqDepth := Wrap(dlqDepth + delta);
        last := reply.backlog.value;
      }
    }

    /** Adds the change since the last good reading on each tick, until stopped.  Whatever is
        skipped, the gauge has moved by exactly the last good reading. */
    method PollBacklog(events: seq<Event>)
      modifies this
      ensures dlqDepth == Wrap(old(dlqDepth) + LastRead(Heard(events)))
    {
      ghost var start := dlqDepth;
      var lastBacklog: Int64 := 0;
      var i := 0;
      while i < |events|
        invariant 0 <= i <= |events|
        invariant forall j :: 0 <= j < i ==> events[j].Tick?
        invariant lastBacklog == LastRead(events[..i])
        invariant dlqDepth == Wrap(start + lastBacklog)
      {
        if events[i].Stop? {
          break;
        }
        OneMoreRead(events, i);
        lastBacklog := Observe(events[i].reply, lastBacklog, start);
        i := i + 1;
      }
      HeardPrefix(events, i);
    }
  }

  lemma OneMoreRead(events: seq<Event>, i: nat)
    requires i < |events|
    ensures LastRead(events[..i + 1]) == LastReadNext(LastRead(events[..i]), events[i])
  {
    assert events[..i + 1][..i] == events[..i];
  }

  /** Adding the wrapped change moves the wrapped sum, and no change means the same reading. */
  lemma DeltaMoves(depth: Int64, start: Int64, last: Int64, next: Int64, delta: Int64)
    requires depth == Wrap(start + last) && delta == Wrap(next - last)
    ensures Wrap(depth + delta) == Wrap(start + next)
    ensures delta == 0 ==> next == last
  {
    WrapSum(start + last, next - last);
    if delta == 0 {
      SmallWrap(next - last);
    }
  }

  lemma SmallWrap(n: int)
    requires Wrap(n) == 0 && -TWO_64 < n < TWO_64
    ensures n == 0
  {}
}
