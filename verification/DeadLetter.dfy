/** The consumer-side handler that acknowledges, retries or dead-letters messages. */
module DeadLetter {
  import opened Wrappers
  import opened Decimal

  const DEFAULT_MAX_RETRIES := 3
  const RETRY_COUNT := "dlq-retry-count"
  const ORIGINAL_TOPIC := "dlq-original-topic"
  const FIRST_FAILURE := "dlq-first-failure"
  const LAST_ERROR := "dlq-last-error"
  const ERROR_LIMIT := 500

  const SUCCESS := 0
  const TRANSIENT := 1
  const PERMANENT := 2

  type Properties = map<string, string>
  type Payload = seq<bv8>

  /** The broker's identifier of a message. */
  type MessageId = string

  /** `redeliveries` is the broker's own count of negative acknowledgements. */
  datatype Message = Message(topic: string, payload: Payload, properties: Properties, redeliveries: nat)

  /** What is sent to the dead-letter topic. */
  datatype Copy = Copy(payload: Payload, properties: Properties)

  /** The answers one call gets: the processing result, any integer, and its error; whether the
      dead-letter send succeeds; and the clock. */
  datatype Call = Call(result: int, error: Option<string>, sends: bool, now: string)

  /** The setting read from the environment counts only when it parses and is positive. */
  function MaxRetries(setting: string): (n: int)
    ensures n > 0
    ensures Atoi(setting) == Some(n) || (n == 3 && forall k :: Atoi(setting) == Some(k) ==> k <= 0)
  {
    match Atoi(setting)
    case Some(n) => if n > 0 then n else DEFAULT_MAX_RETRIES
    case None => DEFAULT_MAX_RETRIES
  }

  /** The parsable retry count a message carries, if any. */
  function CarriedCount(m: Message): Option<int> {
    if RETRY_COUNT in m.properties then Atoi(m.properties[RETRY_COUNT]) else None
  }

  /** A carried count overrides the broker's. */
  function GetRetryCount(m: Message): int {
    match CarriedCount(m)
    case Some(n) => n
    case None => m.redeliveries
  }

  function Truncated(error: string): string {
    if |error| > ERROR_LIMIT then error[..ERROR_LIMIT] else error
  }

  /** The dead-letter copy: the original with three headers set, and a fourth on an error. */
  function CopyOf(m: Message, call: Call): Copy {
    var counted := m.properties[ORIGINAL_TOPIC := m.topic][RETRY_COUNT := Itoa(GetRetryCount(m))];
    var stamped := counted[FIRST_FAILURE := call.now];
    Copy(m.payload, if call.error.Some? then stamped[LAST_ERROR := Truncated(call.error.value)] else stamped)
  }

  // ---------------------------------------------------------------- one call as a function

  /** What becomes of a message. */
  datatype Fate = Done | DeadLettered | Retried | Untouched

  function FateOf(maxRetries: int, m: Message, result: int): Fate {
    if result == SUCCESS then Done
    else if result == PERMANENT then DeadLettered
    else if result == TRANSIENT then (if GetRetryCount(m) >= maxRetries then DeadLettered else Retried)
    else Untouched
  }

  /** The broker, the dead-letter topic and the handler's counters.  `origins` lists the message
      behind each stored copy, and `lost` those whose dead-letter send failed. */
  datatype World = World(
    pending: map<MessageId, Message>,
    acked: seq<MessageId>,
    stored: seq<Copy>,
    origins: seq<MessageId>,
    lost: seq<MessageId>,
    nacks: nat,
    routed: nat,
    retried: nat,
    succeeded: nat)

  function Acknowledged(w: World, id: MessageId): World {
    w.(pending := w.pending - {id}, acked := w.acked + [id])
  }

  function Handle(maxRetries: int, w: World, id: MessageId, call: Call): World
    requires id in w.pending
  {
    var m := w.pending[id];
    match FateOf(maxRetries, m, call.result)
    case Done => Acknowledged(w, id).(succeeded := w.succeeded + 1)
    case DeadLettered =>
      var sent := if call.sends then w.(stored := w.stored + [CopyOf(m, call)], origins := w.origins + [id])
                  else w.(lost := w.lost + [id]);
      Acknowledged(sent, id).(routed := w.routed + 1)
    case Retried =>
      w.(pending := w.pending[id := m.(redeliveries := m.redeliveries + 1)],
         nacks := w.nacks + 1, retried := w.retried + 1)
    case Untouched => w
  }

  // ---------------------------------------------------------------- the handler as the services run it

  /** A subscription on a broker that redelivers what is negatively acknowledged. */
  class Consumer {
    var pending: map<MessageId, Message>
    var acked: seq<MessageId>
    var nacks: nat

    constructor (messages: map<MessageId, Message>)
      ensures pending == messages && acked == [] && nacks == 0
    {
      pending, acked, nacks := messages, [], 0;
    }

    method Ack(id: MessageId)
      requires id in pending
      modifies this`pending, this`acked
      ensures pending == old(pending) - {id} && acked == old(acked) + [id]
    {
      pending, acked := pending - {id}, acked + [id];
    }

    method Nack(id: MessageId)
      requires id in pending
      modifies this`pending, this`nacks
      ensures pending == old(pending)[id := old(pending)[id].(redeliveries := old(pending)[id].redeliveries + 1)]
      ensures nacks == old(nacks) + 1
    {
      var m := pending[id];
      pending, nacks := pending[id := m.(redeliveries := m.redeliveries + 1)], nacks + 1;
    }
  }

  /** The dead-letter topic's producer. */
  class Producer {
    var stored: seq<Copy>
    ghost var origins: seq<MessageId>
    ghost var lost: seq<MessageId>

    constructor ()
      ensures stored == [] && origins == [] && lost == []
    {
      stored, origins, lost := [], [], [];
    }

    method Send(copy: Copy, accepted: bool, ghost origin: MessageId) returns (failed: bool)
      modifies this
      ensures failed == !accepted
      ensures stored == if accepted then old(stored) + [copy] else old(stored)
      ensures origins == if accepted then old(origins) + [origin] else old(origins)
      ensures lost == if accepted then old(lost) else old(lost) + [origin]
    {
      if accepted {
        stored, origins := stored + [copy], origins + [origin];
      } else {
        lost := lost + [origin];
      }
      failed := !accepted;
    }
  }

  class Handler {
    const maxRetries: int
    const producer: Producer
    var routed: nat
    var retried: nat
    var succeeded: nat

    constructor (setting: string, p: Producer)
      ensures maxRetries == MaxRetries(setting) && producer == p
      ensures routed == retried == succeeded == 0
    {
      maxRetries, producer := MaxRetries(setting), p;
      routed, retried, succeeded := 0, 0, 0;
    }

    ghost function View(consumer: Consumer): World
      reads this, producer, consumer
    {
      World(consumer.pending, consumer.acked, producer.stored, producer.origins, producer.lost,
            consumer.nacks, routed, retried, succeeded)
    }

    method HandleMessage(consumer: Consumer, id: MessageId, call: Call)
      requires id in consumer.pending
      modifies this, producer, consumer
      ensures View(consumer) == Handle(maxRetries, old(View(consumer)), id, call)
    {
      var msg := consumer.pending[id];
      if call.result == SUCCESS {
        succeeded := succeeded + 1;
        consumer.Ack(id);
      } else if call.result == PERMANENT {
        routed := routed + 1;
        RouteToDLQ(msg, call, id);
        consumer.Ack(id);
      } else if call.result == TRANSIENT {
        if GetRetryCount(msg) >= maxRetries {
          routed := routed + 1;
          RouteToDLQ(msg, call, id);
          consumer.Ack(id);
          return;
        }
        retried := retried + 1;
        consumer.Nack(id);
      }
    }

    /** Copies the properties one by one in any order, sets the headers and sends.  A failed send
        is only logged. */
    method RouteToDLQ(msg: Message, call: Call, ghost origin: MessageId)
      modifies producer
      ensures producer.stored == if call.sends then old(producer.stored) + [CopyOf(msg, call)] else old(producer.stored)
      ensures producer.origins == if call.sends then old(producer.origins) + [origin] else old(producer.origins)
      ensures producer.lost == if call.sends then old(producer.lost) else old(producer.lost) + [origin]
    {
      var props: Properties := map[];
      var rest := msg.properties.Keys;
      while rest != {}
        invariant rest <= msg.properties.Keys
        invariant props.Keys == msg.properties.Keys - rest
        invariant forall k :: k in props ==> props[k] == msg.properties[k]
        decreases |rest|
      {
        var k :| k in rest;
        props := props[k := msg.properties[k]];
        rest := rest - {k};
      }
      assert props == msg.properties;
      props := props[ORIGINAL_TOPIC := msg.topic];
      props := props[RETRY_COUNT := Itoa(GetRetryCount(msg))];
      props := props[FIRST_FAILURE := call.now];
      if call.error.Some? {
        props := props[LAST_ERROR := Truncated(call.error.value)];
      }
      var _ := producer.Send(Copy(msg.payload, props), call.sends, origin);
    }
  }
}
