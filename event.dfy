/**
 * The application event queue of event/event.c: a ring buffer of
 * EVENT_QUEUE_SIZE + 1 slots created with overwrite on, so it holds the
 * EVENT_QUEUE_SIZE newest events and a put never fails.
 */
module EventQueue {
  import Ring

  const EVENT_QUEUE_SIZE: nat := 15

  /** sizeof(Event_t) on the 32-bit target: an enum and a pointer. */
  const EVENT_SIZE: nat := 8

  datatype EventType =
    | None
    | AccelIdReady
    | AccelConfigReady
    | AccelVectorReady
    | ButtonPressed
    | TimerTick
    | EspNext
    | EspLedOn
    | EspLedOff

  /** An event; `context` stands for the opaque pointer the poster attaches. */
  datatype Event = Event(kind: EventType, context: nat)

  class EventQueue {
    /** m_eventQueue, whose storage is m_events. */
    var queue: Ring.Buffer<Event>

    ghost predicate Valid()
      reads this, queue
    {
      queue.Valid() && queue.overwrite && queue.data.Length == EVENT_QUEUE_SIZE + 1 &&
      queue.typeSize == EVENT_SIZE
    }

    /** The queued events, oldest first. */
    ghost function Events(): seq<Event>
      reads this, queue, queue.data
      requires Valid()
    {
      queue.Contents()
    }

    /** EventQueueInit. */
    constructor Init()
      ensures Valid() && fresh(queue) && fresh(queue.data) && Events() == []
    {
      var events := new Event[EVENT_QUEUE_SIZE + 1];
      queue := new Ring.Buffer(events, (EVENT_QUEUE_SIZE + 1) * EVENT_SIZE, EVENT_SIZE, true);
    }

    /** EventQueue_Enqueue: always accepted; once 15 events wait, the oldest is dropped. */
    method Enqueue(e: Event) returns (ok: bool)
      requires Valid()
      modifies queue, queue.data
      ensures Valid() && ok
      ensures Events() == Ring.Newest(old(Events()) + [e], EVENT_QUEUE_SIZE)
    {
      ok := queue.Put(e);
      Ring.OverwriteOne(old(Events()), EVENT_QUEUE_SIZE, e);
    }

    /** EventQueue_Dequeue: the oldest event, or false when none waits. */
    method Dequeue(dest: Event) returns (ok: bool, e: Event)
      requires Valid()
      modifies queue
      ensures Valid()
      ensures ok <==> old(Events()) != []
      ensures ok ==> e == old(Events())[0] && Events() == old(Events())[1..]
      ensures !ok ==> e == dest && Events() == old(Events())
    {
      ok, e := queue.Get(dest);
    }
  }

  /**
   * Posting any sequence of events to a queue that starts empty leaves
   * exactly the 15 newest of them, oldest first.
   */
  lemma {:induction false} KeepsNewest(posted: seq<Event>)
    ensures Ring.EnqueueAll([], EVENT_QUEUE_SIZE, true, posted) == Ring.Newest(posted, EVENT_QUEUE_SIZE)
  {
    Ring.EnqueueAllOverwrite([], EVENT_QUEUE_SIZE, posted);
    assert [] + posted == posted;
  }
}
