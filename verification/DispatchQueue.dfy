/**
 * The dispatch queue: a bounded channel with an overflow list, filled without blocking and
 * drained by one consumer (RequestDispatch and nextDispatchInstance).
 */
module DispatchQueue {
  import opened Wrappers

  const CHANNEL_CAPACITY: nat := 100

  /** The single consumer between two steps: about to look at the overflow, or blocked on the channel. */
  datatype Consumer = Looking | Receiving

  datatype Queue<T> = Queue(channel: seq<T>, overflow: seq<T>, consumer: Consumer, accepted: seq<T>, consumed: seq<T>)

  /** The steps other goroutines and the consumer can take, each atomic. */
  datatype QueueEvent<T> =
    | Request(item: T)
    | Look      // take from the overflow, or go and wait on the channel
    | Receive   // the blocked consumer gets the channel's head

  predicate Enabled<T>(q: Queue<T>, e: QueueEvent<T>) {
    match e
    case Request(_) => true
    case Look => q.consumer == Looking
    case Receive => q.consumer == Receiving && q.channel != []
  }

  /** Send if the channel has room, else append to the overflow: never blocks. */
  function Send<T>(q: Queue<T>, item: T): Queue<T> {
    var noted := q.(accepted := q.accepted + [item]);
    if |q.channel| < CHANNEL_CAPACITY then noted.(channel := q.channel + [item])
    else noted.(overflow := q.overflow + [item])
  }

  function Step<T>(q: Queue<T>, e: QueueEvent<T>): Queue<T>
    requires Enabled(q, e)
  {
    match e
    case Request(item) => Send(q, item)
    case Look =>
      if q.overflow != [] then q.(overflow := q.overflow[1..], consumed := q.consumed + [q.overflow[0]])
      else q.(consumer := Receiving)
    case Receive => q.(channel := q.channel[1..], consumed := q.consumed + [q.channel[0]], consumer := Looking)
  }

  /** Nothing lost, channel bounded, and the consumer never sleeps on an empty channel beside a filled overflow. */
  ghost predicate Sound<T>(q: Queue<T>) {
    && multiset(q.accepted) == multiset(q.channel) + multiset(q.overflow) + multiset(q.consumed)
    && |q.channel| <= 100
    && (q.consumer == Receiving && q.overflow != [] ==> q.channel != [])
  }

  lemma SplitHead<T>(s: seq<T>)
    requires s != []
    ensures multiset(s) == multiset{s[0]} + multiset(s[1..])
  {
    assert s == [s[0]] + s[1..];
  }

  lemma SendKeepsSound<T>(q: Queue<T>, item: T)
    requires Sound(q)
    ensures Sound(Send(q, item))
  {
  }

  lemma LookKeepsSound<T>(q: Queue<T>)
    requires Sound(q) && q.consumer == Looking
    ensures Sound(Step(q, Look))
  {
    if q.overflow != [] {
      SplitHead(q.overflow);
    }
  }

  lemma ReceiveKeepsSound<T>(q: Queue<T>)
    requires Sound(q) && q.consumer == Receiving && q.channel != []
    ensures Sound(Step(q, Receive))
  {
    SplitHead(q.channel);
  }

  lemma StepKeepsSound<T>(q: Queue<T>, e: QueueEvent<T>)
    requires Sound(q) && Enabled(q, e)
    ensures Sound(Step(q, e))
  {
    match e
    case Request(item) => SendKeepsSound(q, item);
    case Look => LookKeepsSound(q);
    case Receive => ReceiveKeepsSound(q);
  }

  ghost predicate IsRun<T>(q: Queue<T>, es: seq<QueueEvent<T>>)
    decreases |es|
  {
    es == [] || (Enabled(q, es[0]) && IsRun(Step(q, es[0]), es[1..]))
  }

  ghost function After<T>(q: Queue<T>, es: seq<QueueEvent<T>>): Queue<T>
    requires IsRun(q, es)
    decreases |es|
  {
    if es == [] then q else After(Step(q, es[0]), es[1..])
  }

  /** Over every interleaving of senders and consumer, every accepted item is queued or consumed, exactly once. */
  lemma {:induction false} SoundOverEveryRun<T>(q: Queue<T>, es: seq<QueueEvent<T>>)
    requires Sound(q) && IsRun(q, es)
    ensures Sound(After(q, es))
    decreases |es|
  {
    if es != [] {
      StepKeepsSound(q, es[0]);
      SoundOverEveryRun(Step(q, es[0]), es[1..]);
    }
  }

  /** The consumer's own next step. */
  function ConsumerStep<T>(q: Queue<T>): QueueEvent<T> {
    if q.consumer == Looking then Look else Receive
  }

  /** As long as anything is queued the consumer can move, and at most two of its steps consume an item. */
  lemma NeverStuck<T>(q: Queue<T>)
    requires Sound(q) && q.channel + q.overflow != []
    ensures Enabled(q, ConsumerStep(q))
    ensures var r := Step(q, ConsumerStep(q));
            |r.consumed| > |q.consumed| || (Enabled(r, ConsumerStep(r)) && |Step(r, ConsumerStep(r)).consumed| > |q.consumed|)
  {
  }

  /** Items consumed while the overflow is in use can overtake the channel: order is not promised. */
  lemma OverflowOvertakes<T>(q: Queue<T>, item: T)
    requires Sound(q) && |q.channel| == CHANNEL_CAPACITY && q.consumer == Looking && q.overflow == []
    ensures var r := Step(Step(q, Request(item)), Look);
            r.consumed == q.consumed + [item] && r.channel == q.channel
  {
  }

  /** Everything accepted so far has been consumed or waits in the channel, in the order it was accepted. */
  ghost predicate InOrder<T>(q: Queue<T>) {
    q.overflow == [] && q.accepted == q.consumed + q.channel
  }

  /** First in, first out is kept by every step, except exactly by a request that finds a hundred items in the channel. */
  lemma OrderKeptIff<T>(q: Queue<T>, e: QueueEvent<T>)
    requires Sound(q) && InOrder(q) && Enabled(q, e)
    ensures InOrder(Step(q, e)) <==> !(e.Request? && |q.channel| == 100)
  {
    match e
    case Request(item) =>
      assert q.consumed + q.channel + [item] == q.consumed + (q.channel + [item]);
    case Look =>
    case Receive =>
      assert q.channel == [q.channel[0]] + q.channel[1..];
      assert q.consumed + q.channel == q.consumed + [q.channel[0]] + q.channel[1..];
  }

  /** No request of the run finds the channel full. */
  ghost predicate NeverFull<T>(q: Queue<T>, es: seq<QueueEvent<T>>)
    requires IsRun(q, es)
    decreases |es|
  {
    es == [] || ((es[0].Request? ==> |q.channel| < 100) && NeverFull(Step(q, es[0]), es[1..]))
  }

  /** So over every run on which the channel never fills, items are consumed in the order they came. */
  lemma {:induction false} FirstInFirstOut<T>(q: Queue<T>, es: seq<QueueEvent<T>>)
    requires Sound(q) && InOrder(q) && IsRun(q, es) && NeverFull(q, es)
    ensures InOrder(After(q, es))
    decreases |es|
  {
    if es != [] {
      OrderKeptIff(q, es[0]);
      StepKeepsSound(q, es[0]);
      FirstInFirstOut(Step(q, es[0]), es[1..]);
    }
  }

  /** Items in the overflow keep their order among themselves: what leaves it is its oldest item, what enters it goes last. */
  lemma OverflowIsAQueue<T>(q: Queue<T>, e: QueueEvent<T>)
    requires Enabled(q, e)
    ensures var r := Step(q, e);
            || r.overflow == q.overflow
            || (e.Request? && r.overflow == q.overflow + [e.item] && |q.channel| >= 100)
            || (q.overflow == [r.consumed[|r.consumed| - 1]] + r.overflow && |r.consumed| == |q.consumed| + 1)
  {
  }

  // ------------------------------------------------------------- the object

  /** ReconcileDispatcher's queue fields. */
  class DispatchBuffer<T> {
    var channel: seq<T>
    var overflow: seq<T>
    var consumer: Consumer
    ghost var accepted: seq<T>
    ghost var consumed: seq<T>

    ghost function View(): Queue<T>
      reads this
    {
      Queue(channel, overflow, consumer, accepted, consumed)
    }

    constructor ()
      ensures View() == Queue([], [], Looking, [], [])
    {
      channel, overflow, consumer, accepted, consumed := [], [], Looking, [], [];
    }

    /** RequestDispatch after its state check. */
    method Push(item: T)
      modifies this
      ensures View() == Step(old(View()), Request(item))
    {
      accepted := accepted + [item];
      if |channel| < CHANNEL_CAPACITY {
        channel := channel + [item];
      } else {
        overflow := overflow + [item];
      }
    }

    /** The overflow check of nextDispatchInstance; None means the consumer goes on to block on the channel. */
    method TakeOverflow() returns (r: Option<T>)
      requires consumer == Looking
      modifies this
      ensures View() == Step(old(View()), Look)
      ensures r == if old(overflow) == [] then None else Some(old(overflow)[0])
    {
      if |overflow| > 0 {
        r := Some(overflow[0]);
        consumed := consumed + [overflow[0]];
        overflow := overflow[1..];
      } else {
        r := None;
        consumer := Receiving;
      }
    }

    /** The blocked consumer is handed the channel's head. */
    method ReceiveNext() returns (r: T)
      requires consumer == Receiving && channel != []
      modifies this
      ensures View() == Step(old(View()), Receive)
      ensures r == old(channel)[0]
    {
      r := channel[0];
      consumed := consumed + [r];
      channel := channel[1..];
      consumer := Looking;
    }
  }
}
