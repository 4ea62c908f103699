/**
Channels as the event router uses them: a send never waits. It hands the event
to a parked receiver, puts it into free buffer space, or drops it.
*/
module Channels {

  /**
  `waiting` counts parked receivers. `offered`, `taken` and `received` record
  the history: every event offered, whether it was taken, and what came out.
  */
  datatype Queue<E> = Queue(
    capacity: nat, buffer: seq<E>, waiting: nat, offered: seq<E>, taken: seq<bool>, received: seq<E>)

  function Empty<E>(capacity: nat): Queue<E> {
    Queue(capacity, [], 0, [], [], [])
  }

  /** A send with a default case. */
  function Offer<E>(q: Queue<E>, e: E): Queue<E> {
    if q.waiting > 0 then
      q.(waiting := q.waiting - 1, received := q.received + [e],
         offered := q.offered + [e], taken := q.taken + [true])
    else if |q.buffer| < q.capacity then
      q.(buffer := q.buffer + [e], offered := q.offered + [e], taken := q.taken + [true])
    else
      q.(offered := q.offered + [e], taken := q.taken + [false])
  }

  /** A receive: takes the oldest buffered event, or parks. */
  function Receive<E>(q: Queue<E>): Queue<E> {
    if q.buffer != [] then q.(received := q.received + [q.buffer[0]], buffer := q.buffer[1..])
    else q.(waiting := q.waiting + 1)
  }

  /** A parked receiver turns to something else, as the select loops do. */
  function Leave<E>(q: Queue<E>): Queue<E> {
    if q.waiting > 0 then q.(waiting := q.waiting - 1) else q
  }

  datatype Action<E> = Send(e: E) | Recv | Quit

  function Act<E>(q: Queue<E>, a: Action<E>): Queue<E> {
    match a
    case Send(e) => Offer(q, e)
    case Recv => Receive(q)
    case Quit => Leave(q)
  }

  function Run<E>(q: Queue<E>, acts: seq<Action<E>>): Queue<E>
    decreases |acts|
  {
    if acts == [] then q else Run(Act(q, acts[0]), acts[1..])
  }

  /** The elements whose mark is set, in order. */
  function Marked<E>(s: seq<E>, marks: seq<bool>): seq<E>
    requires |s| == |marks|
  {
    if s == [] then []
    else
      var n := |s| - 1;
      Marked(s[..n], marks[..n]) + if marks[n] then [s[n]] else []
  }

  function Count(marks: seq<bool>, b: bool): nat {
    if marks == [] then 0
    else Count(marks[..|marks| - 1], b) + if marks[|marks| - 1] == b then 1 else 0
  }

  /**
  First in, first out, with drops: what came out followed by what is buffered
  is what was offered minus the drops, in the order it was offered; nothing is
  invented, repeated or overtaken.
  */
  ghost predicate Fifo<E>(q: Queue<E>) {
    && |q.taken| == |q.offered|
    && q.received + q.buffer == Marked(q.offered, q.taken)
    && |q.offered| == |q.received| + |q.buffer| + Count(q.taken, false)
    && |q.buffer| <= q.capacity
    && (q.waiting > 0 ==> q.buffer == [])
  }

  lemma MarkedSnoc<E>(s: seq<E>, marks: seq<bool>, e: E, b: bool)
    requires |s| == |marks|
    ensures Marked(s + [e], marks + [b]) == Marked(s, marks) + if b then [e] else []
    ensures Count(marks + [b], false) == Count(marks, false) + if b then 0 else 1
  {
    assert (s + [e])[..|s|] == s && (marks + [b])[..|s|] == marks;
  }

  /** A send succeeds exactly when a receiver is parked or the buffer has room, and then goes to one of them. */
  lemma OfferOutcome<E>(q: Queue<E>, e: E)
    ensures var ok := q.waiting > 0 || |q.buffer| < q.capacity;
            var q' := Offer(q, e);
            && q'.capacity == q.capacity
            && q'.offered == q.offered + [e] && q'.taken == q.taken + [ok]
            && q'.received == (if q.waiting > 0 then q.received + [e] else q.received)
            && q'.buffer == (if ok && q.waiting == 0 then q.buffer + [e] else q.buffer)
            && q'.waiting == if q.waiting > 0 then q.waiting - 1 else 0
  {
  }

  lemma OfferKeepsFifo<E>(q: Queue<E>, e: E)
    requires Fifo(q)
    ensures Fifo(Offer(q, e))
  {
    OfferOutcome(q, e);
    MarkedSnoc(q.offered, q.taken, e, q.waiting > 0 || |q.buffer| < q.capacity);
  }

  lemma ActKeepsFifo<E>(q: Queue<E>, a: Action<E>)
    requires Fifo(q)
    ensures Fifo(Act(q, a))
  {
    match a
    case Send(e) => OfferKeepsFifo(q, e);
    case Recv =>
      if q.buffer != [] {
        assert q.received + [q.buffer[0]] + q.buffer[1..] == q.received + q.buffer;
      }
    case Quit =>
  }

  /** Every channel is first in, first out after any mix of sends, receives and departures. */
  lemma {:induction false} RunKeepsFifo<E>(q: Queue<E>, acts: seq<Action<E>>)
    requires Fifo(q)
    ensures Fifo(Run(q, acts))
    decreases |acts|
  {
    if acts == [] {
    } else {
      ActKeepsFifo(q, acts[0]);
      RunKeepsFifo(Act(q, acts[0]), acts[1..]);
    }
  }

  lemma ChannelFifo<E>(capacity: nat, acts: seq<Action<E>>)
    ensures Fifo(Run(Empty(capacity), acts))
  {
    RunKeepsFifo(Empty<E>(capacity), acts);
  }

  lemma {:induction false} RunSnoc<E>(q: Queue<E>, acts: seq<Action<E>>, a: Action<E>)
    ensures Run(q, acts + [a]) == Act(Run(q, acts), a)
    decreases |acts|
  {
    if acts == [] {
      assert acts + [a] == [a] && [a][1..] == [];
    } else {
      assert (acts + [a])[0] == acts[0] && (acts + [a])[1..] == acts[1..] + [a];
      RunSnoc(Act(q, acts[0]), acts[1..], a);
    }
  }

  /** The events a run sends, in order. */
  function Sent<E>(acts: seq<Action<E>>): seq<E> {
    if acts == [] then []
    else
      var n := |acts| - 1;
      Sent(acts[..n]) + if acts[n].Send? then [acts[n].e] else []
  }

  /** A channel is offered exactly the events sent to it. */
  lemma {:induction false} OfferedIsSent<E>(capacity: nat, acts: seq<Action<E>>)
    ensures Run(Empty(capacity), acts).offered == Sent(acts)
  {
    if acts == [] {
    } else {
      var n := |acts| - 1;
      OfferedIsSent(capacity, acts[..n]);
      RunSnoc(Empty(capacity), acts[..n], acts[n]);
      assert acts == acts[..n] + [acts[n]];
    }
  }

  /** A parked receiver is handed the next event, and one that leaves is as if it had never come. */
  lemma ParkedReceiver<E>(q: Queue<E>, e: E)
    requires q.buffer == []
    ensures Offer(Receive(q), e).received == q.received + [e] && Offer(Receive(q), e).buffer == []
    ensures Leave(Receive(q)) == q
  {
  }

  /** A channel keeps its capacity, and a send of a run is dropped only when the buffer is full and nobody waits. */
  lemma {:induction false} DroppedOnlyWhenFull<E>(capacity: nat, acts: seq<Action<E>>, e: E)
    ensures var q := Run(Empty(capacity), acts);
            var q' := Run(Empty(capacity), acts + [Send(e)]);
            && q.capacity == capacity
            && q'.taken == q.taken + [q.waiting > 0 || |q.buffer| < capacity]
  {
    RunCapacity(Empty<E>(capacity), acts);
    RunSnoc(Empty(capacity), acts, Send(e));
    OfferOutcome(Run(Empty(capacity), acts), e);
  }

  lemma {:induction false} RunCapacity<E>(q: Queue<E>, acts: seq<Action<E>>)
    ensures Run(q, acts).capacity == q.capacity
    decreases |acts|
  {
    if acts == [] {
    } else {
      RunCapacity(Act(q, acts[0]), acts[1..]);
    }
  }

  /** A run that sends no more events than the buffer holds drops none of them. */
  lemma {:induction false} NoDropsWithinCapacity<E>(capacity: nat, acts: seq<Action<E>>)
    requires |Sent(acts)| <= capacity
    ensures var q := Run(Empty(capacity), acts);
            q.received + q.buffer == Sent(acts) && Count(q.taken, false) == 0
  {
    if acts == [] {
    } else {
      var n := |acts| - 1;
      var q := Run(Empty<E>(capacity), acts[..n]);
      assert acts == acts[..n] + [acts[n]];
      NoDropsWithinCapacity(capacity, acts[..n]);
      RunSnoc(Empty(capacity), acts[..n], acts[n]);
      ChannelFifo(capacity, acts[..n]);
      if acts[n].Send? {
        DroppedOnlyWhenFull(capacity, acts[..n], acts[n].e);
        OfferOutcome(q, acts[n].e);
        MarkedSnoc(q.offered, q.taken, acts[n].e, true);
      } else {
        ActKeepsFifo(q, acts[n]);
      }
    }
  }

  /** `n` sends of the same event. */
  function Sends<E>(e: E, n: nat): (r: seq<Action<E>>)
    ensures |r| == n
  {
    seq(n, _ => Send(e))
  }
}
