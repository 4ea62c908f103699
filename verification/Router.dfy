/** The event router: a registration table and a fan-out that never waits. */
module Router {
  import opened Channels

  const ANY := -1

  datatype Event = Event(hostPort: string, ty: int, raw: string, data: string)

  /** The line parser: an event, and whether a pattern matched. */
  datatype Parsed = Parsed(event: Event, matched: bool)

  datatype Registration<H> = Registration(host: string, handler: H, types: seq<int>)

  /** The three tables of the router. */
  datatype Registry<H> = Registry(all: seq<H>, any: map<string, seq<H>>, typed: map<string, map<int, seq<H>>>)

  function NewRegistry<H>(): Registry<H> {
    Registry([], map[], map[])
  }

  function Row<H>(m: map<string, seq<H>>, host: string): seq<H> {
    if host in m then m[host] else []
  }

  function Cell<H>(m: map<string, map<int, seq<H>>>, host: string, ty: int): seq<H> {
    if host in m && ty in m[host] then m[host][ty] else []
  }

  /** The loop of `ListenFor`: it stops at the first `Any`, and an empty host ignores the types. */
  function Listen<H>(r: Registry<H>, host: string, h: H, types: seq<int>): Registry<H>
    decreases |types|
  {
    if types == [] then r
    else if host == "" then Listen(r.(all := r.all + [h]), host, h, types[1..])
    else if types[0] == ANY then r.(any := r.any[host := Row(r.any, host) + [h]])
    else Listen(r.(typed := File(r.typed, host, types[0], h)), host, h, types[1..])
  }

  function FromHistory<H>(history: seq<Registration<H>>): Registry<H> {
    if history == [] then NewRegistry()
    else
      var last := history[|history| - 1];
      Listen(FromHistory(history[..|history| - 1]), last.host, last.handler, last.types)
  }

  /** The handlers one event is offered to, in order, with repetitions. */
  function Deliveries<H>(r: Registry<H>, host: string, ty: int): seq<H> {
    Cell(r.typed, host, ty) + Row(r.any, host) + r.all
  }

  // ---------------------------------------------------------------- exact delivery counts

  function Occurrences(types: seq<int>, ty: int): nat {
    if types == [] then 0 else (if types[0] == ty then 1 else 0) + Occurrences(types[1..], ty)
  }

  /** The types before the first `Any`. */
  function Before(types: seq<int>): seq<int> {
    if types == [] || types[0] == ANY then [] else [types[0]] + Before(types[1..])
  }

  /** How often one registration makes the router offer an event of type `ty` from `host` to `c`. */
  function Share<H(==)>(reg: Registration<H>, c: H, host: string, ty: int): nat {
    if reg.handler != c then 0
    else if reg.host == "" then |reg.types|
    else if reg.host != host then 0
    else Occurrences(Before(reg.types), ty) + if ANY in reg.types then 1 else 0
  }

  function Shares<H(==)>(history: seq<Registration<H>>, c: H, host: string, ty: int): nat {
    if history == [] then 0
    else Shares(history[..|history| - 1], c, host, ty) + Share(history[|history| - 1], c, host, ty)
  }

  ghost function Offers<H>(r: Registry<H>, c: H, host: string, ty: int): nat {
    multiset(Deliveries(r, host, ty))[c]
  }

  lemma OffersSum<H>(r: Registry<H>, c: H, host: string, ty: int)
    ensures Offers(r, c, host, ty)
         == multiset(Cell(r.typed, host, ty))[c] + multiset(Row(r.any, host))[c] + multiset(r.all)[c]
  {
  }

  /** Filing a handler under a wildcard. */
  lemma AnyStep<H>(r: Registry<H>, lhost: string, h: H, c: H, host: string, ty: int)
    ensures var r' := r.(any := r.any[lhost := Row(r.any, lhost) + [h]]);
            Offers(r', c, host, ty) == Offers(r, c, host, ty) + if c == h && host == lhost then 1 else 0
  {
    OffersSum(r, c, host, ty);
    OffersSum(r.(any := r.any[lhost := Row(r.any, lhost) + [h]]), c, host, ty);
  }

  function File<H>(typed: map<string, map<int, seq<H>>>, host: string, ty: int, h: H): map<string, map<int, seq<H>>> {
    var row := if host in typed then typed[host] else map[];
    typed[host := row[ty := Cell(typed, host, ty) + [h]]]
  }

  lemma FileCell<H>(typed: map<string, map<int, seq<H>>>, lhost: string, lty: int, h: H, host: string, ty: int)
    ensures Cell(File(typed, lhost, lty, h), host, ty)
         == if host == lhost && ty == lty then Cell(typed, host, ty) + [h] else Cell(typed, host, ty)
  {
  }

  /** Filing a handler under one type. */
  lemma TypedStep<H>(r: Registry<H>, lhost: string, lty: int, h: H, c: H, host: string, ty: int)
    ensures var r' := r.(typed := File(r.typed, lhost, lty, h));
            Offers(r', c, host, ty) == Offers(r, c, host, ty) + if c == h && host == lhost && ty == lty then 1 else 0
  {
    FileCell(r.typed, lhost, lty, h, host, ty);
    OffersSum(r, c, host, ty);
    OffersSum(r.(typed := File(r.typed, lhost, lty, h)), c, host, ty);
  }

  lemma AllStep<H>(r: Registry<H>, h: H, c: H, host: string, ty: int)
    ensures Offers(r.(all := r.all + [h]), c, host, ty) == Offers(r, c, host, ty) + if c == h then 1 else 0
  {
    OffersSum(r, c, host, ty);
    OffersSum(r.(all := r.all + [h]), c, host, ty);
  }

  lemma ShareStep<H>(host': string, h: H, types: seq<int>, c: H, host: string, ty: int)
    requires types != [] && host' != "" && types[0] != ANY
    ensures Share(Registration(host', h, types), c, host, ty)
         == Share(Registration(host', h, types[1..]), c, host, ty)
            + if c == h && host == host' && ty == types[0] then 1 else 0
  {
    var before, rest := Before(types), Before(types[1..]);
    assert before[0] == types[0] && before[1..] == rest;
    assert types == [types[0]] + types[1..];
  }

  lemma {:induction false} ListenCount<H>(
    r: Registry<H>, lhost: string, h: H, types: seq<int>, c: H, host: string, ty: int)
    ensures Offers(Listen(r, lhost, h, types), c, host, ty)
         == Offers(r, c, host, ty) + Share(Registration(lhost, h, types), c, host, ty)
    decreases |types|
  {
    if types == [] {
    } else if lhost == "" {
      AllStep(r, h, c, host, ty);
      ListenCount(r.(all := r.all + [h]), lhost, h, types[1..], c, host, ty);
    } else if types[0] == ANY {
      AnyStep(r, lhost, h, c, host, ty);
    } else {
      TypedStep(r, lhost, types[0], h, c, host, ty);
      ShareStep(lhost, h, types, c, host, ty);
      ListenCount(r.(typed := File(r.typed, lhost, types[0], h)), lhost, h, types[1..], c, host, ty);
    }
  }

  /**
  For every history of registrations, an event is offered to a handler exactly
  as often as the handler's registrations say, and never for another host.
  */
  lemma {:induction false} DeliveryCount<H>(history: seq<Registration<H>>, c: H, host: string, ty: int)
    ensures Offers(FromHistory(history), c, host, ty) == Shares(history, c, host, ty)
  {
    if history == [] {
    } else {
      var n := |history| - 1;
      DeliveryCount(history[..n], c, host, ty);
      var last := history[n];
      ListenCount(FromHistory(history[..n]), last.host, last.handler, last.types, c, host, ty);
    }
  }

  lemma {:induction false} NoShares<H>(history: seq<Registration<H>>, c: H, host: string, ty: int)
    requires forall i :: 0 <= i < |history| && history[i].handler == c ==>
               history[i].host != "" && history[i].host != host
    ensures Shares(history, c, host, ty) == 0
  {
    if history == [] {
    } else {
      NoShares(history[..|history| - 1], c, host, ty);
    }
  }

  /** A handler registered only for other hosts is never offered the event. */
  lemma HostIsolation<H>(history: seq<Registration<H>>, c: H, host: string, ty: int)
    requires forall i :: 0 <= i < |history| && history[i].handler == c ==>
               history[i].host != "" && history[i].host != host
    ensures c !in Deliveries(FromHistory(history), host, ty)
  {
    NoShares(history, c, host, ty);
    DeliveryCount(history, c, host, ty);
  }

  // ---------------------------------------------------------------- the running router

  /** A channel: its queue is what its log of actions makes of an empty one. */
  class Chan {
    const capacity: nat
    var q: Queue<Event>
    ghost var log: seq<Action<Event>>

    ghost predicate Valid()
      reads this
    {
      q == Run(Empty(capacity), log)
    }

    constructor (capacity: nat)
      ensures Valid() && log == [] && this.capacity == capacity
    {
      this.capacity := capacity;
      q := Empty(capacity);
      log := [];
    }

    /** A send that gives up instead of waiting. */
    method TrySend(e: Event)
      requires Valid()
      modifies this
      ensures Valid() && log == old(log) + [Send(e)]
      ensures var ok := old(q.waiting) > 0 || |old(q.buffer)| < capacity;
              && q.offered == old(q.offered) + [e] && q.taken == old(q.taken) + [ok]
              && q.received + q.buffer == old(q.received + q.buffer) + if ok then [e] else []
    {
      RunSnoc(Empty(capacity), log, Send(e));
      RunCapacity(Empty<Event>(capacity), log);
      ChannelFifo(capacity, log);
      OfferOutcome(q, e);
      q := Offer(q, e);
      log := log + [Send(e)];
    }

    /** A receive: an event if one is buffered, otherwise the receiver parks. */
    method Take() returns (r: seq<Event>)
      requires Valid()
      modifies this
      ensures Valid() && log == old(log) + [Recv]
      ensures r == old(q.buffer)[..if old(q.buffer) == [] then 0 else 1]
    {
      RunSnoc(Empty(capacity), log, Recv);
      r := if q.buffer == [] then [] else [q.buffer[0]];
      q := Receive(q);
      log := log + [Recv];
    }

    /** A parked receiver gives up. */
    method Depart()
      requires Valid()
      modifies this
      ensures Valid() && log == old(log) + [Quit]
    {
      RunSnoc(Empty(capacity), log, Quit);
      q := Leave(q);
      log := log + [Quit];
    }
  }

  /** Every channel of the list has been sent the event once per mention in `done`. */
  ghost predicate SentTo(list: seq<Chan>, before: map<Chan, seq<Action<Event>>>, done: seq<Chan>, e: Event)
    reads list
  {
    forall c :: c in list ==> c.Valid() && c in before && c.log == before[c] + Sends(e, multiset(done)[c])
  }

  /** One turn of a loop of `Send`. */
  method OfferTo(c: Chan, e: Event, ghost list: seq<Chan>, ghost before: map<Chan, seq<Action<Event>>>,
                 ghost done: seq<Chan>)
    requires SentTo(list, before, done, e) && c in list
    modifies c
    ensures SentTo(list, before, done + [c], e)
  {
    c.TrySend(e);
  }

  /** One of the loops of `Send`. */
  method FanOut(handlers: seq<Chan>, e: Event, ghost list: seq<Chan>, ghost before: map<Chan, seq<Action<Event>>>,
                ghost done: seq<Chan>)
    requires SentTo(list, before, done, e)
    requires forall c :: c in handlers ==> c in list
    modifies handlers
    ensures SentTo(list, before, done + handlers, e)
  {
    assert done + handlers[..0] == done;
    for i := 0 to |handlers|
      invariant SentTo(list, before, done + handlers[..i], e)
    {
      assert done + handlers[..i + 1] == (done + handlers[..i]) + [handlers[i]];
      OfferTo(handlers[i], e, list, before, done + handlers[..i]);
    }
    assert handlers[..|handlers|] == handlers;
  }

  /** The three loops of `Send`, one after the other. */
  method FanOutAll(typed: seq<Chan>, any: seq<Chan>, all: seq<Chan>, e: Event, ghost list: seq<Chan>)
    requires list == typed + any + all && forall c :: c in list ==> c.Valid()
    modifies typed, any, all
    ensures forall c :: c in list ==> c.Valid() && c.log == old(c.log) + Sends(e, multiset(list)[c])
  {
    ghost var before := map c | c in list :: c.log;
    assert forall c :: c in list ==> before[c] + Sends(e, 0) == before[c];
    assert [] + typed == typed;
    FanOut(typed, e, list, before, []);
    FanOut(any, e, list, before, typed);
    FanOut(all, e, list, before, typed + any);
    assert typed + any + all == list;
  }

  class EventRouter {
    const parse: string -> Parsed
    var readersAll: seq<Chan>
    var readersAny: map<string, seq<Chan>>
    var readers: map<string, map<int, seq<Chan>>>
    ghost var history: seq<Registration<Chan>>

    function Tables(): Registry<Chan>
      reads this
    {
      Registry(readersAll, readersAny, readers)
    }

    ghost predicate Valid()
      reads this
    {
      Tables() == FromHistory(history)
    }

    constructor (parse: string -> Parsed)
      ensures Valid() && history == [] && this.parse == parse
    {
      this.parse := parse;
      readersAll, readersAny, readers := [], map[], map[];
      history := [];
    }

    method ListenFor(hostPort: string, handler: Chan, types: seq<int>)
      requires Valid()
      modifies this
      ensures Valid()
      ensures history == old(history) + [Registration(hostPort, handler, types)]
    {
      ghost var after := Listen(Tables(), hostPort, handler, types);
      assert types[0..] == types;
      for i := 0 to |types|
        invariant Listen(Tables(), hostPort, handler, types[i..]) == after
        invariant history == old(history)
      {
        assert types[i..][0] == types[i] && types[i..][1..] == types[i + 1..];
        if hostPort == "" {
          readersAll := readersAll + [handler];
          continue;
        }
        if types[i] == ANY {
          readersAny := readersAny[hostPort := Row(readersAny, hostPort) + [handler]];
          assert Tables() == after;
          break;
        }
        readers := File(readers, hostPort, types[i], handler);
      }
      assert Tables() == after by {
        assert types[|types|..] == [];
      }
      history := history + [Registration(hostPort, handler, types)];
      assert history[..|history| - 1] == old(history);
    }

    /** The event a line becomes; a line no pattern matches is an `Any` event. */
    function EventFor(hostPort: string, line: string): Event {
      var p := parse(line);
      var e := if p.matched then p.event else p.event.(ty := ANY, raw := line);
      e.(hostPort := hostPort)
    }

    /** The parser's event under the host it came from; without a match its type is `Any` and its text the line. */
    lemma EventForMeaning(hostPort: string, line: string)
      ensures var p, e := parse(line), EventFor(hostPort, line);
              && e.hostPort == hostPort && e.data == p.event.data
              && (p.matched ==> e.ty == p.event.ty && e.raw == p.event.raw)
              && (!p.matched ==> e.ty == -1 && e.raw == line)
    {
    }

    /** The three loops of `Send` for an event that is already built. */
    method Deliver(e: Event)
      requires forall c :: c in Deliveries(Tables(), e.hostPort, e.ty) ==> c.Valid()
      modifies Cell(readers, e.hostPort, e.ty), Row(readersAny, e.hostPort), readersAll
      ensures forall c :: c in Deliveries(Tables(), e.hostPort, e.ty) ==>
                c.Valid() && c.log == old(c.log) + Sends(e, Offers(Tables(), c, e.hostPort, e.ty))
    {
      ghost var list := Deliveries(Tables(), e.hostPort, e.ty);
      FanOutAll(Cell(readers, e.hostPort, e.ty), Row(readersAny, e.hostPort), readersAll, e, list);
    }

    /**
    Offers the event to exactly the handlers whose registrations ask for it, as
    often as they ask, and touches no other channel. It ends without waiting
    for any receiver.
    */
    method Send(hostPort: string, line: string)
      requires Valid()
      requires forall c :: c in Deliveries(Tables(), hostPort, EventFor(hostPort, line).ty) ==> c.Valid()
      modifies Cell(readers, hostPort, EventFor(hostPort, line).ty), Row(readersAny, hostPort), readersAll
      ensures var e := EventFor(hostPort, line);
              forall c :: c in Deliveries(Tables(), hostPort, e.ty) ==>
                c.Valid() && c.log == old(c.log) + Sends(e, Shares(history, c, hostPort, e.ty))
    {
      var e := EventFor(hostPort, line);
      Deliver(e);
      forall c | c in Deliveries(Tables(), hostPort, e.ty)
        ensures Offers(Tables(), c, hostPort, e.ty) == Shares(history, c, hostPort, e.ty)
      {
        DeliveryCount(history, c, hostPort, e.ty);
      }
    }
  }
}
