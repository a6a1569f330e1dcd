/**
 Requests to a Model Context Protocol server and their replies, after `MCPStdioClient` in
 `python/csilk/mcp.py`.

 Each request gets the next identifier and a future. Replies come in any order, more than once, or for
 identifiers that were never used; a caller may cancel its future at any time.
 */
module McpClient {

  type Id = int

  /** The reply's `result`, or its `error`. */
  datatype Reply<V> = Result(value: V) | Error(error: V)

  datatype Status<V> = Waiting | Cancelled | Replied(reply: Reply<V>)

  datatype Event<V> = Request | Cancel(id: Id) | Receive(id: Id, reply: Reply<V>)

  /** The identifiers used, those still expecting a reply, and the future of each request. */
  datatype Client<V> = Client(counter: nat, pending: set<Id>, futures: map<Id, Status<V>>)

  function Start<V>(): Client<V> {
    Client(0, {}, map[])
  }

  function Settle<V>(s: Status<V>, to: Status<V>): Status<V> {
    if s.Waiting? then to else s
  }

  function Step<V>(c: Client<V>, e: Event<V>): Client<V> {
    match e
    case Request => Client(c.counter + 1, c.pending + {c.counter + 1}, c.futures[c.counter + 1 := Waiting])
    case Cancel(id) => if id in c.futures then c.(futures := c.futures[id := Settle(c.futures[id], Cancelled)]) else c
    case Receive(id, reply) =>
      if id in c.pending && id in c.futures
      then c.(pending := c.pending - {id}, futures := c.futures[id := Settle(c.futures[id], Replied(reply))])
      else c
  }

  function Run<V>(c: Client<V>, events: seq<Event<V>>): Client<V>
    decreases |events|
  {
    if events == [] then c else Run(Step(c, events[0]), events[1..])
  }

  /** Every identifier used has a future; only those are pending; a future that waits is pending. */
  ghost predicate Sound<V(!new)>(c: Client<V>) {
    && (forall id :: id in c.futures <==> 1 <= id <= c.counter)
    && (forall id :: id in c.pending ==> 1 <= id <= c.counter)
    && (forall id :: id in c.futures && c.futures[id].Waiting? ==> id in c.pending)
  }

  /** What settles request `id`: the first cancellation or reply that names it after it is issued. */
  function First<V>(events: seq<Event<V>>, issued: nat, id: Id): Status<V> {
    if events == [] then Waiting
    else
      match events[0]
      case Request => First(events[1..], issued + 1, id)
      case Cancel(i) => if i == id && 1 <= id <= issued then Cancelled else First(events[1..], issued, id)
      case Receive(i, reply) => if i == id && 1 <= id <= issued then Replied(reply) else First(events[1..], issued, id)
  }

  /** The reply for `id` has come after it was issued. */
  predicate Answered<V>(events: seq<Event<V>>, issued: nat, id: Id) {
    events != []
    && ((events[0].Receive? && events[0].id == id && 1 <= id <= issued)
        || Answered(events[1..], if events[0].Request? then issued + 1 else issued, id))
  }

  function Requests<V>(events: seq<Event<V>>): nat {
    if events == [] then 0 else (if events[0].Request? then 1 else 0) + Requests(events[1..])
  }

  lemma StepSound<V(!new)>(c: Client<V>, e: Event<V>)
    requires Sound(c)
    ensures Sound(Step(c, e))
  {
  }

  /** From any sound state, for any further events. */
  lemma {:induction false} RunIsHistory<V(!new)>(c: Client<V>, events: seq<Event<V>>, id: Id)
    requires Sound(c)
    ensures var d := Run(c, events);
            && Sound(d) && d.counter == c.counter + Requests(events)
            && (id in d.futures ==>
                  d.futures[id] == if id in c.futures && !c.futures[id].Waiting? then c.futures[id]
                                   else First(events, c.counter, id))
            && (id in d.pending <==>
                  (id in c.pending || c.counter < id <= d.counter) && !Answered(events, c.counter, id))
    decreases |events|
  {
    if events != [] {
      StepSound(c, events[0]);
      RunIsHistory(Step(c, events[0]), events[1..], id);
    }
  }

  /**
   Under every interleaving: identifiers count requests, so each is issued once; each call is settled by
   the first cancellation or reply that names it, and by nothing else; an identifier stays pending until
   its reply.
   */
  lemma EveryCall<V(!new)>(events: seq<Event<V>>, id: Id)
    ensures var c := Run(Start(), events);
            && c.counter == Requests(events)
            && (id in c.futures <==> 1 <= id <= Requests(events))
            && (id in c.futures ==> c.futures[id] == First(events, 0, id))
            && (id in c.pending <==> 1 <= id <= Requests(events) && !Answered(events, 0, id))
  {
    RunIsHistory(Start(), events, id);
  }

  lemma {:induction false} RunAppend<V>(c: Client<V>, events: seq<Event<V>>, more: seq<Event<V>>)
    ensures Run(c, events + more) == Run(Run(c, events), more)
    decreases |events|
  {
    if events == [] {
      assert events + more == more;
    } else {
      assert (events + more)[0] == events[0] && (events + more)[1..] == events[1..] + more;
      RunAppend(Step(c, events[0]), events[1..], more);
    }
  }

  /** A call that has been settled is never settled again. */
  lemma SettledOnce<V(!new)>(events: seq<Event<V>>, more: seq<Event<V>>, id: Id)
    requires var c := Run(Start(), events); id in c.futures && !c.futures[id].Waiting?
    ensures var c := Run(Start(), events + more); id in c.futures && c.futures[id] == First(events, 0, id)
  {
    RunAppend(Start(), events, more);
    EveryCall(events, id);
    RunIsHistory(Start(), events, id);
    RunIsHistory(Run(Start(), events), more, id);
  }

  //////////////////////////////////////////////////////////////////////////////
  // The procedures
  //////////////////////////////////////////////////////////////////////////////

  class Future<V> {
    var status: Status<V>

    constructor ()
      ensures status == Waiting
    {
      status := Waiting;
    }

    /** `cancel` has no effect on a future that is done. */
    method Abandon()
      modifies this
      ensures status == Settle(old(status), Cancelled)
    {
      if status.Waiting? {
        status := Cancelled;
      }
    }
  }

  class StdioClient<V> {
    var counter: nat
    var pending: map<Id, Future<V>>
    /** Every future there has been. */
    ghost var futures: map<Id, Future<V>>

    ghost predicate Valid()
      reads this, futures.Values
    {
      && (forall id :: id in futures <==> 1 <= id <= counter)
      && (forall id :: id in pending ==> id in futures && pending[id] == futures[id])
      && (forall i, j :: i in futures && j in futures && i != j ==> futures[i] != futures[j])
    }

    ghost function State(): Client<V>
      reads this, futures.Values
    {
      Client(counter, pending.Keys, map id | id in futures :: futures[id].status)
    }

    constructor ()
      ensures Valid() && State() == Start()
    {
      counter, pending, futures := 0, map[], map[];
    }

    /** `request`, up to waiting for its future. */
    method Issue() returns (id: Id, future: Future<V>)
      requires Valid()
      modifies this
      ensures Valid() && State() == Step(old(State()), Request)
      ensures id == counter && fresh(future) && futures == old(futures)[id := future]
    {
      counter := counter + 1;
      id := counter;
      future := new Future();
      pending := pending[id := future];
      futures := futures[id := future];
      assert State().pending == old(State()).pending + {id};
      assert State().futures == old(State()).futures[id := Waiting];
    }

    /** Only one future has changed. */
    twostate lemma OneFutureChanged(id: Id)
      requires old(Valid()) && futures == old(futures) && id in futures
      requires forall i :: i in futures && i != id ==> unchanged(futures[i])
      ensures State().futures == old(State()).futures[id := futures[id].status]
    {
      forall i | i in futures && i != id ensures State().futures[i] == old(State()).futures[i] {
        assert unchanged(futures[i]);
      }
    }

    /** One reply in `_read_loop`. */
    method Deliver(id: Id, reply: Reply<V>)
      requires Valid()
      modifies this, futures.Values
      ensures Valid() && State() == Step(old(State()), Receive(id, reply))
      ensures futures == old(futures)
    {
      if id in pending {
        var future := pending[id];
        assert future == futures[id] && forall i :: i in futures && i != id ==> futures[i] != future;
        pending := pending - {id};
        if future.status.Waiting? {
          future.status := Replied(reply);
        }
        OneFutureChanged(id);
        assert State().pending == old(State()).pending - {id};
      }
    }

    /** The caller that waits for request `id` is cancelled. */
    method CancelCall(future: Future<V>, ghost id: Id)
      requires Valid() && id in futures && futures[id] == future
      modifies future
      ensures Valid() && State() == Step(old(State()), Cancel(id))
      ensures counter == old(counter) && pending == old(pending) && futures == old(futures)
    {
      assert forall i :: i in futures && i != id ==> futures[i] != future;
      future.Abandon();
      OneFutureChanged(id);
    }
  }
}
