/** The hub: connection ids and lossy fan-out to bounded queues
    (gateway/internal/server/server.go, conn.go). */
module Hubs {
  import opened Bytes

  type Message = seq<byte>

  const QUEUE: nat := 256
  const ID_SPACE: nat := 0x1_0000_0000

  /** A registered connection: which registration it came from, and its `Send`. */
  datatype Link = Link(serial: nat, queue: seq<Message>)

  /** The number of registrations so far, and the connections by id. */
  datatype HubState = HubState(registered: nat, links: map<uint32, Link>)

  /** `AddUint32(&IDGen, 1)` at registration number `serial`. */
  function IdOf(serial: nat): uint32 {
    serial % ID_SPACE
  }

  function Registered(h: HubState): HubState {
    var serial := h.registered + 1;
    HubState(serial, h.links[IdOf(serial) := Link(serial, [])])
  }

  /** A send that does not block: dropped when the queue is full. */
  function Offered(queue: seq<Message>, data: Message): seq<Message> {
    if |queue| < QUEUE then queue + [data] else queue
  }

  function Broadcasted(h: HubState, data: Message): HubState {
    h.(links := map id | id in h.links :: h.links[id].(queue := Offered(h.links[id].queue, data)))
  }

  // -------------------------------------------------------------- the objects

  class Conn {
    var id: uint32
    var send: seq<Message>
    var closed: bool
    ghost var serial: nat

    constructor ()
      ensures send == [] && !closed
    {
      id, send, closed, serial := 0, [], false, 0;
    }

    /** The write pump's receive, when there is a message. */
    method Receive() returns (msg: Message)
      requires send != []
      modifies this`send
      ensures msg == old(send)[0] && send == old(send)[1..]
    {
      msg := send[0];
      send := send[1..];
    }

    /** The send of one broadcast, which panics when the channel is closed. */
    method Offer(data: Message) returns (panicked: bool)
      modifies this`send
      ensures panicked == closed
      ensures send == if closed then old(send) else Offered(old(send), data)
    {
      if closed {
        return true;
      }
      if |send| < QUEUE {
        send := send + [data];
      }
      panicked := false;
    }
  }

  class Hub {
    var idGen: uint32
    var connMap: map<uint32, Conn>
    ghost var registered: nat

    ghost predicate Valid()
      reads this, connMap.Values
    {
      && idGen == IdOf(registered)
      && forall id | id in connMap :: connMap[id].id == id
    }

    ghost function View(): HubState
      reads this, connMap.Values
    {
      HubState(registered, map id | id in connMap :: Link(connMap[id].serial, connMap[id].send))
    }

    constructor ()
      ensures Valid() && View() == HubState(0, map[])
    {
      idGen, connMap, registered := 0, map[], 0;
    }

    /** The registration case of `Run`, for a connection that is new. */
    method Register(conn: Conn)
      requires Valid() && conn !in connMap.Values && conn.send == []
      modifies this, conn
      ensures Valid() && View() == Registered(old(View()))
      ensures connMap == old(connMap)[conn.id := conn]
      ensures registered == old(registered) + 1 && conn.id == IdOf(registered) == registered % 0x1_0000_0000
    {
      ghost var was := View().links;
      NextId(registered);
      idGen := if idGen as int + 1 == ID_SPACE then 0 else idGen + 1;
      registered := registered + 1;
      conn.id := idGen;
      conn.serial := registered;
      connMap := connMap[conn.id := conn];
      assert View().links == was[conn.id := Link(registered, [])];
    }

    /** The other case of `Run`: whatever is stored under the connection's id goes.
        Closing a channel that is closed already panics. */
    method Unregister(conn: Conn) returns (panicked: bool)
      requires Valid()
      modifies this`connMap, conn`closed
      ensures Valid() && connMap == old(connMap) - {conn.id} && conn.closed
      ensures View() == old(View()).(links := old(View()).links - {conn.id})
      ensures panicked <==> old(conn.closed)
    {
      connMap := connMap - {conn.id};
      panicked := conn.closed;
      conn.closed := true;
    }

    /** The send to one connection. */
    method OfferTo(id: uint32, conn: Conn, data: Message) returns (panicked: bool)
      requires Valid() && id in connMap && conn == connMap[id]
      modifies conn`send
      ensures Valid() && panicked == conn.closed
      ensures View() == if panicked then old(View()) else OfferedTo(old(View()), id, data)
    {
      ghost var was := View().links;
      panicked := conn.Offer(data);
      assert View().links == if panicked then was else was[id := View().links[id]];
    }

    /** One non-blocking send to every connection, in any order. It panics exactly
        when some connection's channel is closed; `done` are the connections that
        have been sent to, all of them unless it panics. */
    method Broadcast(data: Message) returns (panicked: bool, ghost done: set<uint32>)
      requires Valid()
      modifies connMap.Values`send
      ensures Valid()
      ensures panicked <==> exists id | id in connMap :: connMap[id].closed
      ensures SentTo(old(View()), View(), data, done) && forall id | id in done :: id in connMap && !connMap[id].closed
      ensures !panicked ==> View() == Broadcasted(old(View()), data)
    {
      done := {};
      var todo := connMap.Keys;
      while todo != {}
        invariant Valid() && todo !! done && todo + done == connMap.Keys
        invariant SentTo(old(View()), View(), data, done)
        invariant forall id | id in done :: !connMap[id].closed
        decreases todo
      {
        var id :| id in todo;
        ghost var mid := View();
        panicked := OfferTo(id, connMap[id], data);
        if panicked {
          return;
        }
        SentToOneMore(old(View()), mid, data, done, id);
        todo, done := todo - {id}, done + {id};
      }
      panicked := false;
      SentToAll(old(View()), View(), data);
    }
  }

  function OfferedTo(h: HubState, id: uint32, data: Message): HubState
    requires id in h.links
  {
    h.(links := h.links[id := h.links[id].(queue := Offered(h.links[id].queue, data))])
  }

  /** Exactly the connections of `done` have been offered the message. */
  ghost predicate SentTo(was: HubState, now: HubState, data: Message, done: set<uint32>) {
    && now.registered == was.registered && now.links.Keys == was.links.Keys
    && forall id | id in was.links ::
         now.links[id] ==
         if id in done then was.links[id].(queue := Offered(was.links[id].queue, data)) else was.links[id]
  }

  lemma SentToOneMore(was: HubState, mid: HubState, data: Message, done: set<uint32>, id: uint32)
    requires SentTo(was, mid, data, done) && id in was.links && id !in done
    ensures SentTo(was, OfferedTo(mid, id, data), data, done + {id})
  {
  }

  lemma SentToAll(was: HubState, now: HubState, data: Message)
    requires SentTo(was, now, data, was.links.Keys)
    ensures now == Broadcasted(was, data)
  {
    assert now.links == Broadcasted(was, data).links;
  }

  lemma NextId(n: nat)
    ensures IdOf(n + 1) == if IdOf(n) as int + 1 == ID_SPACE then 0 else IdOf(n) + 1
  {
    ModStep(n, 1, ID_SPACE);
  }

  // -------------------------------------------------------------------- runs

  datatype Event =
    | Register
    | Unregister(id: uint32)
    | Broadcast(data: Message)
    | Drain(id: uint32)

  function Step(h: HubState, e: Event): HubState {
    match e
    case Register => Registered(h)
    case Unregister(id) => h.(links := h.links - {id})
    case Broadcast(data) => Broadcasted(h, data)
    case Drain(id) =>
      if id in h.links && h.links[id].queue != []
      then h.(links := h.links[id := h.links[id].(queue := h.links[id].queue[1..])])
      else h
  }

  function Run(h: HubState, run: seq<Event>): HubState
    decreases |run|
  {
    if run == [] then h else Run(Step(h, run[0]), run[1..])
  }

  /** The message the event sends out to the client of `id`. */
  function DrainedBy(h: HubState, e: Event, id: uint32): seq<Message> {
    if e == Drain(id) && id in h.links && h.links[id].queue != [] then [h.links[id].queue[0]] else []
  }

  function Drained(h: HubState, run: seq<Event>, id: uint32): seq<Message>
    decreases |run|
  {
    if run == [] then [] else DrainedBy(h, run[0], id) + Drained(Step(h, run[0]), run[1..], id)
  }

  function Broadcasts(run: seq<Event>): seq<Message> {
    if run == [] then []
    else (if run[0].Broadcast? then [run[0].data] else []) + Broadcasts(run[1..])
  }

  /** A broadcast that finds the queue of `id` full. */
  predicate Dropped(h: HubState, e: Event, id: uint32) {
    e.Broadcast? && id in h.links && |h.links[id].queue| >= 256
  }

  /** The broadcasts that found room in the queue of `id`, in order. */
  function Taken(h: HubState, run: seq<Event>, id: uint32): seq<Message>
    decreases |run|
  {
    if run == [] then []
    else
      (if run[0].Broadcast? && !Dropped(h, run[0], id) then [run[0].data] else [])
      + Taken(Step(h, run[0]), run[1..], id)
  }

  function Drops(h: HubState, run: seq<Event>, id: uint32): nat
    decreases |run|
  {
    if run == [] then 0
    else (if Dropped(h, run[0], id) then 1 else 0) + Drops(Step(h, run[0]), run[1..], id)
  }

  function Registrations(run: seq<Event>): nat {
    if run == [] then 0 else (if run[0].Register? then 1 else 0) + Registrations(run[1..])
  }

  predicate IsSubsequence<T(==)>(a: seq<T>, b: seq<T>)
    decreases |b|
  {
    a == [] ||
    (b != [] && ((a[0] == b[0] && IsSubsequence(a[1..], b[1..])) || IsSubsequence(a, b[1..])))
  }

  // ----------------------------------------------------------------------- ids

  /** Ids count up from one: from a new hub, registration number `n` gets the id `n`
      until the counter wraps. */
  lemma {:induction false} IdsCountUp(run: seq<Event>)
    ensures Run(HubState(0, map[]), run + [Register]).registered == Registrations(run) + 1
    ensures var id := (Registrations(run) + 1) % 0x1_0000_0000;
            var links := Run(HubState(0, map[]), run + [Register]).links;
            id in links && links[id] == Link(Registrations(run) + 1, [])
  {
    var h := HubState(0, map[]);
    RunAppend(h, run, [Register]);
    RunCounts(h, run);
  }

  lemma {:induction false} RunAppend(h: HubState, a: seq<Event>, b: seq<Event>)
    ensures Run(h, a + b) == Run(Run(h, a), b)
    decreases |a|
  {
    if a == [] {
      assert a + b == b;
    } else {
      assert (a + b)[1..] == a[1..] + b;
      RunAppend(Step(h, a[0]), a[1..], b);
    }
  }

  lemma {:induction false} RunCounts(h: HubState, run: seq<Event>)
    ensures Run(h, run).registered == h.registered + Registrations(run)
    decreases |run|
  {
    if run != [] {
      RunCounts(Step(h, run[0]), run[1..]);
    }
  }

  /** Two registrations get the same id exactly when they are a multiple of 2^32
      apart; so ids are distinct for fewer than 2^32 registrations. */
  lemma SameIdIff(a: nat, b: nat)
    requires a <= b
    ensures IdOf(a) == IdOf(b) <==> (b - a) % ID_SPACE == 0
    ensures a < b < a + ID_SPACE ==> IdOf(a) != IdOf(b)
  {
    var d, n := b - a, ID_SPACE;
    assert b == a + d;
    var q, r := d / n, d % n;
    ModStep(a, r, n);
    var s := a + r;
    DivModUnique(s + q * n, n, s / n + q, s % n);
    if d < n {
      DivModUnique(d, n, 0, d);
    }
  }

  /** Every link sits under the id of its own registration, and queues are bounded. */
  ghost predicate Sound(h: HubState) {
    forall id | id in h.links ::
      id == IdOf(h.links[id].serial) && h.links[id].serial <= h.registered && |h.links[id].queue| <= QUEUE
  }

  lemma StepStaysSound(h: HubState, e: Event)
    requires Sound(h)
    ensures Sound(Step(h, e))
  {
  }

  lemma {:induction false} RunStaysSound(h: HubState, run: seq<Event>)
    requires Sound(h)
    ensures Sound(Run(h, run))
    decreases |run|
  {
    if run != [] {
      StepStaysSound(h, run[0]);
      RunStaysSound(Step(h, run[0]), run[1..]);
    }
  }

  // ------------------------------------------------------------------- fan-out

  lemma QueueMoves(h: HubState, e: Event, id: uint32)
    requires id in h.links && e != Unregister(id)
    requires e.Register? ==> IdOf(h.registered + 1) != id
    ensures var h' := Step(h, e);
            && id in h'.links && h'.links[id].serial == h.links[id].serial
            && DrainedBy(h, e, id) + h'.links[id].queue ==
               h.links[id].queue + if e.Broadcast? && !Dropped(h, e, id) then [e.data] else []
  {
    var q := h.links[id].queue;
    if e == Drain(id) && q != [] {
      assert [q[0]] + q[1..] == q == q + [];
    } else {
      EmptyEnds(Step(h, e).links[id].queue);
    }
  }

  lemma StepFansOut(h: HubState, e: Event, id: uint32)
    requires Sound(h) && id in h.links && e != Unregister(id)
    requires e.Register? ==> h.registered + 1 < h.links[id].serial + ID_SPACE
    ensures var h' := Step(h, e);
            && Sound(h') && id in h'.links && h'.links[id].serial == h.links[id].serial
            && h'.registered == h.registered + (if e.Register? then 1 else 0)
            && DrainedBy(h, e, id) + h'.links[id].queue ==
               h.links[id].queue + if e.Broadcast? && !Dropped(h, e, id) then [e.data] else []
  {
    if e.Register? {
      SameIdIff(h.links[id].serial, h.registered + 1);
    }
    StepStaysSound(h, e);
    QueueMoves(h, e, id);
  }

  /** Fan-out, over every run in which the connection stays registered and fewer
      than 2^32 registrations follow its own: what its client has been sent,
      followed by its queue, is what was queued at the start followed by the
      broadcasts that found room, in order and once each. */
  lemma {:induction false} FanOut(h: HubState, run: seq<Event>, id: uint32)
    requires Sound(h) && id in h.links && Unregister(id) !in run
    requires h.registered + Registrations(run) < h.links[id].serial + ID_SPACE
    ensures var end := Run(h, run);
            && id in end.links && end.links[id].serial == h.links[id].serial
            && Drained(h, run, id) + end.links[id].queue == h.links[id].queue + Taken(h, run, id)
    decreases |run|
  {
    var q := h.links[id].queue;
    if run == [] {
      assert [] + q == q + [];
    } else {
      var e, h' := run[0], Step(h, run[0]);
      StepFansOut(h, e, id);
      FanOut(h', run[1..], id);
      Splice(q, if e.Broadcast? && !Dropped(h, e, id) then [e.data] else [],
             DrainedBy(h, e, id), h'.links[id].queue,
             Taken(h', run[1..], id), Drained(h', run[1..], id), Run(h, run).links[id].queue);
    }
  }

  /** Losses are gaps only, and only a queue that holds 256 messages makes one: the
      broadcasts taken are a subsequence of all broadcasts, short of it by one per
      broadcast that found the queue full. */
  lemma {:induction false} GapsAreFullQueues(h: HubState, run: seq<Event>, id: uint32)
    ensures IsSubsequence(Taken(h, run, id), Broadcasts(run))
    ensures |Taken(h, run, id)| + Drops(h, run, id) == |Broadcasts(run)|
    decreases |run|
  {
    if run != [] {
      var h' := Step(h, run[0]);
      var taken, all := Taken(h', run[1..], id), Broadcasts(run[1..]);
      GapsAreFullQueues(h', run[1..], id);
      if run[0].Broadcast? {
        assert ([run[0].data] + all)[1..] == all;
        assert ([run[0].data] + taken)[1..] == taken;
        EmptyEnds(taken);
      } else {
        EmptyEnds(taken);
        EmptyEnds(all);
      }
    }
  }

  /** Nothing is lost exactly when no broadcast finds the queue full. */
  lemma {:induction false} NothingLostIffNoDrop(h: HubState, run: seq<Event>, id: uint32)
    ensures Taken(h, run, id) == Broadcasts(run) <==> Drops(h, run, id) == 0
    decreases |run|
  {
    GapsAreFullQueues(h, run, id);
    if run != [] && Drops(h, run, id) == 0 {
      NothingLostIffNoDrop(Step(h, run[0]), run[1..], id);
    }
  }
}
