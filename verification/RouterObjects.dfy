/** The router's methods, called one after another: runs over the objects are the
    runs of `RouterRuns`. */
module RouterObjects {
  import opened Bytes
  import opened Rings
  import opened Routing
  import opened Routers
  import Sessions

  lemma StepReplaces(cfg: Config, st: RouterState, id: uint32)
    requires cfg.Valid() && st.Valid()
    ensures Step(cfg, st, RegisterBuffer(id)).0 == st.(rings := st.rings[id := Fresh(cfg.marks.size)])
  {
  }

  method Register(r: Router, id: uint32, ghost st: RouterState)
    requires r.Valid() && st.Valid() && r.Shows(st)
    modifies r`buffers
    ensures r.Valid() && r.Shows(Step(r.Cfg(), st, RegisterBuffer(id)).0)
    ensures forall o :: o in r.Footprint() ==> o in old(r.Footprint()) || fresh(o)
  {
    StepReplaces(r.Cfg(), st, id);
    var rb := r.RegisterBuffer(id);
    r.ShowsRing(st, id, Fresh(r.marks.size));
  }

  method Unregister(r: Router, id: uint32, ghost st: RouterState)
    requires r.Valid() && st.Valid() && r.Shows(st)
    modifies r`buffers
    ensures r.Valid() && r.Shows(Step(r.Cfg(), st, UnregisterBuffer(id)).0)
    ensures r.Footprint() <= old(r.Footprint())
  {
    BelongingWithout(r.sessionMgr.sessions, r.buffers, id);
    r.UnregisterBuffer(id);
  }

  method WriteTo(r: Router, id: uint32, rb: RingBuffer, p: seq<byte>, ghost st: RouterState)
    requires r.Valid() && st.Valid() && r.Shows(st) && id in r.buffers && rb == r.buffers[id]
    modifies rb`write, rb.data
    ensures r.Valid() && r.Shows(Step(r.Cfg(), st, Write(id, p)).0)
    ensures r.sent == old(r.sent) && r.Footprint() == old(r.Footprint())
  {
    var _, _ := r.WriteBuffer(id, rb, p);
    r.ShowsRing(st, id, WriteRing(st.rings[id], p, r.mode).ring);
  }

  method CloseOne(r: Router, id: uint32, rb: RingBuffer, ghost st: RouterState)
    requires r.Valid() && st.Valid() && r.Shows(st) && id in r.buffers && rb == r.buffers[id]
    modifies rb`closed
    ensures r.Valid() && r.Shows(Step(r.Cfg(), st, CloseBuffer(id)).0)
    ensures r.sent == old(r.sent) && r.Footprint() == old(r.Footprint())
  {
    rb.Close();
  }

  /** A session that is not slow joins the registry the router looks into. */
  method Join(r: Router, s: Sessions.Session, ghost st: RouterState)
    requires r.Valid() && st.Valid() && r.Shows(st) && !s.isSlow
    modifies r.sessionMgr
    ensures r.Valid() && r.Shows(Step(r.Cfg(), st, AddSession(s.sessionId)).0)
    ensures r.Footprint() <= old(r.Footprint()) + {s}
  {
    BelongingWithSession(r.sessionMgr.sessions, r.buffers, s.sessionId, s);
    r.sessionMgr.Register(s);
  }

  method Leave(r: Router, id: uint32, ghost st: RouterState)
    requires r.Valid() && st.Valid() && r.Shows(st)
    modifies r.sessionMgr
    ensures r.Valid() && r.Shows(Step(r.Cfg(), st, DropSession(id)).0)
    ensures r.Footprint() <= old(r.Footprint())
  {
    BelongingWithout(r.sessionMgr.sessions, r.buffers, id);
    r.sessionMgr.Unregister(id);
  }

  lemma StepIsTick(cfg: Config, st: RouterState, order: seq<uint32>)
    requires cfg.Valid() && st.Valid() && Enabled(st, Tick(order))
    ensures Step(cfg, st, Tick(order)) == RunTick(cfg, st, order)
  {
  }

  method TickOver(r: Router, order: seq<uint32>, ghost st: RouterState)
    requires r.Valid() && st.Valid() && r.Shows(st) && Enabled(st, Tick(order))
    modifies r.Footprint()
    ensures r.Valid() && r.Shows(Step(r.Cfg(), st, Tick(order)).0)
    ensures r.sent == old(r.sent) + Wires(Step(r.Cfg(), st, Tick(order)).1)
    ensures forall o :: o in r.Footprint() ==> o in old(r.Footprint()) || fresh(o)
  {
    StepIsTick(r.Cfg(), st, order);
    r.Aggregate(order, st);
  }

  /** A call on a buffer, if the id has one. */
  method PerformOnBuffer(r: Router, e: Event, ghost st: RouterState)
    requires r.Valid() && st.Valid() && r.Shows(st) && (e.Write? || e.CloseBuffer?)
    modifies r.Footprint()
    ensures r.Valid() && r.Shows(Step(r.Cfg(), st, e).0)
    ensures r.sent == old(r.sent) && r.Footprint() == old(r.Footprint())
  {
    NothingSent(r.Cfg(), st, e);
    if e.id in r.buffers {
      match e
      case Write(id, p) => WriteTo(r, id, r.buffers[id], p, st);
      case CloseBuffer(id) => CloseOne(r, id, r.buffers[id], st);
    }
  }

  /** Any one call. */
  method Perform(r: Router, e: Event, ghost st: RouterState)
    requires r.Valid() && st.Valid() && r.Shows(st) && Enabled(st, e)
    modifies r.Footprint()
    ensures r.Valid() && r.Shows(Step(r.Cfg(), st, e).0)
    ensures r.sent == old(r.sent) + Wires(Step(r.Cfg(), st, e).1)
    ensures forall o :: o in r.Footprint() ==> o in old(r.Footprint()) || fresh(o)
  {
    EmptyEnds(r.sent);
    NothingSent(r.Cfg(), st, e);
    match e
    case AddSession(id) =>
      var s := new Sessions.Session(id, 0);
      Join(r, s, st);
    case DropSession(id) => Leave(r, id, st);
    case Tick(order) => TickOver(r, order, st);
    case RegisterBuffer(id) => Register(r, id, st);
    case UnregisterBuffer(id) => Unregister(r, id, st);
    case _ => PerformOnBuffer(r, e, st);
  }

  lemma NothingSent(cfg: Config, st: RouterState, e: Event)
    requires cfg.Valid() && st.Valid() && Enabled(st, e)
    ensures !e.Tick? ==> Wires(Step(cfg, st, e).1) == []
    ensures (e.Write? || e.CloseBuffer?) && e.id !in st.rings ==> Step(cfg, st, e).0 == st
  {
  }

  /** Any sequence of calls leads the objects where the run leads the state, and
      hands the hub the bytes of the run's messages. */
  method PerformAll(r: Router, run: seq<Event>, ghost st: RouterState)
    requires r.Valid() && st.Valid() && r.Shows(st) && AllEnabled(r.Cfg(), st, run)
    modifies r.Footprint()
    ensures r.Valid() && r.Shows(Run(r.Cfg(), st, run).0)
    ensures r.sent == old(r.sent) + Wires(Run(r.Cfg(), st, run).1)
    ensures forall o :: o in r.Footprint() ==> o in old(r.Footprint()) || fresh(o)
    decreases |run|
  {
    ghost var was := r.sent;
    if run == [] {
      EmptyEnds(was);
      assert Wires([]) == [];
    } else {
      ghost var first := Step(r.Cfg(), st, run[0]);
      WiresBehind(was, first.1, Run(r.Cfg(), first.0, run[1..]).1);
      Perform(r, run[0], st);
      PerformAll(r, run[1..], first.0);
    }
  }
}
