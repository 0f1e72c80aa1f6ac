/** From the buffers of the gateway to the bytes a browser decodes: the router, the
    hub and the decoders put together. */
module EndToEnd {
  import opened Bytes
  import opened Routing
  import opened RouterRuns
  import opened WarningReader
  import Hubs
  import EchoLock

  /** A slow warning goes through the browser's worker to the page, whatever is locked:
      one frame of kind 6, whose text says which session and whether it is slow. */
  lemma WarningReachesPage(w: EchoLock.Worker, id: uint32, isSlow: bool, json: bool)
    ensures var (v, ps) := EchoLock.OnMessage(w, Wire(Warning(id, isSlow)), json);
            && v == w && |ps| == 1 && ps[0].Whole? && ps[0].frame.kind == 0x06
            && |ps[0].frame.sessions| == 1
            && ReadWarning(ps[0].frame.sessions[0].data) == Some((id, isSlow))
  {
    WarningArrives(id, isSlow);
  }

  /** Every broadcast that finds the connection's queue full carries nothing for the
      session: a slow warning, or other sessions' output. */
  ghost predicate DropsNothingOf(h: Hubs.HubState, run: seq<Hubs.Event>, conn: uint32, id: uint32)
    decreases |run|
  {
    run == [] ||
    ((Hubs.Dropped(h, run[0], conn) ==> Delivered(run[0].data, id) == []) &&
     DropsNothingOf(Hubs.Step(h, run[0]), run[1..], conn, id))
  }

  lemma DeliveredCons(wire: seq<byte>, wires: seq<seq<byte>>, id: uint32)
    ensures DeliveredAll([wire] + wires, id) == Delivered(wire, id) + DeliveredAll(wires, id)
  {
    assert ([wire] + wires)[1..] == wires;
  }

  /** What the connection takes decodes to less for the session by what the full
      queue drops of it. */
  lemma {:induction false} TakenDelivers(h: Hubs.HubState, run: seq<Hubs.Event>, conn: uint32, id: uint32)
    ensures DeliveredAll(Hubs.Taken(h, run, conn), id) == DeliveredAll(Hubs.Broadcasts(run), id)
            <==> DropsNothingOf(h, run, conn, id)
    ensures |DeliveredAll(Hubs.Taken(h, run, conn), id)| <= |DeliveredAll(Hubs.Broadcasts(run), id)|
    decreases |run|
  {
    if run != [] {
      var e, h' := run[0], Hubs.Step(h, run[0]);
      var taken, all := Hubs.Taken(h', run[1..], conn), Hubs.Broadcasts(run[1..]);
      TakenDelivers(h', run[1..], conn, id);
      EmptyEnds(taken);
      EmptyEnds(all);
      if e.Broadcast? {
        DeliveredCons(e.data, all, id);
        DeliveredCons(e.data, taken, id);
        SameBehind(Delivered(e.data, id), DeliveredAll(taken, id), DeliveredAll(all, id));
      }
    }
  }

  lemma SameBehind(head: seq<byte>, a: seq<byte>, b: seq<byte>)
    ensures head + a == head + b <==> a == b
    ensures a == head + b ==> head == [] || |a| > |b|
    ensures head == [] ==> head + b == b
  {
    if head + a == head + b {
      assert a == (head + a)[|head|..] && b == (head + b)[|head|..];
    }
  }

  lemma SameInFront(a: seq<byte>, b: seq<byte>, tail: seq<byte>)
    ensures a + tail == b + tail <==> a == b
  {
    if a + tail == b + tail {
      assert |a| == |b| && a == (a + tail)[..|a|] && b == (b + tail)[..|b|];
    }
  }

  /** A browser connected before the run, with an empty queue: what has been sent to
      it, with what is still queued for it, decodes to every byte the session's buffer
      held or accepted, in order, but for those still in the buffer, exactly when no
      broadcast that finds the queue full carries output of the session. The router's
      run and the hub's may interleave in any way in which the hub broadcasts what the
      router hands it. */
  lemma BrowserGetsEverythingIff(cfg: Config, st: RouterState, run: seq<Event>, id: uint32,
                                 h: Hubs.HubState, hubRun: seq<Hubs.Event>, conn: uint32)
    requires cfg.Valid() && st.Valid() && AllEnabled(cfg, st, run)
    requires id in st.rings && st.rings[id].Bounded() && KeepsBuffer(run, id)
    requires AllFitFor(cfg, st, run, id) && AllNarrow(cfg, st, run)
    requires Hubs.Sound(h) && conn in h.links && h.links[conn].queue == [] && Hubs.Unregister(conn) !in hubRun
    requires h.registered + Hubs.Registrations(hubRun) < h.links[conn].serial + Hubs.ID_SPACE
    requires Hubs.Broadcasts(hubRun) == Wires(Run(cfg, st, run).1)
    ensures var left := Run(cfg, st, run).0.rings;
            var links := Hubs.Run(h, hubRun).links;
            && conn in links && id in left
            && (st.rings[id].Contents() + Accepted(cfg, st, run, id) ==
                DeliveredAll(Hubs.Drained(h, hubRun, conn) + links[conn].queue, id) + left[id].Contents()
                <==> DropsNothingOf(h, hubRun, conn, id))
  {
    Conservation(cfg, st, run, id);
    Hubs.FanOut(h, hubRun, conn);
    EmptyEnds(Hubs.Taken(h, hubRun, conn));
    TakenDelivers(h, hubRun, conn, id);
    SameInFront(Received(cfg, st, run, id), DeliveredAll(Hubs.Taken(h, hubRun, conn), id),
                Run(cfg, st, run).0.rings[id].Contents());
  }
}
