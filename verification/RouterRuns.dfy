/** What holds over every run of writes, ticks and registrations of the router. */
module RouterRuns {
  import opened Bytes
  import opened Rings
  import opened Codec
  import opened Routing

  predicate ReplacesBuffer(e: Event, id: uint32) {
    e == RegisterBuffer(id) || e == UnregisterBuffer(id)
  }

  predicate ReplacesSession(e: Event, id: uint32) {
    e == AddSession(id) || e == DropSession(id)
  }

  /** The run keeps one and the same buffer, or session, for `id`. */
  predicate KeepsBuffer(run: seq<Event>, id: uint32) {
    forall e | e in run :: !ReplacesBuffer(e, id)
  }

  predicate KeepsSession(run: seq<Event>, id: uint32) {
    forall e | e in run :: !ReplacesSession(e, id)
  }

  /** The bytes of the event that `Write` says it has accepted for `id`. */
  function AcceptedHere(cfg: Config, st: RouterState, e: Event, id: uint32): seq<byte>
    requires id in st.rings ==> 0 < |st.rings[id].mem| && st.rings[id].read <= st.rings[id].write
  {
    if e.Write? && e.id == id && id in st.rings
    then e.p[..WriteRing(st.rings[id], e.p, cfg.mode).n]
    else []
  }

  ghost function Accepted(cfg: Config, st: RouterState, run: seq<Event>, id: uint32): seq<byte>
    requires cfg.Valid() && st.Valid() && AllEnabled(cfg, st, run)
    decreases |run|
  {
    if run == [] then []
    else AcceptedHere(cfg, st, run[0], id) + Accepted(cfg, Step(cfg, st, run[0]).0, run[1..], id)
  }

  ghost predicate FitsHere(cfg: Config, st: RouterState, e: Event, id: uint32)
    requires st.Valid()
  {
    e.Write? && e.id == id && id in st.rings ==> Fits(st.rings[id], |e.p|, cfg.mode)
  }

  /** Every write to `id` stays inside the free space it finds. */
  ghost predicate AllFitFor(cfg: Config, st: RouterState, run: seq<Event>, id: uint32)
    requires cfg.Valid() && st.Valid() && AllEnabled(cfg, st, run)
    decreases |run|
  {
    run == [] ||
    (FitsHere(cfg, st, run[0], id) && AllFitFor(cfg, Step(cfg, st, run[0]).0, run[1..], id))
  }

  /** At every tick of the run at most 255 sessions contribute. */
  ghost predicate AllNarrow(cfg: Config, st: RouterState, run: seq<Event>)
    requires cfg.Valid() && st.Valid() && AllEnabled(cfg, st, run)
    decreases |run|
  {
    run == [] ||
    ((run[0].Tick? ==> Contributors(cfg, st, run[0].order) <= 0xff) &&
     AllNarrow(cfg, Step(cfg, st, run[0]).0, run[1..]))
  }

  /** What the receivers of a run's messages get for `id`. */
  ghost function Received(cfg: Config, st: RouterState, run: seq<Event>, id: uint32): seq<byte>
    requires cfg.Valid() && st.Valid() && AllEnabled(cfg, st, run)
  {
    DeliveredAll(Wires(Run(cfg, st, run).1), id)
  }

  lemma ReceivedAppend(log1: seq<Cast>, log2: seq<Cast>, id: uint32)
    ensures DeliveredAll(Wires(log1 + log2), id) == DeliveredAll(Wires(log1), id) + DeliveredAll(Wires(log2), id)
  {
    WiresAppend(log1, log2);
    DeliveredAllAppend(Wires(log1), Wires(log2), id);
  }

  /** A run is its first event and then the rest of it. */
  lemma RunUnfolds(cfg: Config, st: RouterState, run: seq<Event>, id: uint32)
    requires cfg.Valid() && st.Valid() && AllEnabled(cfg, st, run) && run != []
    ensures var (mid, log) := Step(cfg, st, run[0]);
            && Run(cfg, st, run).0 == Run(cfg, mid, run[1..]).0
            && Received(cfg, st, run, id) == DeliveredAll(Wires(log), id) + Received(cfg, mid, run[1..], id)
            && WarningsFor(Run(cfg, st, run).1, id) ==
               WarningsFor(log, id) + WarningsFor(Run(cfg, mid, run[1..]).1, id)
  {
    var (mid, log1) := Step(cfg, st, run[0]);
    var log2 := Run(cfg, mid, run[1..]).1;
    ReceivedAppend(log1, log2, id);
    WarningsForAppend(log1, log2, id);
  }

  /** The same, put together from the two. */
  lemma RunCons(cfg: Config, st: RouterState, e: Event, rest: seq<Event>)
    requires cfg.Valid() && st.Valid() && Enabled(st, e) && AllEnabled(cfg, Step(cfg, st, e).0, rest)
    ensures AllEnabled(cfg, st, [e] + rest)
    ensures Run(cfg, st, [e] + rest).0 == Run(cfg, Step(cfg, st, e).0, rest).0
  {
    assert ([e] + rest)[1..] == rest;
  }

  // -------------------------------------------------------- one step, for id

  lemma VisitConserves(cfg: Config, r: Ring, slow: bool)
    requires r.Valid()
    ensures var v := VisitSession(cfg, r, slow);
            && v.ring.Valid() && |v.ring.mem| == |r.mem| && v.ring.Unread() <= r.Unread()
            && r.Contents() == v.out + v.ring.Contents()
  {
    ReadTakesFront(r, cfg.scratch);
  }

  /** A tick, as one session's buffer sees it. */
  lemma SweepConserves(cfg: Config, st: RouterState, order: seq<uint32>, id: uint32)
    requires cfg.Valid() && st.Valid() && Enabled(st, Tick(order)) && id in st.rings
    ensures var s := SweepAll(cfg, st, order);
            && |s.st.rings[id].mem| == |st.rings[id].mem|
            && s.st.rings[id].Unread() <= st.rings[id].Unread()
            && st.rings[id].Contents() == DataFor(s.blocks, id) + s.st.rings[id].Contents()
  {
    SweepIsPointwise(cfg, st, order, id);
    if id in st.slow {
      VisitConserves(cfg, st.rings[id], st.slow[id]);
    }
  }

  lemma TickConserves(cfg: Config, st: RouterState, order: seq<uint32>, id: uint32)
    requires cfg.Valid() && st.Valid() && Enabled(st, Tick(order))
    requires id in st.rings && Contributors(cfg, st, order) <= 0xff
    ensures var (st', log) := RunTick(cfg, st, order);
            && |st'.rings[id].mem| == |st.rings[id].mem|
            && st'.rings[id].Unread() <= st.rings[id].Unread()
            && st.rings[id].Contents() == DeliveredAll(Wires(log), id) + st'.rings[id].Contents()
  {
    TickDelivers(cfg, st, order, id);
    SweepConserves(cfg, st, order, id);
    BlocksAreContributors(cfg, st, order);
    WholePrefix(SweepAll(cfg, st, order).blocks);
  }

  /** An event other than a tick, as one session's buffer sees it. */
  lemma EventConserves(cfg: Config, st: RouterState, e: Event, id: uint32)
    requires cfg.Valid() && st.Valid() && !e.Tick?
    requires id in st.rings && st.rings[id].Bounded() && !ReplacesBuffer(e, id)
    requires FitsHere(cfg, st, e, id)
    ensures var (st', log) := Step(cfg, st, e);
            && log == [] && id in st'.rings && st'.rings[id].Bounded()
            && st.rings[id].Contents() + AcceptedHere(cfg, st, e, id) == st'.rings[id].Contents()
  {
    var r := st.rings[id];
    EmptyEnds(r.Contents());
    match e
    case Write(at, p) =>
      if at == id { WriteKeepsIffFits(r, p, cfg.mode); }
    case CloseBuffer(at) =>
      assert r.(closed := true).Contents() == r.Contents();
    case _ =>
  }

  lemma StepConserves(cfg: Config, st: RouterState, e: Event, id: uint32)
    requires cfg.Valid() && st.Valid() && Enabled(st, e)
    requires id in st.rings && st.rings[id].Bounded() && !ReplacesBuffer(e, id)
    requires FitsHere(cfg, st, e, id)
    requires e.Tick? ==> Contributors(cfg, st, e.order) <= 0xff
    ensures var (st', log) := Step(cfg, st, e);
            && id in st'.rings && st'.rings[id].Bounded()
            && st.rings[id].Contents() + AcceptedHere(cfg, st, e, id) ==
               DeliveredAll(Wires(log), id) + st'.rings[id].Contents()
  {
    var was := st.rings[id].Contents();
    if e.Tick? {
      TickConserves(cfg, st, e.order, id);
      EmptyEnds(was);
    } else {
      EventConserves(cfg, st, e, id);
      EmptyEnds(was + AcceptedHere(cfg, st, e, id));
    }
  }

  /** Conservation, end to end, for either way of writing, any scratch length and
      any treatment of slow sessions: as long as `id` keeps its buffer, its writes
      fit and at most 255 sessions contribute to a tick, what was in the buffer and
      what was accepted since is, in order and without loss, what the receiver
      decodes from the broadcast bytes followed by what is still in the buffer.
      Writes, ticks and registrations of other sessions may come in any number and
      order. */
  lemma {:induction false} Conservation(cfg: Config, st: RouterState, run: seq<Event>, id: uint32)
    requires cfg.Valid() && st.Valid() && AllEnabled(cfg, st, run)
    requires id in st.rings && st.rings[id].Bounded() && KeepsBuffer(run, id)
    requires AllFitFor(cfg, st, run, id) && AllNarrow(cfg, st, run)
    ensures var end := Run(cfg, st, run).0;
            && id in end.rings && end.rings[id].Bounded()
            && st.rings[id].Contents() + Accepted(cfg, st, run, id) ==
               Received(cfg, st, run, id) + end.rings[id].Contents()
    decreases |run|
  {
    if run == [] {
      assert st.rings[id].Contents() + [] == [] + st.rings[id].Contents();
    } else {
      var e, rest := run[0], run[1..];
      assert e in run;
      var (mid, log) := Step(cfg, st, e);
      StepConserves(cfg, st, e, id);
      Conservation(cfg, mid, rest, id);
      RunUnfolds(cfg, st, run, id);
      Splice(st.rings[id].Contents(), AcceptedHere(cfg, st, e, id), DeliveredAll(Wires(log), id),
             mid.rings[id].Contents(), Accepted(cfg, mid, rest, id), Received(cfg, mid, rest, id),
             Run(cfg, mid, rest).0.rings[id].Contents());
    }
  }

  // ------------------------------------------- the conditions of conservation

  /** The bound of `id`'s buffer holds before, between and after the events. */
  ghost predicate BoundedFor(cfg: Config, st: RouterState, run: seq<Event>, id: uint32)
    requires cfg.Valid() && st.Valid() && AllEnabled(cfg, st, run)
    decreases |run|
  {
    && (id in st.rings ==> st.rings[id].Bounded())
    && (run == [] || BoundedFor(cfg, Step(cfg, st, run[0]).0, run[1..], id))
  }

  /** The buffer of `id` stays within its bound over the whole run exactly when
      every write to it fits. */
  lemma {:induction false} BoundedForIffAllFit(cfg: Config, st: RouterState, run: seq<Event>, id: uint32)
    requires cfg.Valid() && st.Valid() && AllEnabled(cfg, st, run)
    requires id in st.rings ==> st.rings[id].Bounded()
    ensures AllFitFor(cfg, st, run, id) <==> BoundedFor(cfg, st, run, id)
    decreases |run|
  {
    if run != [] {
      var e := run[0];
      var next := Step(cfg, st, e).0;
      if FitsHere(cfg, st, e, id) {
        StepStaysBounded(cfg, st, e, id);
        BoundedForIffAllFit(cfg, next, run[1..], id);
      } else {
        OverrunReplacesOldest(st.rings[id], e.p, cfg.mode);
        assert !BoundedFor(cfg, next, run[1..], id);
      }
    }
  }

  lemma StepStaysBounded(cfg: Config, st: RouterState, e: Event, id: uint32)
    requires cfg.Valid() && st.Valid() && Enabled(st, e)
    requires (id in st.rings ==> st.rings[id].Bounded()) && FitsHere(cfg, st, e, id)
    ensures var next := Step(cfg, st, e).0; id in next.rings ==> next.rings[id].Bounded()
  {
    if id in st.rings {
      match e
      case Tick(order) =>
        SweepConserves(cfg, st, order, id);
      case Write(at, p) =>
        if at == id { WriteKeepsIffFits(st.rings[id], p, cfg.mode); }
      case _ =>
    }
  }

  /** With the wrapping write every write fits, in every run. */
  lemma {:induction false} WrappingAllFitFor(cfg: Config, st: RouterState, run: seq<Event>, id: uint32)
    requires cfg.Valid() && cfg.mode == Wrapping && st.Valid() && AllEnabled(cfg, st, run)
    requires id in st.rings ==> st.rings[id].Bounded()
    ensures AllFitFor(cfg, st, run, id)
    decreases |run|
  {
    if run != [] {
      StepStaysBounded(cfg, st, run[0], id);
      WrappingAllFitFor(cfg, Step(cfg, st, run[0]).0, run[1..], id);
    }
  }

  lemma {:induction false} ContributorsAtMostOrder(cfg: Config, st: RouterState, order: seq<uint32>)
    requires st.Valid()
    ensures Contributors(cfg, st, order) <= |order|
  {
    if order != [] {
      ContributorsAtMostOrder(cfg, st, order[..|order| - 1]);
    }
  }

  /** At most 255 buffers are registered whenever a tick happens. */
  ghost predicate FewBuffers(cfg: Config, st: RouterState, run: seq<Event>)
    requires cfg.Valid() && st.Valid() && AllEnabled(cfg, st, run)
    decreases |run|
  {
    run == [] ||
    ((run[0].Tick? ==> |run[0].order| <= 0xff) && FewBuffers(cfg, Step(cfg, st, run[0]).0, run[1..]))
  }

  lemma {:induction false} FewBuffersNarrow(cfg: Config, st: RouterState, run: seq<Event>)
    requires cfg.Valid() && st.Valid() && AllEnabled(cfg, st, run) && FewBuffers(cfg, st, run)
    ensures AllNarrow(cfg, st, run)
    decreases |run|
  {
    if run != [] {
      if run[0].Tick? {
        ContributorsAtMostOrder(cfg, st, run[0].order);
      }
      FewBuffersNarrow(cfg, Step(cfg, st, run[0]).0, run[1..]);
    }
  }

  /** The designed router (wrapping write, 4096-byte scratch, slow sessions
      drained) conserves every run from a new buffer, with at most 255 buffers. */
  lemma DesignedConservation(st: RouterState, run: seq<Event>, id: uint32)
    requires st.Valid() && AllEnabled(AS_DESIGNED, st, run) && FewBuffers(AS_DESIGNED, st, run)
    requires id in st.rings && st.rings[id] == Fresh(BUFFER_SIZE) && KeepsBuffer(run, id)
    ensures var end := Run(AS_DESIGNED, st, run).0;
            && id in end.rings && end.rings[id].Bounded()
            && Accepted(AS_DESIGNED, st, run, id) ==
               Received(AS_DESIGNED, st, run, id) + end.rings[id].Contents()
  {
    WrappingAllFitFor(AS_DESIGNED, st, run, id);
    FewBuffersNarrow(AS_DESIGNED, st, run);
    Conservation(AS_DESIGNED, st, run, id);
    var accepted := Accepted(AS_DESIGNED, st, run, id);
    assert st.rings[id].Contents() + accepted == accepted;
  }

  /** With the zero-length scratch slice that `Pool.Get` returns, no run ever
      delivers a byte of output to anyone. */
  lemma {:induction false} EmptyScratchDeliversNothing(cfg: Config, st: RouterState, run: seq<Event>, id: uint32)
    requires cfg.Valid() && cfg.scratch == 0 && st.Valid() && AllEnabled(cfg, st, run)
    ensures Received(cfg, st, run, id) == []
    decreases |run|
  {
    if run != [] {
      EmptyScratchStep(cfg, st, run[0], id);
      EmptyScratchDeliversNothing(cfg, Step(cfg, st, run[0]).0, run[1..], id);
      RunUnfolds(cfg, st, run, id);
    }
  }

  lemma EmptyScratchStep(cfg: Config, st: RouterState, e: Event, id: uint32)
    requires cfg.Valid() && cfg.scratch == 0 && st.Valid() && Enabled(st, e)
    ensures DeliveredAll(Wires(Step(cfg, st, e).1), id) == []
  {
    if e.Tick? {
      EmptyScratchSweep(cfg, st, e.order);
      TickDelivers(cfg, st, e.order, id);
    }
  }

  lemma {:induction false} EmptyScratchSweep(cfg: Config, st: RouterState, order: seq<uint32>)
    requires cfg.scratch == 0 && st.Valid() && forall i | i in order :: i in st.rings
    ensures SweepAll(cfg, st, order).blocks == []
  {
    if order != [] {
      EmptyScratchSweep(cfg, st, order[..|order| - 1]);
    }
  }

  // -------------------------------------------------------------- hysteresis

  /** Both watermarks, as the design reads them: at or above High slow, at or
      below Low normal, in between unchanged; one warning per change. No output
      is taken from a session that is slow, unless slow sessions are drained. */
  lemma TickFollowsWatermarks(cfg: Config, st: RouterState, order: seq<uint32>, id: uint32)
    requires cfg.Valid() && st.Valid() && Enabled(st, Tick(order))
    requires id in st.rings && id in st.slow
    ensures var s := SweepAll(cfg, st, order);
            var unread := st.rings[id].Unread();
            && (unread >= cfg.marks.high ==> s.st.slow[id])
            && (unread <= cfg.marks.low ==> !s.st.slow[id])
            && (cfg.marks.low < unread < cfg.marks.high ==> s.st.slow[id] == st.slow[id])
            && WarningsFor(s.casts, id) == (if s.st.slow[id] == st.slow[id] then [] else [s.st.slow[id]])
            && (s.st.slow[id] && !cfg.drainsSlow ==>
                  DataFor(s.blocks, id) == [] && s.st.rings[id] == st.rings[id])
            && (!(s.st.slow[id] && !cfg.drainsSlow) ==>
                  |DataFor(s.blocks, id)| == Min(cfg.scratch, unread)
                  && s.st.rings[id].Unread() == unread - Min(cfg.scratch, unread))
  {
    SweepIsPointwise(cfg, st, order, id);
    ReadTakesFront(st.rings[id], cfg.scratch);
  }

  /** `warnings` lead from the flag `start` to the flag `end`, each one the
      opposite of what was known before. */
  predicate Alternates(start: bool, warnings: seq<bool>, end: bool)
    decreases |warnings|
  {
    if warnings == [] then start == end
    else warnings[0] == !start && Alternates(warnings[0], warnings[1..], end)
  }

  lemma {:induction false} AlternatesAppend(start: bool, a: seq<bool>, mid: bool, b: seq<bool>, end: bool)
    requires Alternates(start, a, mid) && Alternates(mid, b, end)
    ensures Alternates(start, a + b, end)
    decreases |a|
  {
    if a == [] {
      assert a + b == b;
    } else {
      assert (a + b)[1..] == a[1..] + b;
      AlternatesAppend(a[0], a[1..], mid, b, end);
    }
  }

  lemma VisitAlternates(cfg: Config, r: Ring, slow: bool)
    requires r.Valid()
    ensures var v := VisitSession(cfg, r, slow); Alternates(slow, v.warned, v.slow)
  {
    var w := VisitSession(cfg, r, slow).warned;
    assert w != [] ==> w[1..] == [];
  }

  /** A tick broadcasts the warnings of its sweep and no others. */
  lemma TickWarnings(cfg: Config, st: RouterState, order: seq<uint32>, id: uint32)
    requires st.Valid() && forall i | i in order :: i in st.rings
    ensures WarningsFor(RunTick(cfg, st, order).1, id) == WarningsFor(SweepAll(cfg, st, order).casts, id)
  {
    var s := SweepAll(cfg, st, order);
    WarningsForAppend(s.casts, OutputCasts(s.blocks), id);
    assert WarningsFor(OutputCasts(s.blocks), id) == [];
  }

  lemma StepAlternates(cfg: Config, st: RouterState, e: Event, id: uint32)
    requires cfg.Valid() && st.Valid() && Enabled(st, e)
    requires id in st.slow && !ReplacesSession(e, id)
    ensures var (st', log) := Step(cfg, st, e);
            id in st'.slow && Alternates(st.slow[id], WarningsFor(log, id), st'.slow[id])
  {
    if e.Tick? {
      TickWarnings(cfg, st, e.order, id);
      SweepIsPointwise(cfg, st, e.order, id);
      if id in st.rings {
        VisitAlternates(cfg, st.rings[id], st.slow[id]);
      }
    }
  }

  /** Over every run in which the session stays the same, its slow warnings
      strictly alternate, from its first flag to its last: a receiver that starts
      from the first flag knows the flag at all times. */
  lemma {:induction false} WarningsAlternate(cfg: Config, st: RouterState, run: seq<Event>, id: uint32)
    requires cfg.Valid() && st.Valid() && AllEnabled(cfg, st, run)
    requires id in st.slow && KeepsSession(run, id)
    ensures var (end, log) := Run(cfg, st, run);
            id in end.slow && Alternates(st.slow[id], WarningsFor(log, id), end.slow[id])
    decreases |run|
  {
    if run != [] {
      var e, rest := run[0], run[1..];
      assert e in run;
      var (mid, log1) := Step(cfg, st, e);
      StepAlternates(cfg, st, e, id);
      WarningsAlternate(cfg, mid, rest, id);
      var (end, log2) := Run(cfg, mid, rest);
      WarningsForAppend(log1, log2, id);
      AlternatesAppend(st.slow[id], WarningsFor(log1, id), mid.slow[id], WarningsFor(log2, id), end.slow[id]);
    }
  }

  // ---------------------------------------------------------------- liveness

  /** The slow session `id` stays above the low mark. */
  ghost predicate Stuck(cfg: Config, st: RouterState, id: uint32)
    requires st.Valid()
  {
    id in st.slow && st.slow[id] && id in st.rings && st.rings[id].Unread() > cfg.marks.low
  }

  lemma StuckStep(cfg: Config, st: RouterState, e: Event, id: uint32)
    requires cfg.Valid() && !cfg.drainsSlow && st.Valid() && Enabled(st, e)
    requires Stuck(cfg, st, id) && !ReplacesBuffer(e, id) && !ReplacesSession(e, id)
    ensures var (st', log) := Step(cfg, st, e);
            && Stuck(cfg, st', id)
            && st'.rings[id].Unread() >= st.rings[id].Unread()
            && WarningsFor(log, id) == []
            && (e.Tick? ==> DataFor(SweepAll(cfg, st, e.order).blocks, id) == [])
  {
    if e.Tick? {
      TickFollowsWatermarks(cfg, st, e.order, id);
      TickWarnings(cfg, st, e.order, id);
    }
  }

  /** As written the tick is the only reader and passes slow sessions over, so a
      session that is slow and above the low mark stays slow for ever: in every run
      that keeps its buffer and session it gets no output and no further warning. */
  lemma {:induction false} SlowForever(cfg: Config, st: RouterState, run: seq<Event>, id: uint32)
    requires cfg.Valid() && !cfg.drainsSlow && st.Valid() && AllEnabled(cfg, st, run)
    requires Stuck(cfg, st, id) && KeepsBuffer(run, id) && KeepsSession(run, id)
    ensures var (end, log) := Run(cfg, st, run);
            && Stuck(cfg, end, id)
            && end.rings[id].Unread() >= st.rings[id].Unread()
            && WarningsFor(log, id) == []
            && Received(cfg, st, run, id) == []
    decreases |run|
  {
    if run != [] {
      var e, rest := run[0], run[1..];
      assert e in run;
      StuckStep(cfg, st, e, id);
      IdleStepDelivers(cfg, st, e, id);
      SlowForever(cfg, Step(cfg, st, e).0, rest, id);
      RunUnfolds(cfg, st, run, id);
    }
  }

  lemma PrefixHasNoData(blocks: seq<SessionBlock>, n: nat, id: uint32)
    requires n <= |blocks| && DataFor(blocks, id) == []
    ensures DataFor(blocks[..n], id) == []
  {
    assert blocks == blocks[..n] + blocks[n..];
    DataForAppend(blocks[..n], blocks[n..], id);
  }

  lemma IdleTickDelivers(cfg: Config, st: RouterState, order: seq<uint32>, id: uint32)
    requires cfg.Valid() && st.Valid() && Enabled(st, Tick(order))
    requires DataFor(SweepAll(cfg, st, order).blocks, id) == []
    ensures DeliveredAll(Wires(RunTick(cfg, st, order).1), id) == []
  {
    var blocks := SweepAll(cfg, st, order).blocks;
    TickDelivers(cfg, st, order, id);
    PrefixHasNoData(blocks, |blocks| % 0x100, id);
  }

  lemma IdleStepDelivers(cfg: Config, st: RouterState, e: Event, id: uint32)
    requires cfg.Valid() && st.Valid() && Enabled(st, e)
    requires e.Tick? ==> DataFor(SweepAll(cfg, st, e.order).blocks, id) == []
    ensures DeliveredAll(Wires(Step(cfg, st, e).1), id) == []
  {
    if e.Tick? {
      IdleTickDelivers(cfg, st, e.order, id);
    }
  }

  lemma SlowStepMeansStuck(cfg: Config, st: RouterState, e: Event, id: uint32)
    requires cfg.Valid() && !cfg.drainsSlow && st.Valid() && Enabled(st, e)
    requires id in st.rings && id in st.slow && (st.slow[id] ==> Stuck(cfg, st, id))
    requires !ReplacesBuffer(e, id) && !ReplacesSession(e, id)
    ensures var mid := Step(cfg, st, e).0;
            id in mid.rings && id in mid.slow && (mid.slow[id] ==> Stuck(cfg, mid, id))
  {
    if st.slow[id] {
      StuckStep(cfg, st, e, id);
    } else if e.Tick? {
      TickFollowsWatermarks(cfg, st, e.order, id);
    }
  }

  /** A tick is what makes a session slow, and it does so only above the low mark:
      in every run, a session that was not slow at the start is stuck once slow. */
  lemma {:induction false} SlowMeansStuck(cfg: Config, st: RouterState, run: seq<Event>, id: uint32)
    requires cfg.Valid() && !cfg.drainsSlow && st.Valid() && AllEnabled(cfg, st, run)
    requires id in st.rings && id in st.slow && (st.slow[id] ==> Stuck(cfg, st, id))
    requires KeepsBuffer(run, id) && KeepsSession(run, id)
    ensures var end := Run(cfg, st, run).0;
            id in end.rings && id in end.slow && (end.slow[id] ==> Stuck(cfg, end, id))
    decreases |run|
  {
    if run != [] {
      assert run[0] in run;
      SlowStepMeansStuck(cfg, st, run[0], id);
      SlowMeansStuck(cfg, Step(cfg, st, run[0]).0, run[1..], id);
    }
  }

  /** So the first tick that marks a session slow is the last that serves it: from
      then on, as written, nothing but a new buffer or session brings it back. */
  lemma OnceSlowAlwaysSlow(cfg: Config, st: RouterState, before: seq<Event>, after: seq<Event>, id: uint32)
    requires cfg.Valid() && !cfg.drainsSlow && st.Valid() && AllEnabled(cfg, st, before)
    requires AllEnabled(cfg, Run(cfg, st, before).0, after)
    requires id in st.rings && id in st.slow && !st.slow[id]
    requires KeepsBuffer(before, id) && KeepsSession(before, id)
    requires KeepsBuffer(after, id) && KeepsSession(after, id)
    ensures var mid := Run(cfg, st, before).0;
            var end := Run(cfg, mid, after).0;
            id in mid.slow && (mid.slow[id] ==> id in end.slow && end.slow[id] && Received(cfg, mid, after, id) == [])
  {
    var mid := Run(cfg, st, before).0;
    SlowMeansStuck(cfg, st, before, id);
    if mid.slow[id] {
      SlowForever(cfg, mid, after, id);
    }
  }

  function Ticks(run: seq<Event>): nat {
    if run == [] then 0 else (if run[0].Tick? then 1 else 0) + Ticks(run[1..])
  }

  /** Nothing is written to `id` during the run: its producer is paused. */
  predicate Paused(run: seq<Event>, id: uint32) {
    forall e | e in run :: !(e.Write? && e.id == id)
  }

  lemma DrainStep(cfg: Config, st: RouterState, e: Event, id: uint32)
    requires cfg.Valid() && cfg.drainsSlow && st.Valid() && Enabled(st, e)
    requires id in st.rings && id in st.slow && !(e.Write? && e.id == id)
    requires !ReplacesBuffer(e, id) && !ReplacesSession(e, id)
    ensures var st' := Step(cfg, st, e).0;
            && id in st'.rings && id in st'.slow
            && (!e.Tick? ==> st'.rings[id].Unread() == st.rings[id].Unread() && st'.slow[id] == st.slow[id])
            && (e.Tick? ==>
                  && st'.rings[id].Unread() == Left(st.rings[id].Unread(), cfg.scratch, 1)
                  && (st.slow[id] ==> st'.slow[id] == (st.rings[id].Unread() > cfg.marks.low))
                  && (!st.slow[id] && st.rings[id].Unread() < cfg.marks.high ==> !st'.slow[id]))
  {
    if e.Tick? {
      TickFollowsWatermarks(cfg, st, e.order, id);
    }
  }

  /** What `ticks` draining ticks leave of a backlog. */
  function Left(unread: nat, scratch: nat, ticks: nat): nat {
    Max(0, unread - ticks * scratch)
  }

  /** Whether a flag survives them: the last one still found it above the low mark. */
  predicate StaysSlow(slow: bool, unread: nat, low: nat, scratch: nat, ticks: nat) {
    slow && (ticks > 0 ==> unread - (ticks - 1) * scratch > low)
  }

  lemma OneMoreTick(unread: nat, scratch: nat, low: nat, slow: bool, m: nat)
    ensures Left(Left(unread, scratch, 1), scratch, m) == Left(unread, scratch, m + 1)
    ensures StaysSlow(slow && unread > low, Left(unread, scratch, 1), low, scratch, m) ==
            StaysSlow(slow, unread, low, scratch, m + 1)
  {
    assert (m + 1) * scratch == m * scratch + scratch;
    assert m * scratch >= 0;
    if m > 0 {
      assert (m - 1) * scratch == m * scratch - scratch;
      assert (m - 1) * scratch >= 0;
    }
  }

  /** Drained and with its producer paused, a slow session's backlog goes down by
      one scratch length per tick, and it is normal again exactly from the tick
      that finds the backlog at the low mark on. */
  lemma {:induction false} DrainedRecovers(cfg: Config, st: RouterState, run: seq<Event>, id: uint32)
    requires cfg.Valid() && cfg.drainsSlow && st.Valid() && AllEnabled(cfg, st, run)
    requires id in st.rings && id in st.slow && Paused(run, id)
    requires KeepsBuffer(run, id) && KeepsSession(run, id)
    requires st.slow[id] || st.rings[id].Unread() <= cfg.marks.low
    ensures var end := Run(cfg, st, run).0;
            var m := Ticks(run);
            && id in end.rings && id in end.slow
            && end.rings[id].Unread() == Left(st.rings[id].Unread(), cfg.scratch, m)
            && end.slow[id] == StaysSlow(st.slow[id], st.rings[id].Unread(), cfg.marks.low, cfg.scratch, m)
    decreases |run|
  {
    if run != [] {
      var e := run[0];
      assert e in run;
      var mid := Step(cfg, st, e).0;
      DrainStep(cfg, st, e, id);
      DrainedRecovers(cfg, mid, run[1..], id);
      if e.Tick? {
        OneMoreTick(st.rings[id].Unread(), cfg.scratch, cfg.marks.low, st.slow[id], Ticks(run[1..]));
      }
    }
  }

  /** The bound of the design: after `ceil((backlog - Low) / 4096)` draining ticks
      the next tick clears the flag. */
  lemma RecoveryBound(cfg: Config, st: RouterState, run: seq<Event>, id: uint32)
    requires cfg.Valid() && cfg.drainsSlow && 0 < cfg.scratch && st.Valid() && AllEnabled(cfg, st, run)
    requires Stuck(cfg, st, id) && Paused(run, id)
    requires KeepsBuffer(run, id) && KeepsSession(run, id)
    ensures var needed := (st.rings[id].Unread() - cfg.marks.low + cfg.scratch - 1) / cfg.scratch;
            var end := Run(cfg, st, run).0;
            id in end.slow && (end.slow[id] <==> Ticks(run) <= needed)
  {
    DrainedRecovers(cfg, st, run, id);
    var over := st.rings[id].Unread() - cfg.marks.low;
    CeilingIsLeast(over, cfg.scratch, Ticks(run) - 1);
  }

  lemma MulMonotone(x: int, y: int, n: nat)
    requires x <= y
    ensures x * n <= y * n
  {
    assert (y - x) * n >= 0;
  }

  /** `ceil(a / n)` is the least count of steps of `n` that covers `a`. */
  lemma CeilingIsLeast(a: int, n: nat, k: int)
    requires 0 < n
    ensures a - k * n > 0 <==> k < (a + n - 1) / n
  {
    var q := (a + n - 1) / n;
    assert q * n + n == (q + 1) * n;
    assert q * n <= a + n - 1 < q * n + n;
    if k < q {
      MulMonotone(k + 1, q, n);
    } else {
      MulMonotone(q, k, n);
    }
  }
}
