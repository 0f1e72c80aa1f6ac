/** States the router does reach in which it fails: they make the conditions of
    `RouterRuns` sharp, and say what the code as written does. */
module RouterCases {
  import opened Bytes
  import opened Rings
  import opened Routing
  import opened RouterRuns

  lemma NewBufferTakes(size: nat, p: seq<byte>, mode: WriteMode)
    requires 0 < size && |p| <= size
    ensures var w := WriteRing(Fresh(size), p, mode);
            w.ring.Valid() && w.ring.Unread() == |p| && !w.ring.closed
  {
    assert 0 % size == 0 by { DivModUnique(0, size, 0, 0); }
  }

  // -------------------------------------------------------- too many sessions

  /** From `k` on, `n` ids each get a buffer, a session and one byte. */
  function Crowd(k: nat, n: nat): seq<Event>
    requires k + n < 0x1_0000_0000
    decreases n
  {
    if n == 0 then []
    else [RegisterBuffer(k)] + ([AddSession(k)] + ([Write(k, [0])] + Crowd(k + 1, n - 1)))
  }

  ghost predicate HasOneByte(st: RouterState, id: uint32) {
    && id in st.rings && st.rings[id].Valid() && st.rings[id].Unread() == 1
    && id in st.slow && !st.slow[id]
  }

  /** Ids below `k` have one unread byte and a normal session, and there are no
      other buffers. */
  ghost predicate Crowded(st: RouterState, k: nat) {
    forall id: uint32 :: if id < k then HasOneByte(st, id) else id !in st.rings
  }

  lemma OneMore(cfg: Config, st: RouterState, k: uint32)
    requires cfg.Valid() && st.Valid() && Crowded(st, k)
    ensures var a := Step(cfg, st, RegisterBuffer(k)).0;
            var b := Step(cfg, a, AddSession(k)).0;
            Crowded(Step(cfg, b, Write(k, [0])).0, k as int + 1)
  {
    NewBufferTakes(cfg.marks.size, [0], cfg.mode);
    var a := Step(cfg, st, RegisterBuffer(k)).0;
    var b := Step(cfg, a, AddSession(k)).0;
    var c := Step(cfg, b, Write(k, [0])).0;
    forall id: uint32 ensures if id < k as int + 1 then HasOneByte(c, id) else id !in c.rings {
      assert if id < k then HasOneByte(st, id) else id !in st.rings;
    }
  }

  lemma {:induction false} CrowdGathers(cfg: Config, st: RouterState, k: nat, n: nat)
    requires cfg.Valid() && st.Valid() && k + n < 0x1_0000_0000 && Crowded(st, k)
    ensures AllEnabled(cfg, st, Crowd(k, n)) && Crowded(Run(cfg, st, Crowd(k, n)).0, k + n)
    decreases n
  {
    if n > 0 {
      var a := Step(cfg, st, RegisterBuffer(k)).0;
      var b := Step(cfg, a, AddSession(k)).0;
      var c := Step(cfg, b, Write(k, [0])).0;
      var rest := Crowd(k + 1, n - 1);
      OneMore(cfg, st, k);
      CrowdGathers(cfg, c, k + 1, n - 1);
      RunCons(cfg, b, Write(k, [0]), rest);
      RunCons(cfg, a, AddSession(k), [Write(k, [0])] + rest);
      RunCons(cfg, st, RegisterBuffer(k), [AddSession(k)] + ([Write(k, [0])] + rest));
    }
  }

  lemma {:induction false} CrowdContributes(cfg: Config, st: RouterState, order: seq<uint32>)
    requires cfg.Valid() && 0 < cfg.scratch && 1 < cfg.marks.high && st.Valid()
    requires forall i | 0 <= i < |order| :: HasOneByte(st, order[i])
    ensures Contributors(cfg, st, order) == |order|
  {
    if order != [] {
      var k := |order| - 1;
      assert HasOneByte(st, order[k]);
      CrowdContributes(cfg, st, order[..k]);
    }
  }

  function FirstIds(n: nat): (ids: seq<uint32>)
    requires n < 0x1_0000_0000
    ensures |ids| == n && forall i | 0 <= i < n :: ids[i] == i
  {
    seq(n, i requires 0 <= i < n => i)
  }

  lemma FirstIdsAre(n: nat, id: uint32)
    requires n < 0x1_0000_0000
    ensures id in FirstIds(n) <==> id < n
  {
    if id < n {
      assert FirstIds(n)[id] == id;
    }
  }

  /** The tick takes the one byte every session of `order` has, and no receiver gets
      any of them. */
  ghost predicate LosesAll(cfg: Config, st: RouterState, order: seq<uint32>)
    requires cfg.Valid() && st.Valid() && Enabled(st, Tick(order))
  {
    var (after, log) := RunTick(cfg, st, order);
    && (forall id: uint32 | id in order ::
          id in st.rings && id in after.rings && st.rings[id].Unread() == 1 && after.rings[id].Unread() == 0)
    && (forall id: uint32 :: DeliveredAll(Wires(log), id) == [])
  }

  lemma CrowdIsVisited(st: RouterState)
    requires Crowded(st, 256)
    ensures Enabled(st, Tick(FirstIds(256)))
    ensures forall id | id in FirstIds(256) :: HasOneByte(st, id)
  {
    forall id: uint32 ensures (id in FirstIds(256) <==> id in st.rings) && (id < 256 ==> HasOneByte(st, id)) {
      FirstIdsAre(256, id);
      assert if id < 256 then HasOneByte(st, id) else id !in st.rings;
    }
  }

  lemma CrowdTick(cfg: Config, st: RouterState)
    requires cfg.Valid() && 0 < cfg.scratch && 1 < cfg.marks.high && st.Valid() && Crowded(st, 256)
    ensures var order := FirstIds(256);
            Enabled(st, Tick(order)) && Contributors(cfg, st, order) == 256 && LosesAll(cfg, st, order)
  {
    var order := FirstIds(256);
    CrowdIsVisited(st);
    CrowdContributes(cfg, st, order);
    forall id: uint32 | id in order
      ensures st.rings[id].Unread() == 1 && RunTick(cfg, st, order).0.rings[id].Unread() == 0
    {
      TickFollowsWatermarks(cfg, st, order, id);
    }
    forall id: uint32 ensures DeliveredAll(Wires(RunTick(cfg, st, order).1), id) == [] {
      WideTickDeliversNothing(cfg, st, order, id);
    }
  }

  /** So the limit of 255 is reached: from nothing, 256 sessions with one byte each
      lose all of them in the next tick. */
  lemma CrowdLosesEverything(cfg: Config)
    requires cfg.Valid() && 0 < cfg.scratch && 1 < cfg.marks.high
    ensures var start := RouterState(map[], map[]);
            AllEnabled(cfg, start, Crowd(0, 256)) &&
            var st := Run(cfg, start, Crowd(0, 256)).0;
            var order := FirstIds(256);
            Enabled(st, Tick(order)) && Contributors(cfg, st, order) == 256 && LosesAll(cfg, st, order)
  {
    var start := RouterState(map[], map[]);
    CrowdGathers(cfg, start, 0, 256);
    CrowdTick(cfg, Run(cfg, start, Crowd(0, 256)).0);
  }

  // ---------------------------------------------------------- a stuck session

  lemma TickSticks(cfg: Config, st: RouterState, id: uint32, order: seq<uint32>)
    requires cfg.Valid() && !cfg.drainsSlow && st.Valid() && Enabled(st, Tick(order))
    requires id in st.rings && id in st.slow && !st.slow[id] && st.rings[id].Unread() >= cfg.marks.high
    ensures Stuck(cfg, RunTick(cfg, st, order).0, id)
    ensures WarningsFor(RunTick(cfg, st, order).1, id) == [true]
  {
    TickFollowsWatermarks(cfg, st, order, id);
    TickWarnings(cfg, st, order, id);
  }

  /** A new buffer filled to the high mark in one write is stuck after the next tick,
      with either write, whatever else the router holds. */
  lemma FillingUpSticks(cfg: Config, st: RouterState, id: uint32, p: seq<byte>, order: seq<uint32>)
    requires cfg.Valid() && !cfg.drainsSlow && st.Valid() && |p| == cfg.marks.high
    requires id in st.rings && st.rings[id] == Fresh(cfg.marks.size) && id in st.slow && !st.slow[id]
    requires Enabled(st, Tick(order))
    ensures AllEnabled(cfg, st, [Write(id, p)] + [Tick(order)])
    ensures Stuck(cfg, Run(cfg, st, [Write(id, p)] + [Tick(order)]).0, id)
  {
    NewBufferTakes(cfg.marks.size, p, cfg.mode);
    var full := Step(cfg, st, Write(id, p)).0;
    TickSticks(cfg, full, id, order);
    RunCons(cfg, full, Tick(order), []);
    EmptyEnds([Tick(order)]);
    RunCons(cfg, st, Write(id, p), [Tick(order)]);
  }

  /** The code as written: once a session has been filled up so, no run that keeps
      its buffer and session ever warns of, or serves, it again. */
  lemma AsWrittenStalls(st: RouterState, id: uint32, p: seq<byte>, order: seq<uint32>, after: seq<Event>)
    requires st.Valid() && |p| == 891_289 && Enabled(st, Tick(order))
    requires id in st.rings && st.rings[id] == Fresh(1_048_576) && id in st.slow && !st.slow[id]
    requires KeepsBuffer(after, id) && KeepsSession(after, id)
    ensures AllEnabled(AS_WRITTEN, st, [Write(id, p)] + [Tick(order)])
    ensures var mid := Run(AS_WRITTEN, st, [Write(id, p)] + [Tick(order)]).0;
            AllEnabled(AS_WRITTEN, mid, after) ==>
              Stuck(AS_WRITTEN, Run(AS_WRITTEN, mid, after).0, id)
              && WarningsFor(Run(AS_WRITTEN, mid, after).1, id) == []
  {
    FillingUpSticks(AS_WRITTEN, st, id, p, order);
    var mid := Run(AS_WRITTEN, st, [Write(id, p)] + [Tick(order)]).0;
    if AllEnabled(AS_WRITTEN, mid, after) {
      SlowForever(AS_WRITTEN, mid, after, id);
    }
  }

  /** In the designed configuration a session that has been slow is normal again after
      as many ticks as it takes to bring its backlog down to 524288 bytes at 4096 bytes
      a tick, and one more. */
  lemma DesignedRecovers(st: RouterState, run: seq<Event>, id: uint32)
    requires st.Valid() && AllEnabled(AS_DESIGNED, st, run) && Paused(run, id)
    requires KeepsBuffer(run, id) && KeepsSession(run, id)
    requires id in st.rings && id in st.slow && st.slow[id] && st.rings[id].Unread() > 524_288
    ensures var end := Run(AS_DESIGNED, st, run).0;
            id in end.slow && (end.slow[id] <==> Ticks(run) <= (st.rings[id].Unread() - 524_288 + 4095) / 4096)
  {
    RecoveryBound(AS_DESIGNED, st, run, id);
  }

  /** And with the scratch slice it has, the code as written never delivers any
      output at all. */
  lemma AsWrittenDeliversNothing(st: RouterState, run: seq<Event>, id: uint32)
    requires st.Valid() && AllEnabled(AS_WRITTEN, st, run)
    ensures Received(AS_WRITTEN, st, run, id) == []
  {
    EmptyScratchDeliversNothing(AS_WRITTEN, st, run, id);
  }
}
