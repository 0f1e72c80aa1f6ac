/** The router object: buffers, sessions and the scratch pool in the heap, and the
    tick that runs over them (gateway/internal/router/router.go). */
module Routers {
  import opened Bytes
  import opened Rings
  import opened Codec
  import opened Routing
  import opened BufferPool
  import opened Sessions

  /** A collected block: its data is an array of its own. */
  datatype HeapBlock = HeapBlock(sessionId: uint32, length: uint16, data: array<byte>)

  class Router {
    const marks: Marks
    /** Whether the scratch slice is resliced to the length it was asked for. */
    const reslices: bool
    const drainsSlow: bool
    /** How the writers of the buffers copy; a tick does not depend on it. */
    const mode: WriteMode
    const sessionMgr: Manager
    const pool: Pool
    var buffers: map<uint32, RingBuffer>
    /** What has been handed to the hub for broadcast. */
    var sent: seq<seq<byte>>

    ghost function Cfg(): Config {
      Config(marks, if reslices then SCRATCH else 0, drainsSlow, mode)
    }

    ghost predicate Valid()
      reads this`buffers, sessionMgr, pool, buffers.Values
    {
      && Cfg().Valid() && SCRATCH <= marks.size
      && sessionMgr.Valid() && pool.Valid()
      && Separate()
      && (forall id | id in buffers :: buffers[id].Valid() && buffers[id].data !in pool.free)
    }

    /** The buffers are of full size and share nothing. */
    ghost predicate Separate()
      reads this`buffers
    {
      && (forall id | id in buffers :: buffers[id].data.Length == marks.size)
      && (forall i, j | i in buffers && j in buffers && i != j ::
            buffers[i] != buffers[j] && buffers[i].data != buffers[j].data)
    }

    ghost predicate ShowsRings(rings: map<uint32, Ring>)
      reads this`buffers, buffers.Values, set id | id in buffers :: buffers[id].data
    {
      && (forall id :: id in rings <==> id in buffers)
      && (forall id | id in buffers :: buffers[id].View() == rings[id])
    }

    ghost predicate ShowsSlow(slow: map<uint32, bool>)
      reads sessionMgr, sessionMgr.sessions.Values
    {
      && (forall id :: id in slow <==> id in sessionMgr.sessions)
      && (forall id | id in sessionMgr.sessions :: sessionMgr.sessions[id].isSlow == slow[id])
    }

    /** The buffers and flags are those of `st`. */
    ghost predicate Shows(st: RouterState)
      reads this`buffers, sessionMgr, sessionMgr.sessions.Values, buffers.Values,
            set id | id in buffers :: buffers[id].data
    {
      ShowsRings(st.rings) && ShowsSlow(st.slow)
    }

    /** All objects the router works on. */
    ghost function Footprint(): set<object>
      reads this`buffers, sessionMgr, pool
    {
      {this, sessionMgr, pool} + pool.free + Belonging(sessionMgr.sessions, buffers)
    }

    constructor (marks: Marks, reslices: bool, drainsSlow: bool, mode: WriteMode,
                 sessionMgr: Manager, pool: Pool)
      requires marks.Valid() && SCRATCH <= marks.size && sessionMgr.Valid() && pool.Valid()
      ensures Valid() && buffers == map[] && sent == []
      ensures this.sessionMgr == sessionMgr && this.pool == pool
      ensures Cfg() == Config(marks, if reslices then 4096 else 0, drainsSlow, mode)
    {
      this.marks, this.reslices, this.drainsSlow := marks, reslices, drainsSlow;
      this.mode := mode;
      this.sessionMgr, this.pool := sessionMgr, pool;
      buffers, sent := map[], [];
    }

    /** A new empty buffer under `id`; one that was there is forgotten with
        whatever it still held. */
    method RegisterBuffer(id: uint32) returns (rb: RingBuffer)
      requires Valid()
      modifies this`buffers
      ensures Valid() && fresh(rb) && fresh(rb.data)
      ensures buffers == old(buffers)[id := rb] && rb.View() == Fresh(marks.size)
      ensures forall o :: o in Footprint() ==> o in old(Footprint()) || fresh(o)
    {
      ghost var waiting := pool.free;
      rb := new RingBuffer(marks.size);
      assert rb.data.Length == marks.size by {
        assert |rb.View().mem| == marks.size;
      }
      assert pool.free == waiting && rb.data !in waiting;
      BelongingWithBuffer(sessionMgr.sessions, buffers, id, rb);
      buffers := buffers[id := rb];
    }

    method UnregisterBuffer(id: uint32)
      requires Valid()
      modifies this`buffers
      ensures Valid() && buffers == old(buffers) - {id}
    {
      buffers := buffers - {id};
    }

    /** A write to a registered buffer, by whoever was handed it. */
    method WriteBuffer(id: uint32, rb: RingBuffer, p: seq<byte>) returns (n: nat, err: Error)
      requires Valid() && id in buffers && rb == buffers[id]
      modifies rb`write, rb.data
      ensures Valid()
      ensures WriteRing(old(rb.View()), p, mode) == Written(rb.View(), n, err)
      ensures forall i | i in buffers && i != id :: buffers[i].View() == old(buffers[i].View())
    {
      match mode
      case AsWritten => n, err := rb.Write(p);
      case Wrapping => n, err := rb.WriteWrapping(p);
    }

    /** All buffers but that of `id` hold what `st` says. */
    ghost predicate OthersShow(st: RouterState, id: uint32)
      reads this`buffers, sessionMgr, sessionMgr.sessions.Values, buffers.Values,
            set id | id in buffers :: buffers[id].data
    {
      && (forall i | i != id :: i in st.rings <==> i in buffers)
      && (forall i | i in buffers && i != id :: buffers[i].View() == st.rings[i])
      && ShowsSlow(st.slow)
    }

    lemma ShowsRing(st: RouterState, id: uint32, ring: Ring)
      requires OthersShow(st, id) && id in buffers && buffers[id].View() == ring
      ensures Shows(st.(rings := st.rings[id := ring]))
    {
    }

    /** `hub.Broadcast(frame.Serialize())`. */
    method BroadcastFrame(f: Frame)
      requires LengthsMatch(f.sessions)
      modifies this`sent
      ensures sent == old(sent) + [Encode(f)]
    {
      SerializedIsEncoded(f);
      var bytes := Serialize(f);
      sent := sent + [bytes.value[..]];
    }

    method SendSlowWarning(id: uint32, isSlow: bool)
      modifies this`sent
      ensures sent == old(sent) + [Wire(Warning(id, isSlow))]
    {
      WarningArrives(id, isSlow);
      var text := WarningText(id, isSlow);
      BroadcastFrame(Frame(SLOW_WARNING, 1, [SessionBlock(id, |text| % 0x1_0000, text)]));
    }

    /** The watermark check of one session. */
    method CheckMarks(id: uint32, rb: RingBuffer, s: Session)
      requires rb.Valid()
      modifies this`sent, s`isSlow
      ensures s.isSlow == Checked(marks, old(s.isSlow), rb.View().Unread())
      ensures sent == old(sent) + Wires(WarningCasts(id, if s.isSlow == old(s.isSlow) then [] else [s.isSlow]))
    {
      if rb.IsHigh(marks) && !s.isSlow {
        s.SetSlow(true);
        SendSlowWarning(id, true);
      } else if rb.IsLow(marks) && s.isSlow {
        s.SetSlow(false);
        SendSlowWarning(id, false);
      }
    }

    /** `TryRead(data[:len])`, and a copy of what it read. */
    method ReadThrough(rb: RingBuffer, data: array<byte>, len: nat) returns (block: Option<array<byte>>)
      requires rb.Valid() && rb.data != data && len <= data.Length && len <= rb.data.Length
      modifies rb`read, data
      ensures rb.Valid()
      ensures rb.View() == ReadRing(old(rb.View()), len).ring
      ensures (if block.Some? then block.value[..] else []) == ReadRing(old(rb.View()), len).out
      ensures block.Some? ==> fresh(block.value) && block.value.Length > 0
    {
      var n, _, _ := rb.TryRead(data, len);
      if n == 0 {
        return None;
      }
      var sessionData := new byte[n](_ => 0);
      var src := data[..n];
      var _ := CopyInto(sessionData, 0, src);
      assert sessionData[..] == src;
      block := Some(sessionData);
    }

    /** Reads through a pooled scratch array and puts the array back; the block
        handed out is neither that array nor any other array of the pool. */
    method ReadBlock(rb: RingBuffer) returns (block: Option<array<byte>>)
      requires rb.Valid() && pool.Valid() && rb.data !in pool.free && SCRATCH <= rb.data.Length
      modifies rb`read, pool, pool.free
      ensures rb.Valid() && pool.Valid()
      ensures forall b :: b in pool.free ==> b in old(pool.free) || fresh(b)
      ensures rb.View() == ReadRing(old(rb.View()), Cfg().scratch).ring
      ensures (if block.Some? then block.value[..] else []) == ReadRing(old(rb.View()), Cfg().scratch).out
      ensures block.Some? ==> fresh(block.value) && block.value !in pool.free && block.value.Length > 0
    {
      var data, len := pool.Get(SCRATCH);
      if reslices {
        len := SCRATCH;
      }
      ghost var waiting := pool.free;
      block := ReadThrough(rb, data, len);
      assert pool.free == waiting;
      assert block.Some? ==> block.value !in waiting && block.value != data;
      pool.Put(data);
    }

    /** The check and the read of one session and its buffer. */
    method VisitPair(id: uint32, rb: RingBuffer, s: Session) returns (block: Option<HeapBlock>)
      requires rb.Valid() && pool.Valid() && rb.data !in pool.free && SCRATCH <= rb.data.Length
      modifies this`sent, s`isSlow, rb`read, pool, pool.free
      ensures rb.Valid() && pool.Valid()
      ensures forall b :: b in pool.free ==> b in old(pool.free) || fresh(b)
      ensures block.Some? ==> fresh(block.value.data) && block.value.data !in pool.free
      ensures var v := VisitSession(Cfg(), old(rb.View()), old(s.isSlow));
              && rb.View() == v.ring && s.isSlow == v.slow
              && sent == old(sent) + Wires(WarningCasts(id, v.warned))
              && (if block.Some? then [AsBlock(block.value)] else []) == OutputBlocks(id, v.out)
    {
      CheckMarks(id, rb, s);
      block := None;
      if !s.isSlow || drainsSlow {
        var data := ReadBlock(rb);
        if data.Some? {
          block := Some(HeapBlock(id, data.value.Length % 0x1_0000, data.value));
        }
      }
    }

    /** The router shows `st` but for the session `id`. */
    ghost predicate ShowsExcept(st: RouterState, id: uint32)
      reads this`buffers, sessionMgr, sessionMgr.sessions.Values, buffers.Values,
            set id | id in buffers :: buffers[id].data
    {
      && (forall i :: i in st.rings <==> i in buffers)
      && (forall i :: i in st.slow <==> i in sessionMgr.sessions)
      && (forall i | i in buffers && i != id :: buffers[i].View() == st.rings[i])
      && (forall i | i in sessionMgr.sessions && i != id :: sessionMgr.sessions[i].isSlow == st.slow[i])
    }

    lemma ShowsWith(st: RouterState, id: uint32, now: RouterState)
      requires ShowsExcept(st, id) && id in buffers && id in sessionMgr.sessions
      requires now.rings == st.rings[id := buffers[id].View()]
      requires now.slow == st.slow[id := sessionMgr.sessions[id].isSlow]
      ensures Shows(now)
    {
    }

    lemma ShowsVisited(st: RouterState, id: uint32)
      requires Cfg().Valid() && st.Valid() && id in st.rings && id in st.slow
      requires ShowsExcept(st, id)
      requires var v := VisitSession(Cfg(), st.rings[id], st.slow[id]);
               buffers[id].View() == v.ring && sessionMgr.sessions[id].isSlow == v.slow
      ensures var (s, v) := (VisitOne(Cfg(), Sweep(st, [], []), id), VisitSession(Cfg(), st.rings[id], st.slow[id]));
              Shows(s.st) && s.casts == WarningCasts(id, v.warned) && s.blocks == OutputBlocks(id, v.out)
    {
      VisitOneAlone(Cfg(), st, id);
      ShowsWith(st, id, VisitOne(Cfg(), Sweep(st, [], []), id).st);
    }

    /** The same, in a router: the others' buffers stay out of the pool. */
    method VisitKnown(id: uint32, rb: RingBuffer, s: Session) returns (block: Option<HeapBlock>)
      requires Valid() && id in buffers && rb == buffers[id]
      modifies this`sent, pool, pool.free, rb`read, s`isSlow
      ensures Valid()
      ensures forall i | i in buffers && i != id :: buffers[i].View() == old(buffers[i].View())
      ensures forall t: Session | t != s && old(allocated(t)) :: t.isSlow == old(t.isSlow)
      ensures forall b :: b in pool.free ==> b in old(pool.free) || fresh(b)
      ensures block.Some? ==> fresh(block.value.data) && block.value.data !in pool.free
      ensures var v := VisitSession(Cfg(), old(rb.View()), old(s.isSlow));
              && rb.View() == v.ring && s.isSlow == v.slow
              && sent == old(sent) + Wires(WarningCasts(id, v.warned))
              && (if block.Some? then [AsBlock(block.value)] else []) == OutputBlocks(id, v.out)
    {
      block := VisitPair(id, rb, s);
    }

    /** The same, seen from the whole router: no other session changes. */
    method VisitAmong(id: uint32, rb: RingBuffer, s: Session, ghost st: RouterState)
      returns (block: Option<HeapBlock>)
      requires Valid() && Shows(st) && id in buffers && rb == buffers[id]
      requires id in sessionMgr.sessions && s == sessionMgr.sessions[id]
      modifies this`sent, pool, pool.free, rb`read, s`isSlow
      ensures Valid()
      ensures forall b :: b in pool.free ==> b in old(pool.free) || fresh(b)
      ensures block.Some? ==> fresh(block.value.data) && block.value.data !in pool.free
      ensures ShowsExcept(st, id)
      ensures var v := VisitSession(Cfg(), st.rings[id], st.slow[id]);
              && rb.View() == v.ring && s.isSlow == v.slow
              && sent == old(sent) + Wires(WarningCasts(id, v.warned))
              && (if block.Some? then [AsBlock(block.value)] else []) == OutputBlocks(id, v.out)
    {
      block := VisitKnown(id, rb, s);
    }

    /** The closure passed to `Range`: one session's part of the tick, from the
        state `st` the router is in. */
    method VisitBuffer(id: uint32, ghost st: RouterState) returns (block: Option<HeapBlock>)
      requires Valid() && id in buffers && Shows(st)
      modifies this`sent, pool, pool.free, buffers[id], sessionMgr.sessions.Values
      ensures Valid()
      ensures forall b :: b in pool.free ==> b in old(pool.free) || fresh(b)
      ensures block.Some? ==> fresh(block.value.data) && block.value.data !in pool.free
      ensures var s := VisitOne(Cfg(), Sweep(st, [], []), id);
              && Shows(s.st)
              && sent == old(sent) + Wires(s.casts)
              && s.blocks == if block.Some? then [AsBlock(block.value)] else []
    {
      block := None;
      var s := sessionMgr.Get(id);
      if s != null {
        block := VisitAmong(id, buffers[id], s, st);
        ShowsVisited(st, id);
      } else {
        assert Wires([]) == [];
      }
    }

    /** The collected blocks are those of the sweep, each in an array of its own
        that no visit to come will touch. */
    ghost predicate Holds(blocks: seq<HeapBlock>, collected: seq<SessionBlock>)
      reads pool, set b | b in blocks :: b.data
    {
      && |blocks| == |collected|
      && forall k | 0 <= k < |blocks| :: blocks[k].data !in pool.free && AsBlock(blocks[k]) == collected[k]
    }

    lemma HoldsMore(blocks: seq<HeapBlock>, collected: seq<SessionBlock>, block: Option<HeapBlock>)
      requires Holds(blocks, collected)
      requires block.Some? ==> block.value.data !in pool.free
      ensures Holds(if block.None? then blocks else blocks + [block.value],
                    collected + if block.Some? then [AsBlock(block.value)] else [])
    {
    }

    /** A visit, which leaves the blocks collected so far as they are. */
    method VisitKeeping(id: uint32, blocks: seq<HeapBlock>, ghost s: Sweep) returns (block: Option<HeapBlock>)
      requires Valid() && s.st.Valid() && Shows(s.st) && id in buffers && Holds(blocks, s.blocks)
      modifies this`sent, pool, pool.free, buffers[id], sessionMgr.sessions.Values
      ensures Valid() && Holds(blocks, s.blocks)
      ensures forall b :: b in pool.free ==> b in old(pool.free) || fresh(b)
      ensures block.Some? ==> block.value.data !in pool.free
      ensures var v := VisitOne(Cfg(), Sweep(s.st, [], []), id);
              && Shows(v.st)
              && sent == old(sent) + Wires(v.casts)
              && v.blocks == if block.Some? then [AsBlock(block.value)] else []
    {
      block := VisitBuffer(id, s.st);
      forall k | 0 <= k < |blocks|
        ensures blocks[k].data !in pool.free && blocks[k].data[..] == old(blocks[k].data[..])
      {
        assert blocks[k].data !in old(pool.free);
      }
    }

    /** A tick in progress, `n` buffers into `order`: `was` had been handed to the
        hub before it began. */
    ghost predicate Swept(st: RouterState, order: seq<uint32>, n: nat,
                          blocks: seq<HeapBlock>, was: seq<seq<byte>>)
      requires st.Valid() && n <= |order| && forall id | id in order :: id in st.rings
      reads this`buffers, this`sent, sessionMgr, sessionMgr.sessions.Values, buffers.Values, pool,
            set id | id in buffers :: buffers[id].data, set b | b in blocks :: b.data
    {
      var s := SweepAll(Cfg(), st, order[..n]);
      Valid() && Shows(s.st) && sent == was + Wires(s.casts) && Holds(blocks, s.blocks)
    }

    lemma NothingSwept(st: RouterState, order: seq<uint32>)
      requires st.Valid() && Valid() && Shows(st) && forall id | id in order :: id in st.rings
      ensures Swept(st, order, 0, [], sent)
    {
      assert Wires([]) == [];
    }

    lemma SweptNext(st: RouterState, order: seq<uint32>, i: nat, blocks: seq<HeapBlock>, was: seq<seq<byte>>)
      requires st.Valid() && i < |order| && (forall id | id in order :: id in st.rings)
      requires Valid()
      requires var s := VisitOne(Cfg(), SweepAll(Cfg(), st, order[..i]), order[i]);
               Shows(s.st) && sent == was + Wires(s.casts) && Holds(blocks, s.blocks)
      ensures Swept(st, order, i + 1, blocks, was)
    {
      SweepStep(Cfg(), st, order, i);
    }

    /** A visit, and its block put behind the others. */
    method VisitInto(id: uint32, blocks: seq<HeapBlock>, ghost s: Sweep, ghost was: seq<seq<byte>>)
      returns (more: seq<HeapBlock>)
      requires Valid() && s.st.Valid() && Shows(s.st) && id in buffers && Holds(blocks, s.blocks)
      requires sent == was + Wires(s.casts)
      modifies this`sent, pool, pool.free, buffers[id], sessionMgr.sessions.Values
      ensures Valid()
      ensures forall b :: b in pool.free ==> b in old(pool.free) || fresh(b)
      ensures Shows(VisitOne(Cfg(), s, id).st) && Holds(more, VisitOne(Cfg(), s, id).blocks)
      ensures sent == was + Wires(VisitOne(Cfg(), s, id).casts)
      ensures |blocks| <= |more| <= |blocks| + 1
    {
      VisitOneExtends(Cfg(), s, id);
      WiresBehind(was, s.casts, VisitOne(Cfg(), Sweep(s.st, [], []), id).casts);
      var block := VisitKeeping(id, blocks, s);
      HoldsMore(blocks, s.blocks, block);
      more := if block.None? then blocks else blocks + [block.value];
    }

    method CollectOne(ghost st: RouterState, order: seq<uint32>, i: nat,
                      blocks: seq<HeapBlock>, ghost was: seq<seq<byte>>)
      returns (more: seq<HeapBlock>)
      requires st.Valid() && i < |order| && (forall id | id in order :: id in st.rings)
      requires Swept(st, order, i, blocks, was)
      modifies this`sent, pool, pool.free, buffers.Values, sessionMgr.sessions.Values
      ensures Swept(st, order, i + 1, more, was)
      ensures forall b :: b in pool.free ==> b in old(pool.free) || fresh(b)
      ensures |blocks| <= |more| <= |blocks| + 1
    {
      more := VisitInto(order[i], blocks, SweepAll(Cfg(), st, order[..i]), was);
      SweptNext(st, order, i, more, was);
    }

    /** `Range` over the buffers; the count is the `uint8` of the frame. */
    method Collect(order: seq<uint32>, ghost st: RouterState) returns (blocks: seq<HeapBlock>, count: byte)
      requires Valid() && st.Valid() && Shows(st)
      requires forall id | id in order :: id in st.rings
      modifies this`sent, pool, pool.free, buffers.Values, sessionMgr.sessions.Values
      ensures Swept(st, order, |order|, blocks, old(sent)) && count == Tally(|blocks|)
      ensures forall b :: b in pool.free ==> b in old(pool.free) || fresh(b)
    {
      blocks, count := [], 0;
      NothingSwept(st, order);
      for i := 0 to |order|
        invariant Swept(st, order, i, blocks, old(sent)) && count == Tally(|blocks|)
        invariant forall b :: b in pool.free ==> b in old(pool.free) || fresh(b)
      {
        var more := CollectOne(st, order, i, blocks, old(sent));
        if |more| > |blocks| {
          count := Next(count);
          assert |more| == |blocks| + 1;
        }
        blocks := more;
      }
    }

    /** The frame's blocks, read from the collected arrays. */
    method FrameBlocks(blocks: seq<HeapBlock>, ghost collected: seq<SessionBlock>) returns (bs: seq<SessionBlock>)
      requires Holds(blocks, collected)
      ensures bs == collected
    {
      bs := [];
      for k := 0 to |blocks|
        invariant bs == collected[..k]
      {
        bs := bs + [SessionBlock(blocks[k].sessionId, blocks[k].length, blocks[k].data[..])];
      }
    }

    /** Serializes and broadcasts the frame, when its count is not zero. */
    method BroadcastOutput(blocks: seq<HeapBlock>, count: byte, ghost s: Sweep, ghost was: seq<seq<byte>>)
      requires Holds(blocks, s.blocks) && LengthsMatch(s.blocks) && count == Tally(|blocks|)
      requires sent == was + Wires(s.casts)
      modifies this`sent
      ensures sent == was + Wires(s.casts + OutputCasts(s.blocks))
    {
      var sessions := FrameBlocks(blocks, s.blocks);
      TallyWraps(|sessions|);
      WiresBehind(was, s.casts, OutputCasts(s.blocks));
      if count > 0 {
        BroadcastFrame(Frame(TERMINAL_OUTPUT, count, sessions));
      }
    }

    /** The end of a tick. */
    method FinishTick(ghost st: RouterState, order: seq<uint32>, blocks: seq<HeapBlock>, count: byte,
                      ghost was: seq<seq<byte>>)
      requires st.Valid() && (forall id | id in order :: id in st.rings)
      requires Swept(st, order, |order|, blocks, was) && count == Tally(|blocks|)
      modifies this`sent
      ensures Valid()
      ensures Shows(RunTick(Cfg(), st, order).0)
      ensures sent == was + Wires(RunTick(Cfg(), st, order).1)
    {
      assert order[..|order|] == order;
      SweptBlocksMatch(Cfg(), st, order);
      BroadcastOutput(blocks, count, SweepAll(Cfg(), st, order), was);
    }

    /** `aggregate`: one tick, with the buffers visited in the order `Range` picks.
        The router goes from `st` to the state the tick leads to, and the hub is
        handed exactly the bytes of its warnings and then of its frame. */
    method Aggregate(order: seq<uint32>, ghost st: RouterState)
      requires Valid() && st.Valid() && Shows(st) && Enabled(st, Tick(order))
      modifies this`sent, pool, pool.free, buffers.Values, sessionMgr.sessions.Values
      ensures Valid()
      ensures Shows(RunTick(Cfg(), st, order).0)
      ensures sent == old(sent) + Wires(RunTick(Cfg(), st, order).1)
      ensures forall o :: o in Footprint() ==> o in old(Footprint()) || fresh(o)
    {
      var blocks, count := Collect(order, st);
      FinishTick(st, order, blocks, count, old(sent));
    }
  }

  /** The sessions, the buffers and their memories. */
  ghost function Belonging(sessions: map<uint32, Session>, buffers: map<uint32, RingBuffer>): set<object> {
    sessions.Values + buffers.Values + set id | id in buffers :: buffers[id].data
  }

  lemma BelongingWithBuffer(sessions: map<uint32, Session>, buffers: map<uint32, RingBuffer>, id: uint32, rb: RingBuffer)
    ensures Belonging(sessions, buffers[id := rb]) <= Belonging(sessions, buffers) + {rb, rb.data}
  {
  }

  lemma BelongingWithSession(sessions: map<uint32, Session>, buffers: map<uint32, RingBuffer>, id: uint32, s: Session)
    ensures Belonging(sessions[id := s], buffers) <= Belonging(sessions, buffers) + {s}
  {
  }

  lemma BelongingWithout(sessions: map<uint32, Session>, buffers: map<uint32, RingBuffer>, id: uint32)
    ensures Belonging(sessions - {id}, buffers) <= Belonging(sessions, buffers)
    ensures Belonging(sessions, buffers - {id}) <= Belonging(sessions, buffers)
  {
  }

  lemma WiresBehind(was: seq<seq<byte>>, a: seq<Cast>, b: seq<Cast>)
    ensures was + Wires(a) + Wires(b) == was + Wires(a + b)
  {
    WiresAppend(a, b);
    Associate(was, Wires(a), Wires(b));
  }

  /** `count++` on a `uint8`. */
  function Next(count: byte): byte {
    (count as int + 1) % 0x100
  }

  /** The counter after `n` increments. */
  function Tally(n: nat): byte {
    if n == 0 then 0 else Next(Tally(n - 1))
  }

  lemma NextWraps(n: nat)
    ensures Next(n % 0x100) == (n + 1) % 0x100
  {
    var q, r := n / 0x100, n % 0x100;
    if r < 0xff {
      DivModUnique(n + 1, 0x100, q, r + 1);
    } else {
      DivModUnique(n + 1, 0x100, q + 1, 0);
    }
  }

  lemma {:induction false} TallyWraps(n: nat)
    ensures Tally(n) == n % 0x100
  {
    if n > 0 {
      TallyWraps(n - 1);
      NextWraps(n - 1);
    }
  }

  lemma SweepStep(cfg: Config, st: RouterState, order: seq<uint32>, i: nat)
    requires st.Valid() && (forall id | id in order :: id in st.rings) && i < |order|
    ensures SweepAll(cfg, st, order[..i + 1]) == VisitOne(cfg, SweepAll(cfg, st, order[..i]), order[i])
  {
    assert order[..i + 1][..i] == order[..i];
  }

  /** A visit adds to what the sweep has, whatever that is. */
  lemma VisitOneExtends(cfg: Config, s: Sweep, id: uint32)
    requires s.st.Valid() && id in s.st.rings
    ensures var v := VisitOne(cfg, Sweep(s.st, [], []), id);
            VisitOne(cfg, s, id) == Sweep(v.st, s.casts + v.casts, s.blocks + v.blocks)
  {
    if id in s.st.slow {
      VisitOneAlone(cfg, s.st, id);
    } else {
      EmptyEnds(s.casts);
      EmptyEnds(s.blocks);
    }
  }

  lemma VisitOneAlone(cfg: Config, st: RouterState, id: uint32)
    requires st.Valid() && id in st.rings && id in st.slow
    ensures var v := VisitSession(cfg, st.rings[id], st.slow[id]);
            VisitOne(cfg, Sweep(st, [], []), id) ==
            Sweep(RouterState(st.rings[id := v.ring], st.slow[id := v.slow]),
                  WarningCasts(id, v.warned), OutputBlocks(id, v.out))
  {
    var v := VisitSession(cfg, st.rings[id], st.slow[id]);
    EmptyEnds(WarningCasts(id, v.warned));
    EmptyEnds(OutputBlocks(id, v.out));
  }

  /** A collected block as the frame will carry it. */
  ghost function AsBlock(b: HeapBlock): SessionBlock
    reads b.data
  {
    SessionBlock(b.sessionId, b.length, b.data[..])
  }
}
