/** The echo lock of the browser's socket worker
    (frontend/src/workers/ws.worker.ts). */
module EchoLock {
  import opened Bytes
  import opened Codec

  /** What the worker posts to the page. */
  datatype Post =
    | Output(sessionId: uint32, data: seq<byte>)
    | Whole(frame: Frame)
    | Confirm(text: seq<byte>)

  /** The locked sessions, the blocks queued for them, and the callbacks that
      `setTimeout` still has to run, each with the sessions of its input. */
  datatype Worker = Worker(locked: set<uint32>, pending: map<uint32, seq<seq<byte>>>, timers: seq<seq<uint32>>)

  const IDLE := Worker({}, map[], [])

  // ------------------------------------------------------------- the handlers

  function LockAll(w: Worker, ids: seq<uint32>): Worker {
    if ids == [] then w
    else
      var k := |ids| - 1;
      var v := LockAll(w, ids[..k]);
      v.(locked := v.locked + {ids[k]}, pending := v.pending[ids[k] := []])
  }

  /** `handleInput`. */
  function OnInput(w: Worker, ids: seq<uint32>): Worker {
    var v := LockAll(w, ids);
    v.(timers := v.timers + [ids])
  }

  function QueueOf(w: Worker, id: uint32): seq<seq<byte>> {
    if id in w.pending then w.pending[id] else []
  }

  function QueueBlock(w: Worker, b: SessionBlock): Worker {
    if b.sessionId in w.locked
    then w.(pending := w.pending[b.sessionId := QueueOf(w, b.sessionId) + [b.data]])
    else w
  }

  function QueueAll(w: Worker, bs: seq<SessionBlock>): Worker {
    if bs == [] then w else QueueBlock(QueueAll(w, bs[..|bs| - 1]), bs[|bs| - 1])
  }

  /** `ws.onmessage`; `json` says whether the text of a confirmation parses. */
  function OnMessage(w: Worker, data: seq<byte>, json: bool): (Worker, seq<Post>) {
    match Decode(data)
    case None => (w, [])
    case Some(f) =>
      if f.kind == CONFIRM then
        (w, if json then [Confirm(if f.sessions == [] then [] else f.sessions[0].data)] else [])
      else if f.kind == TERMINAL_OUTPUT then (QueueAll(w, f.sessions), [Whole(f)])
      else (w, [Whole(f)])
  }

  function Outputs(id: uint32, blocks: seq<seq<byte>>): (ps: seq<Post>)
    ensures |ps| == |blocks|
  {
    seq(|blocks|, i requires 0 <= i < |blocks| => Output(id, blocks[i]))
  }

  function ReleaseOne(w: Worker, id: uint32): (Worker, seq<Post>) {
    (w.(locked := w.locked - {id}, pending := w.pending - {id}), Outputs(id, QueueOf(w, id)))
  }

  /** The callback of one input. */
  function ReleaseAll(w: Worker, ids: seq<uint32>): (Worker, seq<Post>) {
    if ids == [] then (w, [])
    else
      var (v, ps) := ReleaseAll(w, ids[..|ids| - 1]);
      var (u, qs) := ReleaseOne(v, ids[|ids| - 1]);
      (u, ps + qs)
  }

  /** Timer `k` of those outstanding fires. */
  function OnTimer(w: Worker, k: nat): (Worker, seq<Post>)
    requires k < |w.timers|
  {
    ReleaseAll(w.(timers := w.timers[..k] + w.timers[k + 1..]), w.timers[k])
  }

  class EchoWorker {
    var echoLockSessions: set<uint32>
    var pendingEchoFrames: map<uint32, seq<seq<byte>>>
    var timers: seq<seq<uint32>>
    var posted: seq<Post>

    ghost function View(): Worker
      reads this
    {
      Worker(echoLockSessions, pendingEchoFrames, timers)
    }

    constructor ()
      ensures View() == IDLE && posted == []
    {
      echoLockSessions, pendingEchoFrames, timers, posted := {}, map[], [], [];
    }

    method HandleInput(ids: seq<uint32>)
      modifies this`echoLockSessions, this`pendingEchoFrames, this`timers
      ensures View() == OnInput(old(View()), ids)
    {
      for i := 0 to |ids|
        invariant View() == LockAll(old(View()), ids[..i])
      {
        assert ids[..i + 1][..i] == ids[..i];
        echoLockSessions := echoLockSessions + {ids[i]};
        pendingEchoFrames := pendingEchoFrames[ids[i] := []];
      }
      assert ids[..|ids|] == ids;
      TimersKept(old(View()), ids);
      timers := timers + [ids];
    }

    method HandleMessage(data: seq<byte>, json: bool)
      modifies this`pendingEchoFrames, this`posted
      ensures var (w, ps) := OnMessage(old(View()), data, json);
              View() == w && posted == old(posted) + ps
    {
      var decoded := Deserialize(data);
      if decoded.None? {
        return;
      }
      var frame := decoded.value;
      if frame.kind == CONFIRM {
        if json {
          posted := posted + [Confirm(if frame.sessions == [] then [] else frame.sessions[0].data)];
        }
        return;
      }
      if frame.kind == TERMINAL_OUTPUT {
        var bs := frame.sessions;
        for i := 0 to |bs|
          invariant posted == old(posted) && View() == QueueAll(old(View()), bs[..i])
        {
          assert bs[..i + 1][..i] == bs[..i];
          if bs[i].sessionId in echoLockSessions {
            var pending := if bs[i].sessionId in pendingEchoFrames then pendingEchoFrames[bs[i].sessionId] else [];
            pending := pending + [bs[i].data];
            pendingEchoFrames := pendingEchoFrames[bs[i].sessionId := pending];
          }
        }
        assert bs[..|bs|] == bs;
      }
      posted := posted + [Whole(frame)];
    }

    /** One session of the callback. */
    method ReleaseSession(id: uint32)
      modifies this`echoLockSessions, this`pendingEchoFrames, this`posted
      ensures var (w, ps) := ReleaseOne(old(View()), id);
              View() == w && posted == old(posted) + ps
    {
      echoLockSessions := echoLockSessions - {id};
      var pending := if id in pendingEchoFrames then pendingEchoFrames[id] else [];
      for j := 0 to |pending|
        invariant posted == old(posted) + Outputs(id, pending[..j])
        invariant echoLockSessions == old(echoLockSessions) - {id}
        invariant pendingEchoFrames == old(pendingEchoFrames)
      {
        assert Outputs(id, pending[..j + 1]) == Outputs(id, pending[..j]) + [Output(id, pending[j])];
        posted := posted + [Output(id, pending[j])];
      }
      assert pending[..|pending|] == pending;
      pendingEchoFrames := pendingEchoFrames - {id};
    }

    /** The callback of timer `k`. */
    method Release(k: nat)
      requires k < |timers|
      modifies this
      ensures var (w, ps) := OnTimer(old(View()), k);
              View() == w && posted == old(posted) + ps
    {
      var ids := timers[k];
      timers := timers[..k] + timers[k + 1..];
      ghost var start := View();
      for i := 0 to |ids|
        invariant var (w, ps) := ReleaseAll(start, ids[..i]); View() == w && posted == old(posted) + ps
      {
        ReleaseSnoc(start, ids, i);
        Associate(old(posted), ReleaseAll(start, ids[..i]).1, Outputs(ids[i], QueueOf(View(), ids[i])));
        ReleaseSession(ids[i]);
      }
      assert ids[..|ids|] == ids;
    }
  }

  lemma ReleaseSnoc(w: Worker, ids: seq<uint32>, i: nat)
    requires i < |ids|
    ensures var (v, ps) := ReleaseAll(w, ids[..i]);
            var (u, qs) := ReleaseOne(v, ids[i]);
            ReleaseAll(w, ids[..i + 1]) == (u, ps + qs)
  {
    assert ids[..i + 1][..i] == ids[..i];
  }

  lemma {:induction false} TimersKept(w: Worker, ids: seq<uint32>)
    ensures LockAll(w, ids).timers == w.timers
  {
    if ids != [] {
      TimersKept(w, ids[..|ids| - 1]);
    }
  }

  // -------------------------------------------------------------- one session

  /** The window of one session: shut, or open with the blocks received in it. */
  datatype Watch = Shut | Open(blocks: seq<seq<byte>>)

  ghost predicate Watches(w: Worker, id: uint32, watch: Watch) {
    match watch
    case Shut => id !in w.locked && id !in w.pending
    case Open(blocks) => id in w.locked && id in w.pending && w.pending[id] == blocks
  }

  /** The data of a session's blocks, one entry per block. */
  function BlocksFor(bs: seq<SessionBlock>, id: uint32): seq<seq<byte>> {
    if bs == [] then []
    else
      var k := |bs| - 1;
      BlocksFor(bs[..k], id) + if bs[k].sessionId == id then [bs[k].data] else []
  }

  /** What the worker posts as `output` for one session. */
  function OutputsFor(ps: seq<Post>, id: uint32): seq<seq<byte>> {
    if ps == [] then []
    else
      var k := |ps| - 1;
      OutputsFor(ps[..k], id) + if ps[k].Output? && ps[k].sessionId == id then [ps[k].data] else []
  }

  lemma {:induction false} OutputsForAppend(a: seq<Post>, b: seq<Post>, id: uint32)
    ensures OutputsFor(a + b, id) == OutputsFor(a, id) + OutputsFor(b, id)
  {
    if b == [] {
      assert a + b == a && OutputsFor(a, id) + [] == OutputsFor(a, id);
    } else {
      var k := |b| - 1;
      assert (a + b)[..|a + b| - 1] == a + b[..k];
      OutputsForAppend(a, b[..k], id);
    }
  }

  lemma {:induction false} OutputsForOutputs(at: uint32, blocks: seq<seq<byte>>, id: uint32)
    ensures OutputsFor(Outputs(at, blocks), id) == if at == id then blocks else []
  {
    if blocks != [] {
      var k := |blocks| - 1;
      OutputsForOutputs(at, blocks[..k], id);
      assert Outputs(at, blocks)[..k] == Outputs(at, blocks[..k]);
      assert blocks == blocks[..k] + [blocks[k]];
    }
  }

  lemma {:induction false} LockWatched(w: Worker, ids: seq<uint32>, id: uint32, watch: Watch)
    requires Watches(w, id, watch)
    ensures Watches(LockAll(w, ids), id, if id in ids then Open([]) else watch)
  {
    if ids != [] {
      var k := |ids| - 1;
      LockWatched(w, ids[..k], id, watch);
      assert id in ids <==> id in ids[..k] || id == ids[k];
    }
  }

  lemma {:induction false} QueueWatched(w: Worker, bs: seq<SessionBlock>, id: uint32, watch: Watch)
    requires Watches(w, id, watch)
    ensures Watches(QueueAll(w, bs), id,
                    if watch.Open? then Open(watch.blocks + BlocksFor(bs, id)) else Shut)
    ensures QueueAll(w, bs).timers == w.timers
  {
    if bs == [] {
      assert watch.Open? ==> watch.blocks + [] == watch.blocks;
    } else {
      var k := |bs| - 1;
      QueueWatched(w, bs[..k], id, watch);
      if watch.Open? {
        Associate(watch.blocks, BlocksFor(bs[..k], id), if bs[k].sessionId == id then [bs[k].data] else []);
        EmptyEnds(watch.blocks + BlocksFor(bs[..k], id));
      }
    }
  }

  lemma {:induction false} ReleaseWatched(w: Worker, ids: seq<uint32>, id: uint32, watch: Watch)
    requires Watches(w, id, watch)
    ensures var (v, ps) := ReleaseAll(w, ids);
            && Watches(v, id, if id in ids then Shut else watch)
            && OutputsFor(ps, id) == (if id in ids && watch.Open? then watch.blocks else [])
            && v.timers == w.timers
  {
    if ids != [] {
      var k := |ids| - 1;
      ReleaseWatched(w, ids[..k], id, watch);
      var (v, ps) := ReleaseAll(w, ids[..k]);
      var qs := ReleaseOne(v, ids[k]).1;
      OutputsForAppend(ps, qs, id);
      OutputsForOutputs(ids[k], QueueOf(v, ids[k]), id);
      assert id in ids <==> id in ids[..k] || id == ids[k];
    }
  }

  // -------------------------------------------------------------------- runs

  datatype Event = Input(ids: seq<uint32>) | Message(data: seq<byte>, json: bool) | Timer(k: nat)

  predicate Enabled(w: Worker, e: Event) {
    e.Timer? ==> e.k < |w.timers|
  }

  function Step(w: Worker, e: Event): (Worker, seq<Post>)
    requires Enabled(w, e)
  {
    match e
    case Input(ids) => (OnInput(w, ids), [])
    case Message(data, json) => OnMessage(w, data, json)
    case Timer(k) => OnTimer(w, k)
  }

  predicate AllEnabled(w: Worker, run: seq<Event>)
    decreases |run|
  {
    run == [] || (Enabled(w, run[0]) && AllEnabled(Step(w, run[0]).0, run[1..]))
  }

  function Run(w: Worker, run: seq<Event>): (Worker, seq<Post>)
    requires AllEnabled(w, run)
    decreases |run|
  {
    if run == [] then (w, [])
    else
      var (v, ps) := Step(w, run[0]);
      var (u, qs) := Run(v, run[1..]);
      (u, ps + qs)
  }

  /** The blocks of terminal output a message brings for `id`. */
  function Brought(e: Event, id: uint32): seq<seq<byte>> {
    if e.Message? && Decode(e.data).Some? && Decode(e.data).value.kind == TERMINAL_OUTPUT
    then BlocksFor(Decode(e.data).value.sessions, id)
    else []
  }

  /** Whether the event is the firing of a timer of an input to `id`. */
  predicate Fires(w: Worker, e: Event, id: uint32)
    requires Enabled(w, e)
  {
    e.Timer? && id in w.timers[e.k]
  }

  /** What happens to the window of `id`: an input to `id` opens it anew, a timer of
      any input to `id` shuts it, and output received while it is open is added. */
  function NextWatch(w: Worker, e: Event, id: uint32, watch: Watch): Watch
    requires Enabled(w, e)
  {
    if e.Input? && id in e.ids then Open([])
    else if Fires(w, e, id) then Shut
    else if watch.Open? then Open(watch.blocks + Brought(e, id))
    else Shut
  }

  /** The window rule for one event: besides the next window, a firing timer posts
      the blocks of the window it shuts, and nothing else posts output for `id`. */
  lemma StepWatched(w: Worker, e: Event, id: uint32, watch: Watch)
    requires Enabled(w, e) && Watches(w, id, watch)
    ensures Watches(Step(w, e).0, id, NextWatch(w, e, id, watch))
    ensures OutputsFor(Step(w, e).1, id) == if Fires(w, e, id) && watch.Open? then watch.blocks else []
  {
    match e
    case Input(ids) =>
      LockWatched(w, ids, id, watch);
      assert watch.Open? ==> watch.blocks + [] == watch.blocks;
    case Message(data, json) =>
      assert watch.Open? ==> watch.blocks + [] == watch.blocks;
      if Brought(e, id) != [] || (Decode(data).Some? && Decode(data).value.kind == TERMINAL_OUTPUT) {
        QueueWatched(w, Decode(data).value.sessions, id, watch);
      }
    case Timer(k) =>
      assert watch.Open? ==> watch.blocks + [] == watch.blocks;
      ReleaseWatched(w.(timers := w.timers[..k] + w.timers[k + 1..]), w.timers[k], id, watch);
  }

  /** The outputs for `id` by the window rule alone. */
  function RuledOutputs(w: Worker, run: seq<Event>, id: uint32, watch: Watch): seq<seq<byte>>
    requires AllEnabled(w, run)
    decreases |run|
  {
    if run == [] then []
    else
      (if Fires(w, run[0], id) && watch.Open? then watch.blocks else [])
      + RuledOutputs(Step(w, run[0]).0, run[1..], id, NextWatch(w, run[0], id, watch))
  }

  /** Every run of inputs, messages and timers in any order posts for each session
      exactly what the window rule says. */
  lemma {:induction false} RunFollowsWindows(w: Worker, run: seq<Event>, id: uint32, watch: Watch)
    requires AllEnabled(w, run) && Watches(w, id, watch)
    ensures OutputsFor(Run(w, run).1, id) == RuledOutputs(w, run, id, watch)
    decreases |run|
  {
    if run != [] {
      var (v, ps) := Step(w, run[0]);
      StepWatched(w, run[0], id, watch);
      RunFollowsWindows(v, run[1..], id, NextWatch(w, run[0], id, watch));
      OutputsForAppend(ps, Run(v, run[1..]).1, id);
    }
  }

  function InputsOf(run: seq<Event>): multiset<seq<uint32>> {
    if run == [] then multiset{}
    else (if run[0].Input? then multiset{run[0].ids} else multiset{}) + InputsOf(run[1..])
  }

  /** The inputs whose timers fire in the run. */
  function Fired(w: Worker, run: seq<Event>): multiset<seq<uint32>>
    requires AllEnabled(w, run)
    decreases |run|
  {
    if run == [] then multiset{}
    else (if run[0].Timer? then multiset{w.timers[run[0].k]} else multiset{}) + Fired(Step(w, run[0]).0, run[1..])
  }

  lemma {:induction false} QueueKeepsTimers(w: Worker, bs: seq<SessionBlock>)
    ensures QueueAll(w, bs).timers == w.timers
  {
    if bs != [] {
      QueueKeepsTimers(w, bs[..|bs| - 1]);
    }
  }

  lemma {:induction false} ReleaseKeepsTimers(w: Worker, ids: seq<uint32>)
    ensures ReleaseAll(w, ids).0.timers == w.timers
  {
    if ids != [] {
      ReleaseKeepsTimers(w, ids[..|ids| - 1]);
    }
  }

  lemma StepTimers(w: Worker, e: Event)
    requires Enabled(w, e)
    ensures multiset(w.timers) + (if e.Input? then multiset{e.ids} else multiset{}) ==
            (if e.Timer? then multiset{w.timers[e.k]} else multiset{}) + multiset(Step(w, e).0.timers)
  {
    match e
    case Input(ids) => TimersKept(w, ids);
    case Message(data, json) =>
      if Decode(data).Some? { QueueKeepsTimers(w, Decode(data).value.sessions); }
    case Timer(k) =>
      var rest := w.timers[..k] + w.timers[k + 1..];
      ReleaseKeepsTimers(w.(timers := rest), w.timers[k]);
      assert w.timers == w.timers[..k] + [w.timers[k]] + w.timers[k + 1..];
  }

  lemma SpliceTimers<T>(was: multiset<T>, in1: multiset<T>, out1: multiset<T>, mid: multiset<T>,
                        in2: multiset<T>, out2: multiset<T>, left: multiset<T>)
    requires was + in1 == out1 + mid && mid + in2 == out2 + left
    ensures was + (in1 + in2) == (out1 + out2) + left
  {
    assert was + (in1 + in2) == (was + in1) + in2;
    assert (out1 + mid) + in2 == out1 + (mid + in2);
  }

  /** Every input sets one timer and every timer fires at most once: those set and
      those outstanding at the start are those fired and those outstanding now. */
  lemma {:induction false} TimersAreConserved(w: Worker, run: seq<Event>)
    requires AllEnabled(w, run)
    ensures multiset(w.timers) + InputsOf(run) == Fired(w, run) + multiset(Run(w, run).0.timers)
    decreases |run|
  {
    if run == [] {
      assert Run(w, run).0 == w;
    } else {
      var v := Step(w, run[0]).0;
      StepTimers(w, run[0]);
      TimersAreConserved(v, run[1..]);
      assert Run(w, run).0 == Run(v, run[1..]).0;
      var in1 := if run[0].Input? then multiset{run[0].ids} else multiset{};
      var out1 := if run[0].Timer? then multiset{w.timers[run[0].k]} else multiset{};
      SpliceTimers(multiset(w.timers), in1, out1, multiset(v.timers),
                   InputsOf(run[1..]), Fired(v, run[1..]), multiset(Run(v, run[1..]).0.timers));
    }
  }

  // -------------------------------------------------------------- the promises

  /** No input to `id` in the run, and no timer of one fires. */
  predicate Quiet(w: Worker, run: seq<Event>, id: uint32)
    requires AllEnabled(w, run)
    decreases |run|
  {
    run == [] ||
    (!(run[0].Input? && id in run[0].ids) && !Fires(w, run[0], id) && Quiet(Step(w, run[0]).0, run[1..], id))
  }

  function BroughtAll(run: seq<Event>, id: uint32): seq<seq<byte>> {
    if run == [] then [] else Brought(run[0], id) + BroughtAll(run[1..], id)
  }

  /** While nothing opens or shuts it, an open window gathers what is received, in
      order, a shut one gathers nothing, and no output is posted for the session. */
  lemma {:induction false} QuietGathers(w: Worker, run: seq<Event>, id: uint32, watch: Watch)
    requires AllEnabled(w, run) && Watches(w, id, watch) && Quiet(w, run, id)
    ensures Watches(Run(w, run).0, id, if watch.Open? then Open(watch.blocks + BroughtAll(run, id)) else Shut)
    ensures OutputsFor(Run(w, run).1, id) == []
    decreases |run|
  {
    if run == [] {
      assert watch.Open? ==> watch.blocks + [] == watch.blocks;
    } else {
      var e := run[0];
      var (v, ps) := Step(w, e);
      StepWatched(w, e, id, watch);
      QuietGathers(v, run[1..], id, NextWatch(w, e, id, watch));
      OutputsForAppend(ps, Run(v, run[1..]).1, id);
      if watch.Open? {
        Associate(watch.blocks, Brought(e, id), BroughtAll(run[1..], id));
      }
    }
  }

  /** The lock keeps its promise when inputs do not overlap: the release posts
      exactly the session's output blocks received since the input, once each and
      in arrival order, and ends the lock. */
  lemma LockReplays(w: Worker, ids: seq<uint32>, mid: seq<Event>, k: nat, id: uint32)
    requires id in ids && Watches(w, id, Shut)
    requires AllEnabled(OnInput(w, ids), mid) && Quiet(OnInput(w, ids), mid, id)
    requires var v := Run(OnInput(w, ids), mid).0; Enabled(v, Timer(k)) && Fires(v, Timer(k), id)
    ensures var (v, ps) := Run(OnInput(w, ids), mid);
            && OutputsFor(ps, id) == []
            && OutputsFor(OnTimer(v, k).1, id) == BroughtAll(mid, id)
            && Watches(OnTimer(v, k).0, id, Shut)
  {
    var locked := OnInput(w, ids);
    StepWatched(w, Input(ids), id, Shut);
    QuietGathers(locked, mid, id, Open([]));
    EmptyEnds(BroughtAll(mid, id));
    StepWatched(Run(locked, mid).0, Timer(k), id, Open(BroughtAll(mid, id)));
  }

  /** With overlapping inputs the blocks queued before the later input are posted
      by no timer; the first timer, though it is the earlier input's, posts what
      came since the later input and ends the lock; and what comes between the two
      timers is not queued at all. */
  lemma OverlapLoses(w: Worker, watch: Watch, mid1: seq<Event>, ids: seq<uint32>, mid2: seq<Event>, k: nat,
                     mid3: seq<Event>, l: nat, id: uint32)
    requires id in ids && watch.Open? && Watches(w, id, watch)
    requires AllEnabled(w, mid1) && Quiet(w, mid1, id)
    requires var w2 := OnInput(Run(w, mid1).0, ids);
             && AllEnabled(w2, mid2) && Quiet(w2, mid2, id)
             && var w3 := Run(w2, mid2).0;
                && Enabled(w3, Timer(k)) && Fires(w3, Timer(k), id)
                && var w4 := OnTimer(w3, k).0;
                   && AllEnabled(w4, mid3) && Quiet(w4, mid3, id)
                   && Enabled(Run(w4, mid3).0, Timer(l))
    ensures var w2 := OnInput(Run(w, mid1).0, ids);
            var w3 := Run(w2, mid2).0;
            var w4 := OnTimer(w3, k).0;
            var w5 := Run(w4, mid3).0;
            && OutputsFor(Run(w, mid1).1, id) == [] && OutputsFor(Run(w2, mid2).1, id) == []
            && OutputsFor(OnTimer(w3, k).1, id) == BroughtAll(mid2, id)
            && OutputsFor(Run(w4, mid3).1, id) == [] && Watches(w5, id, Shut)
            && OutputsFor(OnTimer(w5, l).1, id) == []
  {
    var w1 := Run(w, mid1).0;
    var queued := Open(watch.blocks + BroughtAll(mid1, id));
    QuietGathers(w, mid1, id, watch);
    StepWatched(w1, Input(ids), id, queued);
    var w2 := OnInput(w1, ids);
    QuietGathers(w2, mid2, id, Open([]));
    EmptyEnds(BroughtAll(mid2, id));
    var w3 := Run(w2, mid2).0;
    StepWatched(w3, Timer(k), id, Open(BroughtAll(mid2, id)));
    var w4 := OnTimer(w3, k).0;
    QuietGathers(w4, mid3, id, Shut);
    StepWatched(Run(w4, mid3).0, Timer(l), id, Shut);
  }

  // -------------------------------------------------------- what is discarded

  /** The window of `id` as the worker's own fields show it. */
  function WatchOf(w: Worker, id: uint32): Watch {
    if id in w.locked then Open(QueueOf(w, id)) else Shut
  }

  /** Locked sessions are those with a queue, as `IDLE` and every step have it. */
  predicate Consistent(w: Worker, id: uint32) {
    id in w.locked <==> id in w.pending
  }

  /** The blocks the event brings for `id` while the session is locked. */
  function LockedHere(w: Worker, e: Event, id: uint32): seq<seq<byte>> {
    if id in w.locked then Brought(e, id) else []
  }

  function BroughtLocked(w: Worker, run: seq<Event>, id: uint32): seq<seq<byte>>
    requires AllEnabled(w, run)
    decreases |run|
  {
    if run == [] then []
    else LockedHere(w, run[0], id) + BroughtLocked(Step(w, run[0]).0, run[1..], id)
  }

  /** The number of queued blocks an input throws away: it starts a new queue. */
  function LostHere(w: Worker, e: Event, id: uint32): nat {
    if e.Input? && id in e.ids then |QueueOf(w, id)| else 0
  }

  function Lost(w: Worker, run: seq<Event>, id: uint32): nat
    requires AllEnabled(w, run)
    decreases |run|
  {
    if run == [] then 0
    else LostHere(w, run[0], id) + Lost(Step(w, run[0]).0, run[1..], id)
  }

  /** Every input to `id` finds an empty queue in `pendingEchoFrames`, or none. */
  predicate InputsFindNothingQueued(w: Worker, run: seq<Event>, id: uint32)
    requires AllEnabled(w, run)
    decreases |run|
  {
    run == [] ||
    ((run[0].Input? && id in run[0].ids ==> QueueOf(w, id) == []) &&
     InputsFindNothingQueued(Step(w, run[0]).0, run[1..], id))
  }

  lemma StepBalances(w: Worker, e: Event, id: uint32)
    requires Enabled(w, e) && Consistent(w, id)
    ensures var (v, ps) := Step(w, e);
            && Consistent(v, id)
            && |QueueOf(w, id)| + |LockedHere(w, e, id)| == |OutputsFor(ps, id)| + |QueueOf(v, id)| + LostHere(w, e, id)
            && (LostHere(w, e, id) == 0 ==>
                  QueueOf(w, id) + LockedHere(w, e, id) == OutputsFor(ps, id) + QueueOf(v, id))
  {
    var q, here := QueueOf(w, id), LockedHere(w, e, id);
    StepWatched(w, e, id, WatchOf(w, id));
    EmptyEnds(q);
    EmptyEnds(q + here);
  }

  lemma {:induction false} RunBalances(w: Worker, run: seq<Event>, id: uint32)
    requires AllEnabled(w, run) && Consistent(w, id)
    ensures |QueueOf(w, id)| + |BroughtLocked(w, run, id)| ==
            |OutputsFor(Run(w, run).1, id)| + |QueueOf(Run(w, run).0, id)| + Lost(w, run, id)
    ensures Lost(w, run, id) == 0 <==> InputsFindNothingQueued(w, run, id)
    decreases |run|
  {
    if run != [] {
      var (v, ps) := Step(w, run[0]);
      StepBalances(w, run[0], id);
      RunBalances(v, run[1..], id);
      OutputsForAppend(ps, Run(v, run[1..]).1, id);
    }
  }

  lemma {:induction false} RunReplays(w: Worker, run: seq<Event>, id: uint32)
    requires AllEnabled(w, run) && Consistent(w, id) && InputsFindNothingQueued(w, run, id)
    ensures QueueOf(w, id) + BroughtLocked(w, run, id) ==
            OutputsFor(Run(w, run).1, id) + QueueOf(Run(w, run).0, id)
    decreases |run|
  {
    var q := QueueOf(w, id);
    if run == [] {
      assert q + [] == [] + q;
    } else {
      var (v, ps) := Step(w, run[0]);
      var (end, qs) := Run(v, run[1..]);
      StepBalances(w, run[0], id);
      RunReplays(v, run[1..], id);
      OutputsForAppend(ps, qs, id);
      Splice(q, LockedHere(w, run[0], id), OutputsFor(ps, id), QueueOf(v, id),
             BroughtLocked(v, run[1..], id), OutputsFor(qs, id), QueueOf(end, id));
    }
  }

  /** The exact condition for the replay, over every run: the blocks queued at the
      start and those received while locked are, in order and once each, the blocks
      released and those still queued, precisely when no input to the session finds
      a block in its queue. Otherwise as many are lost as the inputs found. */
  lemma ReplayIff(w: Worker, run: seq<Event>, id: uint32)
    requires AllEnabled(w, run) && Consistent(w, id)
    ensures QueueOf(w, id) + BroughtLocked(w, run, id) ==
            OutputsFor(Run(w, run).1, id) + QueueOf(Run(w, run).0, id)
            <==> InputsFindNothingQueued(w, run, id)
    ensures |QueueOf(w, id)| + |BroughtLocked(w, run, id)| ==
            |OutputsFor(Run(w, run).1, id)| + |QueueOf(Run(w, run).0, id)| + Lost(w, run, id)
    ensures Lost(w, run, id) == 0 <==> InputsFindNothingQueued(w, run, id)
  {
    RunBalances(w, run, id);
    if InputsFindNothingQueued(w, run, id) {
      RunReplays(w, run, id);
    } else {
      LengthsApart(QueueOf(w, id), BroughtLocked(w, run, id),
                   OutputsFor(Run(w, run).1, id), QueueOf(Run(w, run).0, id));
    }
  }

  lemma LengthsApart<T>(a: seq<T>, b: seq<T>, c: seq<T>, d: seq<T>)
    requires |a| + |b| != |c| + |d|
    ensures a + b != c + d
  {
    assert |a + b| != |c + d|;
  }

  /** The blocks for `id` inside the whole frames that are posted. */
  function WholeFor(ps: seq<Post>, id: uint32): seq<seq<byte>> {
    if ps == [] then []
    else
      (if ps[0].Whole? && ps[0].frame.kind == TERMINAL_OUTPUT then BlocksFor(ps[0].frame.sessions, id) else [])
      + WholeFor(ps[1..], id)
  }

  lemma {:induction false} WholeForAppend(a: seq<Post>, b: seq<Post>, id: uint32)
    ensures WholeFor(a + b, id) == WholeFor(a, id) + WholeFor(b, id)
  {
    if a == [] {
      assert a + b == b;
    } else {
      assert (a + b)[1..] == a[1..] + b;
      WholeForAppend(a[1..], b, id);
    }
  }

  lemma {:induction false} ReleasesNoFrames(w: Worker, ids: seq<uint32>)
    ensures forall p | p in ReleaseAll(w, ids).1 :: p.Output?
  {
    if ids != [] {
      ReleasesNoFrames(w, ids[..|ids| - 1]);
    }
  }

  lemma {:induction false} NoFramesNoBlocks(ps: seq<Post>, id: uint32)
    requires forall p | p in ps :: p.Output?
    ensures WholeFor(ps, id) == []
  {
    if ps != [] {
      assert ps[0] in ps;
      NoFramesNoBlocks(ps[1..], id);
    }
  }

  lemma StepPostsAtOnce(w: Worker, e: Event, id: uint32)
    requires Enabled(w, e)
    ensures WholeFor(Step(w, e).1, id) == Brought(e, id)
  {
    match e
    case Input(ids) =>
    case Message(data, json) =>
      var ps := OnMessage(w, data, json).1;
      assert ps != [] ==> ps[1..] == [];
    case Timer(k) =>
      var v := w.(timers := w.timers[..k] + w.timers[k + 1..]);
      ReleasesNoFrames(v, w.timers[k]);
      NoFramesNoBlocks(OnTimer(w, k).1, id);
  }

  /** The lock does not hold anything back: in every run every output frame is
      posted whole when it arrives, locked or not. */
  lemma {:induction false} EverythingIsPostedAtOnce(w: Worker, run: seq<Event>, id: uint32)
    requires AllEnabled(w, run)
    ensures WholeFor(Run(w, run).1, id) == BroughtAll(run, id)
    decreases |run|
  {
    if run != [] {
      var (v, ps) := Step(w, run[0]);
      StepPostsAtOnce(w, run[0], id);
      EverythingIsPostedAtOnce(v, run[1..], id);
      WholeForAppend(ps, Run(v, run[1..]).1, id);
    }
  }

  /** So the blocks that reach the page are all that came, and again those received
      while locked, but for the lost and the still queued; every block reaches it
      exactly once precisely when the lock has nothing to replay. */
  lemma PostedTwice(w: Worker, run: seq<Event>, id: uint32)
    requires AllEnabled(w, run) && Consistent(w, id)
    ensures var (end, ps) := Run(w, run);
            var posted := |WholeFor(ps, id)| + |OutputsFor(ps, id)|;
            var locked := |QueueOf(w, id)| + |BroughtLocked(w, run, id)|;
            && posted + |QueueOf(end, id)| + Lost(w, run, id) == |BroughtAll(run, id)| + locked
            && (posted == |BroughtAll(run, id)| <==> locked == |QueueOf(end, id)| + Lost(w, run, id))
  {
    EverythingIsPostedAtOnce(w, run, id);
    ReplayIff(w, run, id);
  }

  /** The posts that are no output: frames and confirmations. */
  function Direct(ps: seq<Post>): seq<Post> {
    if ps == [] then [] else (if ps[0].Output? then [] else [ps[0]]) + Direct(ps[1..])
  }

  lemma {:induction false} DirectAppend(a: seq<Post>, b: seq<Post>)
    ensures Direct(a + b) == Direct(a) + Direct(b)
  {
    if a == [] {
      assert a + b == b;
    } else {
      assert (a + b)[1..] == a[1..] + b;
      DirectAppend(a[1..], b);
    }
  }

  lemma {:induction false} OutputsAreNotDirect(ps: seq<Post>)
    requires forall p | p in ps :: p.Output?
    ensures Direct(ps) == []
  {
    if ps != [] {
      assert ps[0] in ps;
      OutputsAreNotDirect(ps[1..]);
    }
  }

  /** What the page is to see of a message that decodes: the frame as it is, whatever
      its kind, but for a confirmation (kind 8), of which it sees the text of the first
      block if that parses. */
  function ArrivedBy(e: Event): seq<Post> {
    if !e.Message? then []
    else
      match Decode(e.data)
      case None => []
      case Some(f) =>
        if f.kind != 0x08 then [Whole(f)]
        else if !e.json then []
        else [Confirm(if |f.sessions| == 0 then [] else f.sessions[0].data)]
  }

  function Arrived(run: seq<Event>): seq<Post> {
    if run == [] then [] else ArrivedBy(run[0]) + Arrived(run[1..])
  }

  lemma StepPostsArrived(w: Worker, e: Event)
    requires Enabled(w, e)
    ensures Direct(Step(w, e).1) == ArrivedBy(e)
  {
    match e
    case Input(ids) =>
    case Message(data, json) =>
      var ps := OnMessage(w, data, json).1;
      assert ps != [] ==> ps[1..] == [];
    case Timer(k) =>
      ReleasesNoFrames(w.(timers := w.timers[..k] + w.timers[k + 1..]), w.timers[k]);
      OutputsAreNotDirect(OnTimer(w, k).1);
  }

  /** Over every run, frames of every kind and confirmations reach the page whole, as
      they arrive and in that order; inputs, timers and the lock make no difference. */
  lemma {:induction false} EveryFrameIsPosted(w: Worker, run: seq<Event>)
    requires AllEnabled(w, run)
    ensures Direct(Run(w, run).1) == Arrived(run)
    decreases |run|
  {
    if run != [] {
      var (v, ps) := Step(w, run[0]);
      StepPostsArrived(w, run[0]);
      EveryFrameIsPosted(v, run[1..]);
      DirectAppend(ps, Run(v, run[1..]).1);
    }
  }

  /** Only terminal output (kind 2) touches the queues, and no message touches lock or
      timers. */
  lemma OtherKindsLeaveTheLock(w: Worker, data: seq<byte>, json: bool)
    ensures var v := OnMessage(w, data, json).0;
            && v.locked == w.locked && v.timers == w.timers
            && (v != w ==> Decode(data).Some? && Decode(data).value.kind == 0x02)
  {
    if Decode(data).Some? {
      QueueKeepsTimers(w, Decode(data).value.sessions);
      QueueKeepsLock(w, Decode(data).value.sessions);
    }
  }

  lemma {:induction false} QueueKeepsLock(w: Worker, bs: seq<SessionBlock>)
    ensures QueueAll(w, bs).locked == w.locked
  {
    if bs != [] {
      QueueKeepsLock(w, bs[..|bs| - 1]);
    }
  }

  /** Where `id` is first named. */
  function FirstAt(ids: seq<uint32>, id: uint32): nat {
    if ids == [] || ids[0] == id then 0 else 1 + FirstAt(ids[1..], id)
  }

  lemma {:induction false} FirstAtPrefix(ids: seq<uint32>, k: nat, id: uint32)
    requires k <= |ids|
    ensures id in ids[..k] ==> FirstAt(ids, id) < k
    ensures id !in ids[..k] && k < |ids| && ids[k] == id ==> FirstAt(ids, id) == k
  {
    if k > 0 {
      assert ids[..k] == [ids[0]] + ids[1..][..k - 1];
      FirstAtPrefix(ids[1..], k - 1, id);
    }
  }

  /** Outputs of sessions named before `k`, in the order in which they are named
      first. */
  predicate InOrder(ps: seq<Post>, ids: seq<uint32>, k: nat) {
    && (forall i | 0 <= i < |ps| :: ps[i].Output? && FirstAt(ids, ps[i].sessionId) < k)
    && forall i, j | 0 <= i < j < |ps| :: FirstAt(ids, ps[i].sessionId) <= FirstAt(ids, ps[j].sessionId)
  }

  lemma OneMoreInOrder(ps: seq<Post>, ids: seq<uint32>, k: nat, id: uint32, blocks: seq<seq<byte>>)
    requires InOrder(ps, ids, k) && (blocks != [] ==> FirstAt(ids, id) == k)
    ensures InOrder(ps + Outputs(id, blocks), ids, k + 1)
  {
  }

  lemma {:induction false} ReleasedAreForgotten(w: Worker, ids: seq<uint32>, id: uint32)
    requires id in ids
    ensures QueueOf(ReleaseAll(w, ids).0, id) == []
  {
    var k := |ids| - 1;
    if id != ids[k] {
      assert id in ids[..k];
      ReleasedAreForgotten(w, ids[..k], id);
    }
  }

  lemma {:induction false} ReleasedBefore(w: Worker, ids: seq<uint32>, k: nat)
    requires k <= |ids|
    ensures InOrder(ReleaseAll(w, ids[..k]).1, ids, k)
    decreases k
  {
    if k > 0 {
      var id := ids[k - 1];
      var (v, ps) := ReleaseAll(w, ids[..k - 1]);
      ReleasedBefore(w, ids, k - 1);
      ReleaseSnoc(w, ids, k - 1);
      if id in ids[..k - 1] {
        ReleasedAreForgotten(w, ids[..k - 1], id);
      } else {
        FirstAtPrefix(ids, k - 1, id);
      }
      OneMoreInOrder(ps, ids, k - 1, id, QueueOf(v, id));
    }
  }

  /** A release goes through the sessions in the order of its input. */
  lemma ReleaseInOrder(w: Worker, k: nat)
    requires k < |w.timers|
    ensures InOrder(OnTimer(w, k).1, w.timers[k], |w.timers[k]|)
  {
    var ids := w.timers[k];
    ReleasedBefore(w.(timers := w.timers[..k] + w.timers[k + 1..]), ids, |ids|);
    assert ids[..|ids|] == ids;
  }

  /** A printed confirmation request comes out as its text, is no output, and leaves
      lock, queues and timers alone; one that does not parse is dropped. */
  lemma ConfirmationIsForwarded(w: Worker, id: uint32, text: seq<byte>, json: bool)
    requires |text| < 0x1_0000
    ensures var f := Frame(CONFIRM, 1, [SessionBlock(id, |text|, text)]);
            && Serialized(f).Some?
            && OnMessage(w, Serialized(f).value, json) == (w, if json then [Confirm(text)] else [])
  {
    var f := Frame(CONFIRM, 1, [SessionBlock(id, |text|, text)]);
    ParserInvertsPrinter(f, []);
    EmptyEnds(Encode(f));
  }
}
