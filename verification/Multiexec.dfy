/** Input broadcast to many sessions (gateway/internal/multiexec/engine.go). */
module Multiexec {
  import opened Bytes
  import opened Sessions

  datatype SendError =
    | NotFound(id: uint32)
    | NotActive(id: uint32)
    | IsSlow(id: uint32)
    | WriteFailed(id: uint32)

  /** What a shell's `Write` does: it takes everything, or fails after some bytes. */
  datatype WriteResult = Complete | Broken(taken: nat)

  /** What becomes of one target. */
  datatype Outcome = Skipped | Refused(error: SendError) | Written

  function Decide(reg: Registry, source: uint32, id: uint32, w: WriteResult): Outcome {
    if id == source then Skipped
    else if id !in reg then Refused(NotFound(id))
    else if reg[id].state != Active then Refused(NotActive(id))
    else if reg[id].isSlow then Refused(IsSlow(id))
    else if w.Broken? then Refused(WriteFailed(id))
    else Written
  }

  /** The bytes of `input` that reach the target's shell. */
  function Reaching(reg: Registry, source: uint32, id: uint32, w: WriteResult, input: seq<byte>): seq<byte> {
    match Decide(reg, source, id, w)
    case Written => input
    case Refused(WriteFailed(_)) => if w.Broken? then input[..Min(w.taken, |input|)] else []
    case _ => []
  }

  function ErrorsOf(o: Outcome): seq<SendError> {
    if o.Refused? then [o.error] else []
  }

  /** The registry after one target. */
  function SentTo(reg: Registry, source: uint32, id: uint32, w: WriteResult, input: seq<byte>): Registry {
    if id in reg then reg[id := reg[id].(shell := reg[id].shell + Reaching(reg, source, id, w, input))] else reg
  }

  /** `BroadcastSync`, target by target: the registry afterwards and the errors. */
  function Sent(reg: Registry, input: seq<byte>, source: uint32, targets: seq<uint32>, ws: seq<WriteResult>)
    : (r: (Registry, seq<SendError>))
    requires |ws| == |targets|
    decreases |targets|
  {
    if targets == [] then (reg, [])
    else
      var k := |targets| - 1;
      var (before, errors) := Sent(reg, input, source, targets[..k], ws[..k]);
      (SentTo(before, source, targets[k], ws[k], input),
       errors + ErrorsOf(Decide(before, source, targets[k], ws[k])))
  }

  /** What `Write` takes of the bytes it is given. */
  function Taking(data: seq<byte>, w: WriteResult): seq<byte> {
    if w.Complete? then data else data[..Min(w.taken, |data|)]
  }

  /** The registry after a write to one shell. */
  function Wrote(reg: Registry, id: uint32, data: seq<byte>): Registry {
    if id in reg then reg[id := reg[id].(shell := reg[id].shell + data)] else reg
  }

  // -------------------------------------------------------------- the objects

  /** A started goroutine: its session, and the array it will write from. */
  datatype Goroutine = Goroutine(sess: Session, data: array<byte>)

  function IdsOf(gs: seq<Goroutine>): (ids: seq<uint32>)
    ensures |ids| == |gs|
  {
    seq(|gs|, i requires 0 <= i < |gs| => gs[i].sess.sessionId)
  }

  lemma IdsOfSnoc(gs: seq<Goroutine>, g: Goroutine)
    ensures IdsOf(gs + [g]) == IdsOf(gs) + [g.sess.sessionId]
  {
  }

  class Engine {
    const sessionMgr: Manager

    constructor (mgr: Manager)
      ensures sessionMgr == mgr
    {
      sessionMgr := mgr;
    }

    /** `ShellStream.Write`. */
    static method WriteShell(s: Session, input: seq<byte>, w: WriteResult) returns (ok: bool)
      modifies s`shell
      ensures s.shell == old(s.shell) + Taking(input, w)
      ensures Taking(input, w) == input[..if w.Complete? then |input| else Min(w.taken, |input|)]
      ensures ok <==> w.Complete?
    {
      assert input[..|input|] == input;
      match w
      case Complete =>
        s.shell := s.shell + input;
        ok := true;
      case Broken(taken) =>
        s.shell := s.shell + input[..Min(taken, |input|)];
        ok := false;
    }

    /** One turn of the loop of `BroadcastSync`. */
    method SendOne(input: seq<byte>, source: uint32, id: uint32, w: WriteResult) returns (errors: seq<SendError>)
      requires sessionMgr.Valid()
      modifies sessionMgr.sessions.Values
      ensures sessionMgr.Valid()
      ensures sessionMgr.View() == SentTo(old(sessionMgr.View()), source, id, w, input)
      ensures errors == ErrorsOf(Decide(old(sessionMgr.View()), source, id, w))
    {
      ghost var was := sessionMgr.View();
      if id == source {
        assert id in was ==> was[id].(shell := was[id].shell + []) == was[id];
        return [];
      }
      var s := sessionMgr.Get(id);
      if s == null {
        return [NotFound(id)];
      }
      assert was[id].(shell := was[id].shell + []) == was[id] == s.View();
      if s.state != Active {
        return [NotActive(id)];
      }
      if s.isSlow {
        return [IsSlow(id)];
      }
      var ok := WriteShell(s, input, w);
      assert sessionMgr.View() == was[id := s.View()];
      errors := if ok then [] else [WriteFailed(id)];
    }

    /** The asynchronous `Broadcast`: the same decisions, one goroutine started per
        target that passes them. Its errors are those of a synchronous call whose
        writes all succeed, and the goroutines are for its written targets. Every one
        of them is handed the caller's own array. */
    method Broadcast(input: array<byte>, source: uint32, targets: seq<uint32>)
      returns (errors: seq<SendError>, started: seq<Goroutine>)
      requires sessionMgr.Valid()
      ensures errors == AllErrors(Outcomes(sessionMgr.View(), source, targets, AllComplete(|targets|)))
      ensures TellsAll(sessionMgr.View(), source, targets, AllComplete(|targets|), errors)
      ensures IdsOf(started) == Started(sessionMgr.View(), source, targets) ==
              Reached(sessionMgr.View(), source, targets)
      ensures forall g | g in started :: g.data == input && Registered(g.sess)
    {
      errors, started := [], [];
      ghost var reg := sessionMgr.View();
      for i := 0 to |targets|
        invariant errors == AllErrors(Outcomes(reg, source, targets[..i], AllComplete(i)))
        invariant IdsOf(started) == Started(reg, source, targets[..i])
        invariant forall g | g in started :: g.data == input && Registered(g.sess)
      {
        OutcomesPrefix(reg, source, targets[..i + 1], AllComplete(i + 1));
        StartedSnoc(reg, source, targets[..i + 1]);
        assert targets[..i + 1][..i] == targets[..i] && AllComplete(i + 1)[..i] == AllComplete(i);
        EmptyEnds(IdsOf(started));
        EmptyEnds(errors);
        var id := targets[i];
        if id == source {
          continue;
        }
        var s := sessionMgr.Get(id);
        if s == null {
          errors := errors + [NotFound(id)];
        } else if s.state != Active {
          errors := errors + [NotActive(id)];
        } else if s.isSlow {
          errors := errors + [IsSlow(id)];
        } else {
          IdsOfSnoc(started, Goroutine(s, input));
          started := started + [Goroutine(s, input)];
        }
      }
      assert targets[..|targets|] == targets;
      AsyncTellsAll(reg, source, targets);
    }

    ghost predicate Registered(s: Session)
      reads sessionMgr
    {
      s.sessionId in sessionMgr.sessions && sessionMgr.sessions[s.sessionId] == s
    }

    /** What a goroutine does when it runs: it writes what the array holds by then. */
    method WriteShared(g: Goroutine, w: WriteResult) returns (ok: bool)
      requires sessionMgr.Valid()
      modifies g.sess`shell
      ensures ok <==> w.Complete?
      ensures g.sess.shell == old(g.sess.shell) + Taking(g.data[..], w)
      ensures sessionMgr.Valid()
      ensures sessionMgr.View() ==
              if Registered(g.sess) then Wrote(old(sessionMgr.View()), g.sess.sessionId, Taking(g.data[..], w))
              else old(sessionMgr.View())
    {
      ghost var was := sessionMgr.View();
      ok := WriteShell(g.sess, g.data[..], w);
      assert sessionMgr.View() == if Registered(g.sess) then was[g.sess.sessionId := g.sess.View()] else was;
    }

    /** Synchronous writes to all targets but the source, in the order given. */
    method BroadcastSync(input: seq<byte>, source: uint32, targets: seq<uint32>, ws: seq<WriteResult>)
      returns (errors: seq<SendError>)
      requires sessionMgr.Valid() && |ws| == |targets|
      modifies sessionMgr.sessions.Values
      ensures sessionMgr.Valid()
      ensures (sessionMgr.View(), errors) == Sent(old(sessionMgr.View()), input, source, targets, ws)
      ensures TellsAll(old(sessionMgr.View()), source, targets, ws, errors)
    {
      SyncTellsAll(sessionMgr.View(), input, source, targets, ws);
      errors := [];
      for i := 0 to |targets|
        invariant sessionMgr.Valid()
        invariant (sessionMgr.View(), errors) == Sent(old(sessionMgr.View()), input, source, targets[..i], ws[..i])
      {
        assert targets[..i + 1][..i] == targets[..i] && ws[..i + 1][..i] == ws[..i];
        var more := SendOne(input, source, targets[i], ws[i]);
        errors := errors + more;
      }
      assert targets[..|targets|] == targets && ws[..|ws|] == ws;
    }
  }

  // ------------------------------------------------------ what a caller is told

  /** A target that is not written: unknown, not active, slow, or a broken write. */
  predicate Fails(reg: Registry, id: uint32, w: WriteResult) {
    id !in reg || reg[id].state != Active || reg[id].isSlow || w.Broken?
  }

  /** The error names the target, and the first of the reasons that holds. */
  predicate Tells(reg: Registry, id: uint32, w: WriteResult, e: SendError) {
    && e.id == id
    && (e.NotFound? <==> id !in reg)
    && (e.NotActive? <==> id in reg && reg[id].state != Active)
    && (e.IsSlow? <==> id in reg && reg[id].state == Active && reg[id].isSlow)
    && (e.WriteFailed? <==> id in reg && reg[id].state == Active && !reg[id].isSlow && w.Broken?)
  }

  /** The errors are, in the order of the targets, one for every target that fails
      and is not the source, which is passed over in silence. */
  predicate TellsAll(reg: Registry, source: uint32, targets: seq<uint32>, ws: seq<WriteResult>, errors: seq<SendError>)
    requires |ws| == |targets|
    decreases |targets|
  {
    if targets == [] then errors == []
    else
      var k := |targets| - 1;
      if targets[k] != source && Fails(reg, targets[k], ws[k])
      then errors != [] && Tells(reg, targets[k], ws[k], errors[|errors| - 1])
           && TellsAll(reg, source, targets[..k], ws[..k], errors[..|errors| - 1])
      else TellsAll(reg, source, targets[..k], ws[..k], errors)
  }

  /** The targets other than the source that do not fail, in order. */
  function Reached(reg: Registry, source: uint32, targets: seq<uint32>): seq<uint32> {
    if targets == [] then []
    else
      var k := |targets| - 1;
      Reached(reg, source, targets[..k])
      + if targets[k] != source && !Fails(reg, targets[k], Complete) then [targets[k]] else []
  }

  lemma TellsOneMore(reg: Registry, source: uint32, targets: seq<uint32>, ws: seq<WriteResult>, errors: seq<SendError>)
    requires |ws| == |targets| != 0
    requires var k := |targets| - 1; TellsAll(reg, source, targets[..k], ws[..k], errors)
    ensures var k := |targets| - 1;
            TellsAll(reg, source, targets, ws, errors + ErrorsOf(Decide(reg, source, targets[k], ws[k])))
  {
    var k := |targets| - 1;
    var more := ErrorsOf(Decide(reg, source, targets[k], ws[k]));
    if more == [] {
      EmptyEnds(errors);
    } else {
      assert (errors + more)[..|errors|] == errors;
    }
  }

  /** A synchronous call tells its caller of every failing target and of no other. */
  lemma {:induction false} SyncTellsAll(reg: Registry, input: seq<byte>, source: uint32,
                                        targets: seq<uint32>, ws: seq<WriteResult>)
    requires |ws| == |targets|
    ensures TellsAll(reg, source, targets, ws, Sent(reg, input, source, targets, ws).1)
    decreases |targets|
  {
    if targets != [] {
      var k := |targets| - 1;
      var (before, errors) := Sent(reg, input, source, targets[..k], ws[..k]);
      SyncTellsAll(reg, input, source, targets[..k], ws[..k]);
      ShellsReceive(reg, input, source, targets[..k], ws[..k]);
      SameDecision(reg, before, source, targets[k], ws[k], input);
      TellsOneMore(reg, source, targets, ws, errors);
    }
  }

  /** An asynchronous one does so too, but for writes that break, and starts a
      goroutine for every other target. */
  lemma {:induction false} AsyncTellsAll(reg: Registry, source: uint32, targets: seq<uint32>)
    ensures var ws := AllComplete(|targets|);
            TellsAll(reg, source, targets, ws, AllErrors(Outcomes(reg, source, targets, ws)))
    ensures Started(reg, source, targets) == Reached(reg, source, targets)
  {
    if targets != [] {
      var k := |targets| - 1;
      var ws := AllComplete(k + 1);
      AsyncTellsAll(reg, source, targets[..k]);
      OutcomesPrefix(reg, source, targets, ws);
      assert ws[..k] == AllComplete(k);
      TellsOneMore(reg, source, targets, ws, AllErrors(Outcomes(reg, source, targets[..k], ws[..k])));
      StartedSnoc(reg, source, targets);
    }
  }

  // ---------------------------------------------------------------- one call

  /** The outcome of every target, judged from the state before the call. */
  function Outcomes(reg: Registry, source: uint32, targets: seq<uint32>, ws: seq<WriteResult>): (os: seq<Outcome>)
    requires |ws| == |targets|
    ensures |os| == |targets|
  {
    seq(|targets|, i requires 0 <= i < |targets| => Decide(reg, source, targets[i], ws[i]))
  }

  function AllComplete(n: nat): (ws: seq<WriteResult>)
    ensures |ws| == n
  {
    seq(n, _ => Complete)
  }

  /** The targets that are written, in order. */
  function WrittenTargets(targets: seq<uint32>, os: seq<Outcome>): seq<uint32>
    requires |os| == |targets|
    decreases |os|
  {
    if os == [] then []
    else
      var k := |os| - 1;
      WrittenTargets(targets[..k], os[..k]) + if os[k] == Written then [targets[k]] else []
  }

  function AllErrors(os: seq<Outcome>): seq<SendError> {
    if os == [] then [] else AllErrors(os[..|os| - 1]) + ErrorsOf(os[|os| - 1])
  }

  function Count(os: seq<Outcome>, o: Outcome): nat {
    if os == [] then 0 else Count(os[..|os| - 1], o) + if os[|os| - 1] == o then 1 else 0
  }

  /** What reaches the shell of `id` in one call, in the order of the targets. */
  function Received(reg: Registry, input: seq<byte>, source: uint32, targets: seq<uint32>, ws: seq<WriteResult>,
                    id: uint32): seq<byte>
    requires |ws| == |targets|
    decreases |targets|
  {
    if targets == [] then []
    else
      var k := |targets| - 1;
      Received(reg, input, source, targets[..k], ws[..k], id)
      + if targets[k] == id then Reaching(reg, source, id, ws[k], input) else []
  }

  /** All but the shells is as before. */
  ghost predicate SameButShells(a: Registry, b: Registry) {
    a.Keys == b.Keys && forall id | id in a :: b[id] == a[id].(shell := b[id].shell)
  }

  /** One target's write changes no other target's outcome: every shell gets
      exactly what reaches it, judged from the state before the call, and nothing
      else about any session changes. */
  lemma {:induction false} ShellsReceive(reg: Registry, input: seq<byte>, source: uint32,
                                         targets: seq<uint32>, ws: seq<WriteResult>)
    requires |ws| == |targets|
    ensures var after := Sent(reg, input, source, targets, ws).0;
            && SameButShells(reg, after)
            && forall id | id in reg :: after[id].shell == reg[id].shell + Received(reg, input, source, targets, ws, id)
    decreases |targets|
  {
    if targets != [] {
      var k := |targets| - 1;
      var before := Sent(reg, input, source, targets[..k], ws[..k]).0;
      ShellsReceive(reg, input, source, targets[..k], ws[..k]);
      SameDecision(reg, before, source, targets[k], ws[k], input);
      forall id | id in reg
        ensures SentTo(before, source, targets[k], ws[k], input)[id].shell ==
                reg[id].shell + Received(reg, input, source, targets, ws, id)
      {
        Associate(reg[id].shell, Received(reg, input, source, targets[..k], ws[..k], id),
                  if targets[k] == id then Reaching(reg, source, id, ws[k], input) else []);
      }
    }
  }

  /** The errors are those of the outcomes judged beforehand, in target order. */
  lemma {:induction false} ErrorsAreOfOutcomes(reg: Registry, input: seq<byte>, source: uint32,
                                               targets: seq<uint32>, ws: seq<WriteResult>)
    requires |ws| == |targets|
    ensures Sent(reg, input, source, targets, ws).1 == AllErrors(Outcomes(reg, source, targets, ws))
    decreases |targets|
  {
    if targets != [] {
      var k := |targets| - 1;
      ErrorsAreOfOutcomes(reg, input, source, targets[..k], ws[..k]);
      ShellsReceive(reg, input, source, targets[..k], ws[..k]);
      SameDecision(reg, Sent(reg, input, source, targets[..k], ws[..k]).0, source, targets[k], ws[k], input);
      OutcomesPrefix(reg, source, targets, ws);
    }
  }

  lemma OutcomesPrefix(reg: Registry, source: uint32, targets: seq<uint32>, ws: seq<WriteResult>)
    requires |ws| == |targets| && targets != []
    ensures var k := |targets| - 1;
            var os := Outcomes(reg, source, targets, ws);
            os[..k] == Outcomes(reg, source, targets[..k], ws[..k]) && os[k] == Decide(reg, source, targets[k], ws[k])
  {
  }

  lemma SameDecision(reg: Registry, before: Registry, source: uint32, id: uint32, w: WriteResult, input: seq<byte>)
    requires SameButShells(reg, before)
    ensures Decide(before, source, id, w) == Decide(reg, source, id, w)
    ensures SameButShells(reg, SentTo(before, source, id, w, input))
    ensures forall i | i in reg ::
              SentTo(before, source, id, w, input)[i].shell ==
              before[i].shell + if id == i then Reaching(reg, source, id, w, input) else []
  {
    assert id in before <==> id in reg;
    forall i | i in reg ensures before[i].shell + [] == before[i].shell {
    }
  }

  /** Accounting: every target is skipped, written, or the cause of one error. */
  lemma {:induction false} OutcomesAddUp(os: seq<Outcome>)
    ensures Count(os, Skipped) + Count(os, Written) + |AllErrors(os)| == |os|
  {
    if os != [] {
      OutcomesAddUp(os[..|os| - 1]);
    }
  }

  lemma Accounting(reg: Registry, input: seq<byte>, source: uint32, targets: seq<uint32>, ws: seq<WriteResult>)
    requires |ws| == |targets|
    ensures var os := Outcomes(reg, source, targets, ws);
            Count(os, Skipped) + Count(os, Written) + |Sent(reg, input, source, targets, ws).1| == |targets|
  {
    ErrorsAreOfOutcomes(reg, input, source, targets, ws);
    OutcomesAddUp(Outcomes(reg, source, targets, ws));
  }

  lemma {:induction false} ReceivedIgnoresOthers(reg: Registry, input: seq<byte>, source: uint32, targets: seq<uint32>,
                                                 ws: seq<WriteResult>, vs: seq<WriteResult>, id: uint32)
    requires |ws| == |vs| == |targets|
    requires forall i | 0 <= i < |targets| && targets[i] == id :: ws[i] == vs[i]
    ensures Received(reg, input, source, targets, ws, id) == Received(reg, input, source, targets, vs, id)
    decreases |targets|
  {
    if targets != [] {
      var k := |targets| - 1;
      ReceivedIgnoresOthers(reg, input, source, targets[..k], ws[..k], vs[..k], id);
    }
  }

  /** How the write to one target goes matters to that target alone: no other
      outcome and no other session depends on it. */
  lemma FailureIsIsolated(reg: Registry, input: seq<byte>, source: uint32, targets: seq<uint32>,
                          ws: seq<WriteResult>, j: nat, w: WriteResult)
    requires |ws| == |targets| && j < |targets|
    ensures forall i | 0 <= i < |targets| && i != j ::
              Outcomes(reg, source, targets, ws)[i] == Outcomes(reg, source, targets, ws[j := w])[i]
    ensures var (a, b) := (Sent(reg, input, source, targets, ws).0, Sent(reg, input, source, targets, ws[j := w]).0);
            forall id | id in reg && id != targets[j] :: id in a && id in b && a[id] == b[id]
  {
    ShellsReceive(reg, input, source, targets, ws);
    ShellsReceive(reg, input, source, targets, ws[j := w]);
    forall id | id in reg && id != targets[j]
      ensures Received(reg, input, source, targets, ws, id) ==
              Received(reg, input, source, targets, ws[j := w], id)
    {
      ReceivedIgnoresOthers(reg, input, source, targets, ws, ws[j := w], id);
    }
  }

  function Copies(input: seq<byte>, n: nat): seq<byte> {
    if n == 0 then [] else Copies(input, n - 1) + input
  }

  function Occurrences(targets: seq<uint32>, id: uint32): nat {
    if targets == [] then 0
    else Occurrences(targets[..|targets| - 1], id) + if targets[|targets| - 1] == id then 1 else 0
  }

  /** An active session that is neither slow nor the source, and whose writes
      succeed, gets the input once for every time it is named; any other session
      that has no broken write gets nothing. */
  lemma {:induction false} HealthyTargetReceives(reg: Registry, input: seq<byte>, source: uint32, targets: seq<uint32>,
                                                 ws: seq<WriteResult>, id: uint32)
    requires |ws| == |targets| && id in reg
    requires forall i | 0 <= i < |targets| && targets[i] == id :: ws[i] == Complete
    ensures var healthy := id != source && reg[id].state == Active && !reg[id].isSlow;
            Received(reg, input, source, targets, ws, id) ==
            Copies(input, if healthy then Occurrences(targets, id) else 0)
    decreases |targets|
  {
    if targets != [] {
      var k := |targets| - 1;
      HealthyTargetReceives(reg, input, source, targets[..k], ws[..k], id);
      var before := Received(reg, input, source, targets[..k], ws[..k], id);
      EmptyEnds(before);
    }
  }

  /** What the writes that name `id` take of the input, one after another. */
  function TakenBy(input: seq<byte>, targets: seq<uint32>, ws: seq<WriteResult>, id: uint32): seq<byte>
    requires |ws| == |targets|
    decreases |targets|
  {
    if targets == [] then []
    else
      var k := |targets| - 1;
      TakenBy(input, targets[..k], ws[..k], id) + if targets[k] == id then Taking(input, ws[k]) else []
  }

  /** The same for writes that may break: a session that is active and neither slow
      nor the source gets what each of its writes takes, and no other gets anything. */
  lemma {:induction false} TargetTakes(reg: Registry, input: seq<byte>, source: uint32, targets: seq<uint32>,
                                       ws: seq<WriteResult>, id: uint32)
    requires |ws| == |targets|
    ensures Received(reg, input, source, targets, ws, id) ==
            if id in reg && id != source && reg[id].state == Active && !reg[id].isSlow
            then TakenBy(input, targets, ws, id) else []
    decreases |targets|
  {
    if targets != [] {
      var k := |targets| - 1;
      TargetTakes(reg, input, source, targets[..k], ws[..k], id);
      EmptyEnds(Received(reg, input, source, targets[..k], ws[..k], id));
    }
  }

  // ------------------------------------------------- the asynchronous writes

  /** The registry after the goroutines for `ids` have written, in that order;
      `datas[k]` is what the shared array held when goroutine `k` wrote. */
  function Performed(reg: Registry, datas: seq<seq<byte>>, ids: seq<uint32>): Registry
    requires |datas| == |ids|
    decreases |ids|
  {
    if ids == [] then reg
    else
      var k := |ids| - 1;
      Wrote(Performed(reg, datas[..k], ids[..k]), ids[k], datas[k])
  }

  /** What the goroutines write to one shell. */
  function WrittenTo(datas: seq<seq<byte>>, ids: seq<uint32>, id: uint32): seq<byte>
    requires |datas| == |ids|
    decreases |ids|
  {
    if ids == [] then []
    else
      var k := |ids| - 1;
      WrittenTo(datas[..k], ids[..k], id) + if ids[k] == id then datas[k] else []
  }

  lemma WroteShells(reg: Registry, before: Registry, at: uint32, data: seq<byte>)
    requires SameButShells(reg, before)
    ensures SameButShells(reg, Wrote(before, at, data))
    ensures forall id | id in reg ::
              Wrote(before, at, data)[id].shell == before[id].shell + if at == id then data else []
  {
    forall id | id in reg {
      EmptyEnds(before[id].shell);
    }
  }

  lemma {:induction false} PerformedShells(reg: Registry, datas: seq<seq<byte>>, ids: seq<uint32>)
    requires |datas| == |ids|
    ensures SameButShells(reg, Performed(reg, datas, ids))
    ensures forall id | id in reg :: Performed(reg, datas, ids)[id].shell == reg[id].shell + WrittenTo(datas, ids, id)
    decreases |ids|
  {
    if ids == [] {
      forall id | id in reg {
        EmptyEnds(reg[id].shell);
      }
    } else {
      var k := |ids| - 1;
      PerformedShells(reg, datas[..k], ids[..k]);
      WroteShells(reg, Performed(reg, datas[..k], ids[..k]), ids[k], datas[k]);
      forall id | id in reg {
        Associate(reg[id].shell, WrittenTo(datas[..k], ids[..k], id), if ids[k] == id then datas[k] else []);
      }
    }
  }

  /** The goroutines for `id` wrote the input, every one of them. */
  predicate UnchangedFor(datas: seq<seq<byte>>, ids: seq<uint32>, id: uint32, input: seq<byte>)
    requires |datas| == |ids|
  {
    forall k | 0 <= k < |ids| && ids[k] == id :: datas[k] == input
  }

  lemma {:induction false} CopiesIffUnchanged(datas: seq<seq<byte>>, ids: seq<uint32>, id: uint32, input: seq<byte>)
    requires |datas| == |ids| && forall k | 0 <= k < |datas| :: |datas[k]| == |input|
    ensures WrittenTo(datas, ids, id) == Copies(input, Occurrences(ids, id)) <==> UnchangedFor(datas, ids, id, input)
    ensures |WrittenTo(datas, ids, id)| == |Copies(input, Occurrences(ids, id))|
    decreases |ids|
  {
    if ids != [] {
      var k := |ids| - 1;
      CopiesIffUnchanged(datas[..k], ids[..k], id, input);
      if ids[k] == id {
        SameEnds(WrittenTo(datas[..k], ids[..k], id), datas[k], Copies(input, Occurrences(ids[..k], id)), input);
      } else {
        EmptyEnds(WrittenTo(datas[..k], ids[..k], id));
      }
      assert UnchangedFor(datas, ids, id, input) <==>
             UnchangedFor(datas[..k], ids[..k], id, input) && (ids[k] == id ==> datas[k] == input);
    }
  }

  lemma SameEnds(a: seq<byte>, b: seq<byte>, c: seq<byte>, d: seq<byte>)
    requires |a| == |c|
    ensures a + b == c + d <==> a == c && b == d
  {
    if a + b == c + d {
      assert a == (a + b)[..|a|] && b == (a + b)[|a|..];
      assert c == (c + d)[..|c|] && d == (c + d)[|c|..];
    }
  }

  lemma {:induction false} OccurrencesCount(ids: seq<uint32>, id: uint32)
    ensures Occurrences(ids, id) == multiset(ids)[id]
  {
    if ids != [] {
      var k := |ids| - 1;
      OccurrencesCount(ids[..k], id);
      SplitLast(ids);
    }
  }

  lemma OccurrencesSnoc(ids: seq<uint32>, at: uint32, id: uint32)
    ensures Occurrences(ids + [at], id) == Occurrences(ids, id) + if at == id then 1 else 0
  {
    assert (ids + [at])[..|ids|] == ids;
  }

  /** The goroutines one call starts. */
  function Started(reg: Registry, source: uint32, targets: seq<uint32>): seq<uint32> {
    WrittenTargets(targets, Outcomes(reg, source, targets, AllComplete(|targets|)))
  }

  lemma StartedSnoc(reg: Registry, source: uint32, targets: seq<uint32>)
    requires targets != []
    ensures var (k, id) := (|targets| - 1, targets[|targets| - 1]);
            Started(reg, source, targets) ==
            Started(reg, source, targets[..k]) + if Decide(reg, source, id, Complete) == Written then [id] else []
  {
    var k := |targets| - 1;
    OutcomesPrefix(reg, source, targets, AllComplete(k + 1));
    assert AllComplete(k + 1)[..k] == AllComplete(k);
  }

  lemma {:induction false} StartedOccurrences(reg: Registry, source: uint32, targets: seq<uint32>, id: uint32)
    requires id in reg
    ensures Occurrences(Started(reg, source, targets), id) ==
            if id != source && reg[id].state == Active && !reg[id].isSlow then Occurrences(targets, id) else 0
  {
    if targets != [] {
      var k := |targets| - 1;
      StartedOccurrences(reg, source, targets[..k], id);
      StartedSnoc(reg, source, targets);
      OccurrencesSnoc(Started(reg, source, targets[..k]), targets[k], id);
      EmptyEnds(Started(reg, source, targets[..k]));
    }
  }

  lemma SameRegistries(reg: Registry, a: Registry, b: Registry)
    requires SameButShells(reg, a) && SameButShells(reg, b)
    requires forall id | id in reg :: a[id].shell == b[id].shell
    ensures a == b
  {
    forall id | id in a ensures a[id] == b[id] {
    }
  }

  lemma {:induction false} OccursIff(ids: seq<uint32>, id: uint32)
    ensures Occurrences(ids, id) > 0 <==> id in ids
  {
    if ids != [] {
      OccursIff(ids[..|ids| - 1], id);
      SplitLast(ids);
    }
  }

  lemma SplitLast(ids: seq<uint32>)
    requires ids != []
    ensures ids == ids[..|ids| - 1] + [ids[|ids| - 1]]
  {
  }

  /** A goroutine's session is known. */
  lemma {:induction false} StartedAreKnown(reg: Registry, source: uint32, targets: seq<uint32>)
    ensures forall id | id in Started(reg, source, targets) :: id in reg
  {
    if targets != [] {
      StartedAreKnown(reg, source, targets[..|targets| - 1]);
      StartedSnoc(reg, source, targets);
    }
  }

  /** What a synchronous call leaves in one shell, and the goroutines in the other. */
  lemma ShellsOfBoth(reg: Registry, input: seq<byte>, source: uint32, targets: seq<uint32>,
                     datas: seq<seq<byte>>, ids: seq<uint32>, id: uint32)
    requires |datas| == |ids| && multiset(ids) == multiset(Started(reg, source, targets)) && id in reg
    requires forall k | 0 <= k < |datas| :: |datas[k]| == |input|
    ensures var sync := Sent(reg, input, source, targets, AllComplete(|targets|)).0;
            && SameButShells(reg, sync) && SameButShells(reg, Performed(reg, datas, ids))
            && (Performed(reg, datas, ids)[id].shell == sync[id].shell <==> UnchangedFor(datas, ids, id, input))
  {
    var ws := AllComplete(|targets|);
    PerformedShells(reg, datas, ids);
    ShellsReceive(reg, input, source, targets, ws);
    OccurrencesCount(ids, id);
    OccurrencesCount(Started(reg, source, targets), id);
    StartedOccurrences(reg, source, targets, id);
    HealthyTargetReceives(reg, input, source, targets, ws, id);
    CopiesIffUnchanged(datas, ids, id, input);
    SameEnds(reg[id].shell, WrittenTo(datas, ids, id), reg[id].shell, Copies(input, Occurrences(ids, id)));
  }

  lemma GoroutinesAreKnown(reg: Registry, source: uint32, targets: seq<uint32>, ids: seq<uint32>)
    requires multiset(ids) == multiset(Started(reg, source, targets))
    ensures forall id | id in ids :: id in reg
  {
    StartedAreKnown(reg, source, targets);
    forall id | id in ids ensures id in reg {
      assert id in multiset(ids);
    }
  }

  /** The goroutines of one call share the caller's array, and write what it holds
      when they run. In whatever order they do, once all have written, the shells are
      as a synchronous call would have left them exactly when the caller has left the
      array alone until then. */
  lemma AsyncWritesAsSyncIff(reg: Registry, input: seq<byte>, source: uint32, targets: seq<uint32>,
                             datas: seq<seq<byte>>, ids: seq<uint32>)
    requires |datas| == |ids| && multiset(ids) == multiset(Started(reg, source, targets))
    requires forall k | 0 <= k < |datas| :: |datas[k]| == |input|
    ensures Performed(reg, datas, ids) == Sent(reg, input, source, targets, AllComplete(|targets|)).0
            <==> forall k | 0 <= k < |datas| :: datas[k] == input
  {
    var done, sync := Performed(reg, datas, ids), Sent(reg, input, source, targets, AllComplete(|targets|)).0;
    PerformedShells(reg, datas, ids);
    ShellsReceive(reg, input, source, targets, AllComplete(|targets|));
    forall id | id in reg ensures done[id].shell == sync[id].shell <==> UnchangedFor(datas, ids, id, input) {
      ShellsOfBoth(reg, input, source, targets, datas, ids, id);
    }
    if forall k | 0 <= k < |datas| :: datas[k] == input {
      SameRegistries(reg, done, sync);
    } else if done == sync {
      GoroutinesAreKnown(reg, source, targets, ids);
      forall k | 0 <= k < |datas| ensures datas[k] == input {
        assert ids[k] in ids && UnchangedFor(datas, ids, ids[k], input);
      }
    }
  }

  lemma OneStarted(reg: Registry, source: uint32, id: uint32)
    requires Decide(reg, source, id, Complete) == Written
    ensures Started(reg, source, [id]) == [id]
  {
    StartedSnoc(reg, source, [id]);
    assert Started(reg, source, [id][..0]) == [];
  }

  lemma OnePerformed(reg: Registry, data: seq<byte>, id: uint32)
    ensures Performed(reg, [data], [id]) == Wrote(reg, id, data)
  {
    assert [data][..0] == [] && [id][..0] == [];
  }

  /** A caller that refills its array before the one goroutine it has started runs:
      the shell gets the new bytes, and not what a synchronous call leaves. */
  lemma RefillShows(reg: Registry, source: uint32, id: uint32, input: seq<byte>, refilled: seq<byte>)
    requires Decide(reg, source, id, Complete) == Written
    requires |refilled| == |input| && refilled != input
    ensures Started(reg, source, [id]) == [id]
    ensures Performed(reg, [refilled], [id]) == Wrote(reg, id, refilled)
    ensures Wrote(reg, id, refilled) != Sent(reg, input, source, [id], AllComplete(1)).0
  {
    var datas: seq<seq<byte>> := [refilled];
    OneStarted(reg, source, id);
    OnePerformed(reg, refilled, id);
    AsyncWritesAsSyncIff(reg, input, source, [id], datas, [id]);
    assert datas[0] != input;
  }

  // -------------------------------------------------------------------- runs

  datatype Event =
    | Call(input: seq<byte>, source: uint32, targets: seq<uint32>, ws: seq<WriteResult>)
    | SetState(id: uint32, state: State)
    | SetSlow(id: uint32, slow: bool)
    | Register(id: uint32, info: Info)
    | Unregister(id: uint32)

  predicate WellFormed(e: Event) {
    e.Call? ==> |e.ws| == |e.targets|
  }

  function Step(reg: Registry, e: Event): Registry
    requires WellFormed(e)
  {
    match e
    case Call(input, source, targets, ws) => Sent(reg, input, source, targets, ws).0
    case SetState(id, state) => if id in reg then reg[id := reg[id].(state := state)] else reg
    case SetSlow(id, slow) => if id in reg then reg[id := reg[id].(isSlow := slow)] else reg
    case Register(id, info) => reg[id := info]
    case Unregister(id) => reg - {id}
  }

  function Run(reg: Registry, run: seq<Event>): Registry
    requires forall e | e in run :: WellFormed(e)
    decreases |run|
  {
    if run == [] then reg else Run(Step(reg, run[0]), run[1..])
  }

  /** What the calls of a run deliver to `id`, in call order. */
  function Delivered(reg: Registry, run: seq<Event>, id: uint32): seq<byte>
    requires forall e | e in run :: WellFormed(e)
    decreases |run|
  {
    if run == [] then []
    else
      var e := run[0];
      assert WellFormed(e);
      (if e.Call? then Received(reg, e.input, e.source, e.targets, e.ws, id) else [])
      + Delivered(Step(reg, e), run[1..], id)
  }

  predicate Replaces(e: Event, id: uint32) {
    (e.Register? || e.Unregister?) && e.id == id
  }

  lemma StepDelivers(reg: Registry, e: Event, id: uint32)
    requires id in reg && WellFormed(e) && !Replaces(e, id)
    ensures id in Step(reg, e)
    ensures Step(reg, e)[id].shell ==
            reg[id].shell + if e.Call? then Received(reg, e.input, e.source, e.targets, e.ws, id) else []
  {
    match e
    case Call(input, source, targets, ws) => ShellsReceive(reg, input, source, targets, ws);
    case _ => EmptyEnds(reg[id].shell);
  }

  /** First in, first out: over every run of calls, with states and slow flags
      changing in between and other sessions coming and going, a session's shell
      stream grows by what its calls delivered, in the order of the calls. */
  lemma {:induction false} StreamIsFifo(reg: Registry, run: seq<Event>, id: uint32)
    requires id in reg && (forall e | e in run :: WellFormed(e) && !Replaces(e, id))
    ensures id in Run(reg, run) && Run(reg, run)[id].shell == reg[id].shell + Delivered(reg, run, id)
    decreases |run|
  {
    if run == [] {
      EmptyEnds(reg[id].shell);
    } else {
      var e := run[0];
      StepDelivers(reg, e, id);
      StreamIsFifo(Step(reg, e), run[1..], id);
      Associate(reg[id].shell, if e.Call? then Received(reg, e.input, e.source, e.targets, e.ws, id) else [],
                Delivered(Step(reg, e), run[1..], id));
    }
  }
}
