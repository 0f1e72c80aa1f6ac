/** Sessions, their registry with its collector, and reconnection
    (gateway/internal/session/session.go, manager.go, reconnect.go). */
module Sessions {
  import opened Bytes

  /** `DefaultTTL` and `DefaultReconnectTTL`, in seconds. */
  const DEFAULT_TTL: nat := 10 * 60
  const DEFAULT_RECONNECT_TTL: nat := 10 * 60

  datatype State = Active | Detached | Expired | Closed

  /** What a session object holds; `shell` is what has been written to its shell. */
  datatype Info = Info(state: State, lastActiveAt: nat, isSlow: bool, shell: seq<byte>)

  type Registry = map<uint32, Info>

  predicate Overdue(s: Info, now: int, ttl: nat) {
    s.state == Detached && now - s.lastActiveAt > ttl
  }

  /** `Attach`: the session afterwards, and whether it succeeded. The clock says `now`
      at the check, and `stamp` when the time is taken down. */
  function Attached(s: Info, now: nat, stamp: nat, ttl: nat): (Info, bool) {
    if s.state != Detached then (s, false)
    else if Overdue(s, now, ttl) then (s.(state := Expired), false)
    else (s.(state := Active, lastActiveAt := stamp), true)
  }

  /** The registry after one `cleanup`; `clock(id)` is what the clock says when the
      pass comes to the session `id`. */
  ghost function Cleaned(reg: Registry, clock: uint32 -> nat, ttl: nat): Registry {
    map id | id in reg && !Overdue(reg[id], clock(id), ttl) :: reg[id]
  }

  /** One session's check and deletion. */
  function Collected(reg: Registry, id: uint32, now: nat, ttl: nat): Registry {
    if id in reg && Overdue(reg[id], now, ttl) then reg - {id} else reg
  }

  // ------------------------------------------------------------ the objects

  class Session {
    const sessionId: uint32
    var state: State
    var lastActiveAt: nat
    var isSlow: bool
    var shell: seq<byte>

    ghost function View(): Info
      reads this
    {
      Info(state, lastActiveAt, isSlow, shell)
    }

    constructor (id: uint32, now: nat)
      ensures sessionId == id && View() == Info(Active, now, false, [])
    {
      sessionId := id;
      state, lastActiveAt, isSlow, shell := Active, now, false, [];
    }

    method SetState(s: State)
      modifies this`state
      ensures View() == old(View()).(state := s)
    {
      state := s;
    }

    method SetSlow(slow: bool)
      modifies this`isSlow
      ensures View() == old(View()).(isSlow := slow)
    {
      isSlow := slow;
    }

    method Detach(now: nat)
      modifies this`state, this`lastActiveAt
      ensures View() == old(View()).(state := Detached, lastActiveAt := now)
    {
      state := Detached;
      lastActiveAt := now;
    }

    predicate CanReconnect(now: nat)
      reads this
    {
      if state != Detached then false else now - lastActiveAt <= DEFAULT_RECONNECT_TTL
    }

    predicate IsExpired(now: nat)
      reads this
    {
      if state != Detached then false else now - lastActiveAt > DEFAULT_RECONNECT_TTL
    }

    /** `Attach` succeeds exactly when `CanReconnect` says so; a late attempt
        leaves the session expired, any other failure leaves it alone. */
    method Attach(now: nat, stamp: nat) returns (ok: bool)
      modifies this`state, this`lastActiveAt
      ensures (View(), ok) == Attached(old(View()), now, stamp, DEFAULT_RECONNECT_TTL)
      ensures ok == old(CanReconnect(now))
      ensures !ok ==> View() == if old(IsExpired(now)) then old(View()).(state := Expired) else old(View())
    {
      if state != Detached {
        return false;
      }
      if now - lastActiveAt > DEFAULT_RECONNECT_TTL {
        state := Expired;
        return false;
      }
      state := Active;
      lastActiveAt := stamp;
      ok := true;
    }
  }

  class Manager {
    var sessions: map<uint32, Session>
    const ttl: nat

    /** Sessions are stored under their own ids, so no object is stored twice. */
    ghost predicate Valid()
      reads this
    {
      forall id | id in sessions :: sessions[id].sessionId == id
    }

    ghost function View(): Registry
      reads this, sessions.Values
    {
      map id | id in sessions :: sessions[id].View()
    }

    constructor ()
      ensures Valid() && sessions == map[] && ttl == DEFAULT_TTL
    {
      sessions, ttl := map[], DEFAULT_TTL;
    }

    method Register(s: Session)
      requires Valid()
      modifies this
      ensures Valid() && sessions == old(sessions)[s.sessionId := s]
      ensures View() == old(View())[s.sessionId := s.View()]
    {
      sessions := sessions[s.sessionId := s];
    }

    method Unregister(id: uint32)
      requires Valid()
      modifies this
      ensures Valid() && sessions == old(sessions) - {id}
      ensures View() == old(View()) - {id}
    {
      sessions := sessions - {id};
    }

    method Get(id: uint32) returns (s: Session?)
      ensures id in sessions <==> s != null
      ensures s != null ==> s == sessions[id]
    {
      if id !in sessions {
        return null;
      }
      s := sessions[id];
    }

    /** One pass, visiting the sessions in any order, each at its own clock reading. */
    method Cleanup(clock: uint32 -> nat)
      requires Valid()
      modifies this
      ensures Valid() && View() == Cleaned(old(View()), clock, ttl)
      ensures forall id | id in sessions :: id in old(sessions) && sessions[id] == old(sessions)[id]
      ensures forall id | id in old(sessions) ::
                var s := old(sessions)[id];
                id !in sessions <==> s.state == Detached && clock(id) - s.lastActiveAt > ttl
    {
      ghost var all := sessions;
      var todo := sessions.Keys;
      while todo != {}
        invariant todo <= sessions.Keys <= all.Keys
        invariant forall id | id in sessions :: sessions[id] == all[id]
        invariant forall id | id in all && id !in todo :: id in sessions <==> !Overdue(all[id].View(), clock(id), ttl)
        decreases todo
      {
        var key :| key in todo;
        var s := sessions[key];
        if s.state == Detached && clock(key) - s.lastActiveAt > ttl {
          sessions := sessions - {key};
        }
        todo := todo - {key};
      }
    }

    /** `HandleReconnect`: fails for an unknown id, and otherwise does what
        `Attach` does to that session and to no other. */
    method HandleReconnect(id: uint32, now: nat, stamp: nat) returns (s: Session?)
      requires Valid()
      modifies sessions.Values
      ensures Valid() && sessions == old(sessions)
      ensures (View(), s != null) == Reconnected(old(View()), id, now, stamp, DEFAULT_RECONNECT_TTL)
      ensures s != null ==> id in sessions && s == sessions[id]
    {
      s := Get(id);
      if s == null {
        return;
      }
      ghost var was := View();
      assert forall other | other in sessions && other != id :: sessions[other] != s;
      var ok := s.Attach(now, stamp);
      assert View() == was[id := s.View()];
      if !ok {
        s := null;
      }
    }
  }

  /** The registry after `HandleReconnect`, and whether it gave a session. */
  function Reconnected(reg: Registry, id: uint32, now: nat, stamp: nat, ttl: nat): (Registry, bool) {
    if id !in reg then (reg, false)
    else
      var (s, ok) := Attached(reg[id], now, stamp, ttl);
      (reg[id := s], ok)
  }

  // -------------------------------------------------------------------- runs

  datatype Event =
    | Register(id: uint32, info: Info)
    | Unregister(id: uint32)
    | Detach(id: uint32)
    | SetState(id: uint32, state: State)
    | Reconnect(id: uint32, stamp: nat)
    | Collect(id: uint32)

  datatype Timed = At(now: nat, event: Event)

  /** The collector's and the reconnect handler's time limits. */
  datatype Limits = Limits(collect: nat, reconnect: nat)

  const SOURCE_LIMITS := Limits(DEFAULT_TTL, DEFAULT_RECONNECT_TTL)

  function Step(reg: Registry, t: Timed, limits: Limits): Registry {
    match t.event
    case Register(id, info) => reg[id := info]
    case Unregister(id) => reg - {id}
    case Detach(id) => if id in reg then reg[id := reg[id].(state := Detached, lastActiveAt := t.now)] else reg
    case SetState(id, state) => if id in reg then reg[id := reg[id].(state := state)] else reg
    case Reconnect(id, stamp) => Reconnected(reg, id, t.now, stamp, limits.reconnect).0
    case Collect(id) => Collected(reg, id, t.now, limits.collect)
  }

  /** The answer to a reconnect request, and nothing for any other event. */
  function Answer(reg: Registry, t: Timed, limits: Limits): seq<bool> {
    if t.event.Reconnect? then [Reconnected(reg, t.event.id, t.now, t.event.stamp, limits.reconnect).1] else []
  }

  /** The answers of the reconnect requests of a run, in order. */
  function Answers(reg: Registry, run: seq<Timed>, limits: Limits): seq<bool>
    decreases |run|
  {
    if run == [] then []
    else Answer(reg, run[0], limits) + Answers(Step(reg, run[0], limits), run[1..], limits)
  }

  function Run(reg: Registry, run: seq<Timed>, limits: Limits): Registry
    decreases |run|
  {
    if run == [] then reg else Run(Step(reg, run[0], limits), run[1..], limits)
  }

  /** The run with its collections taken out. */
  function Kept(run: seq<Timed>): seq<Timed> {
    if run == [] then []
    else (if run[0].event.Collect? then [] else [run[0]]) + Kept(run[1..])
  }

  predicate MonotoneFrom(now: nat, run: seq<Timed>)
    decreases |run|
  {
    run == [] || (now <= run[0].now && MonotoneFrom(run[0].now, run[1..]))
  }

  /** The collections of one pass over `order`. */
  function Pass(order: seq<uint32>, clock: uint32 -> nat): seq<Timed> {
    if order == [] then [] else [At(clock(order[0]), Collect(order[0]))] + Pass(order[1..], clock)
  }

  /** A pass that visits every session, in any order and as often as it likes, and
      is not interrupted, is one `cleanup`; between its collections other events may
      come in any run. */
  lemma {:induction false} PassIsCleanup(reg: Registry, order: seq<uint32>, clock: uint32 -> nat, limits: Limits)
    ensures Run(reg, Pass(order, clock), limits) ==
            map id | id in reg && !(id in order && Overdue(reg[id], clock(id), limits.collect)) :: reg[id]
    ensures (forall id | id in reg :: id in order) ==>
              Run(reg, Pass(order, clock), limits) == Cleaned(reg, clock, limits.collect)
  {
    if order != [] {
      var run := Pass(order, clock);
      assert run[1..] == Pass(order[1..], clock);
      PassIsCleanup(Step(reg, run[0], limits), order[1..], clock, limits);
      assert forall id :: id in order <==> id == order[0] || id in order[1..];
    }
  }

  // ---------------------------------------- when collections cannot be noticed

  /** A request of the run brings `id` back before it is registered anew. */
  predicate Recovers(reg: Registry, run: seq<Timed>, id: uint32, limits: Limits)
    decreases |run|
  {
    if run == [] then false
    else
      var e := run[0].event;
      if (e.Register? || e.Unregister?) && e.id == id then false
      else if e.Reconnect? && e.id == id && Answer(reg, run[0], limits) == [true] then true
      else Recovers(Step(reg, run[0], limits), run[1..], id, limits)
  }

  /** No session that the collector could take before some event of the run is
      brought back later. */
  ghost predicate NoComeback(reg: Registry, run: seq<Timed>, limits: Limits)
    decreases |run|
  {
    run == [] ||
    ((forall id | id in reg && Overdue(reg[id], run[0].now, limits.collect) :: !Recovers(reg, run, id, limits)) &&
     NoComeback(Step(reg, run[0], limits), run[1..], limits))
  }

  /** `b` is `a` without some sessions that do not come back in the run. */
  ghost predicate Thinned(a: Registry, b: Registry, run: seq<Timed>, limits: Limits) {
    && (forall id | id in b :: id in a && a[id] == b[id])
    && (forall id | id in a && id !in b :: !Recovers(a, run, id, limits))
  }

  lemma StepKeepsThinned(a: Registry, b: Registry, run: seq<Timed>, limits: Limits)
    requires run != [] && !run[0].event.Collect? && Thinned(a, b, run, limits)
    ensures Thinned(Step(a, run[0], limits), Step(b, run[0], limits), run[1..], limits)
    ensures Answer(a, run[0], limits) == Answer(b, run[0], limits)
  {
    var a', b' := Step(a, run[0], limits), Step(b, run[0], limits);
    forall id | id in a' && id !in b' ensures !Recovers(a', run[1..], id, limits) {
      assert id in a && id !in b;
    }
  }

  lemma {:induction false} KeptStartsLater(now: nat, run: seq<Timed>)
    requires MonotoneFrom(now, run)
    ensures MonotoneFrom(now, Kept(run))
    decreases |run|
  {
    if run != [] {
      KeptStartsLater(run[0].now, run[1..]);
      var kept := Kept(run[1..]);
      if run[0].event.Collect? {
        assert Kept(run) == kept;
      } else {
        assert Kept(run)[1..] == kept;
      }
    }
  }

  lemma {:induction false} ThinnedRunsAgree(a: Registry, b: Registry, now: nat, run: seq<Timed>, limits: Limits)
    requires MonotoneFrom(now, run)
    requires Thinned(a, b, Kept(run), limits) && NoComeback(a, Kept(run), limits)
    ensures Answers(b, run, limits) == Answers(a, Kept(run), limits)
    decreases |run|
  {
    if run != [] {
      var t, rest := run[0], run[1..];
      if t.event.Collect? {
        assert Kept(run) == Kept(rest);
        KeptStartsLater(t.now, rest);
        assert Answers(b, run, limits) == Answers(Step(b, t, limits), rest, limits);
        ThinnedRunsAgree(a, Step(b, t, limits), t.now, rest, limits);
      } else {
        assert Kept(run)[0] == t && Kept(run)[1..] == Kept(rest);
        StepKeepsThinned(a, b, Kept(run), limits);
        ThinnedRunsAgree(Step(a, t, limits), Step(b, t, limits), t.now, rest, limits);
      }
    }
  }

  /** Without a session that comes back, the answers are different. */
  lemma {:induction false} MissingShows(reg: Registry, run: seq<Timed>, id: uint32, limits: Limits)
    requires Recovers(reg, run, id, limits)
    ensures Answers(reg - {id}, run, limits) != Answers(reg, run, limits)
    decreases |run|
  {
    var t, rest, less := run[0], run[1..], reg - {id};
    var next, nextLess := Step(reg, t, limits), Step(less, t, limits);
    if t.event.Reconnect? && t.event.id == id && Answer(reg, t, limits) == [true] {
      assert Answers(reg, run, limits)[0] && !Answers(less, run, limits)[0];
    } else {
      assert nextLess == next - {id};
      assert Answer(less, t, limits) == Answer(reg, t, limits);
      MissingShows(next, rest, id, limits);
      DifferentTails(Answer(reg, t, limits), Answers(next, rest, limits), Answers(nextLess, rest, limits));
    }
  }

  lemma DifferentTails(head: seq<bool>, a: seq<bool>, b: seq<bool>)
    requires a != b
    ensures head + a != head + b
  {
    assert (head + a)[|head|..] == a && (head + b)[|head|..] == b;
  }

  /** Where some session the collector could take comes back, one collection shows. */
  lemma {:induction false} CollectionShows(reg: Registry, now: nat, kept: seq<Timed>, limits: Limits)
    returns (run: seq<Timed>)
    requires MonotoneFrom(now, kept) && Kept(kept) == kept && !NoComeback(reg, kept, limits)
    ensures MonotoneFrom(now, run) && Kept(run) == kept
    ensures Answers(reg, run, limits) != Answers(reg, kept, limits)
    decreases |kept|
  {
    var t, rest := kept[0], kept[1..];
    KeptTail(kept);
    if id :| id in reg && Overdue(reg[id], t.now, limits.collect) && Recovers(reg, kept, id, limits) {
      run := [At(t.now, Collect(id))] + kept;
      assert run[1..] == kept;
      MissingShows(reg, kept, id, limits);
    } else {
      var more := CollectionShows(Step(reg, t, limits), t.now, rest, limits);
      run := [t] + more;
      assert run[1..] == more;
      DifferentTails(Answer(reg, t, limits), Answers(Step(reg, t, limits), more, limits),
                     Answers(Step(reg, t, limits), rest, limits));
    }
  }

  lemma KeptTail(kept: seq<Timed>)
    requires kept != [] && Kept(kept) == kept
    ensures !kept[0].event.Collect? && Kept(kept[1..]) == kept[1..]
  {
    KeptIsShorter(kept[1..]);
    assert |Kept(kept)| == (if kept[0].event.Collect? then 0 else 1) + |Kept(kept[1..])|;
    assert kept == [kept[0]] + Kept(kept[1..]);
  }

  lemma {:induction false} KeptIsShorter(run: seq<Timed>)
    ensures |Kept(run)| <= |run|
  {
    if run != [] {
      KeptIsShorter(run[1..]);
    }
  }

  /** No collections put into `kept`, anywhere and however many, change an answer. */
  ghost predicate CollectionsAreInvisible(reg: Registry, kept: seq<Timed>, limits: Limits) {
    forall run: seq<Timed> :: MonotoneFrom(0, run) && Kept(run) == kept ==>
      Answers(reg, run, limits) == Answers(reg, kept, limits)
  }

  /** The exact condition, for every run and all limits: collections cannot be
      noticed precisely when no session that the collector could take comes back
      later. */
  lemma CollectionsInvisibleIff(reg: Registry, kept: seq<Timed>, limits: Limits)
    requires MonotoneFrom(0, kept) && Kept(kept) == kept
    ensures CollectionsAreInvisible(reg, kept, limits) <==> NoComeback(reg, kept, limits)
  {
    if NoComeback(reg, kept, limits) {
      forall run: seq<Timed> | MonotoneFrom(0, run) && Kept(run) == kept
        ensures Answers(reg, run, limits) == Answers(reg, kept, limits)
      {
        ThinnedRunsAgree(reg, reg, 0, run, limits);
      }
    } else {
      var run := CollectionShows(reg, 0, kept, limits);
    }
  }

  // ------------------------------------------------------------- the life cycle

  /** A session no reconnect request can bring back from time `now` on. */
  predicate Dead(s: Info, now: nat, ttl: nat) {
    s.state == Expired || s.state == Closed || Overdue(s, now, ttl)
  }

  /** The event makes an active or detached session of a dead one. */
  predicate Revives(reg: Registry, t: Timed, id: uint32, limits: Limits) {
    && id in reg && Dead(reg[id], t.now, limits.reconnect)
    && (t.event == Detach(id) || t.event == SetState(id, Active) || t.event == SetState(id, Detached))
  }

  predicate NeverRevived(reg: Registry, run: seq<Timed>, id: uint32, limits: Limits)
    decreases |run|
  {
    run == [] || (!Revives(reg, run[0], id, limits) && NeverRevived(Step(reg, run[0], limits), run[1..], id, limits))
  }

  /** The session is unknown, or dead. */
  predicate Gone(reg: Registry, id: uint32, now: nat, ttl: nat) {
    id in reg ==> Dead(reg[id], now, ttl)
  }

  lemma GoneStep(reg: Registry, id: uint32, now: nat, t: Timed, limits: Limits)
    requires Gone(reg, id, now, limits.reconnect) && now <= t.now
    requires !(t.event.Register? && t.event.id == id) && !Revives(reg, t, id, limits)
    ensures Gone(Step(reg, t, limits), id, t.now, limits.reconnect)
    ensures t.event.Reconnect? && t.event.id == id ==> Answer(reg, t, limits) == [false]
  {
  }

  /** Expiry is final: unless it is revived or its id registered anew, a session that
      is gone stays gone, in every run, and no request brings it back. */
  lemma {:induction false} GoneStaysGone(reg: Registry, id: uint32, now: nat, run: seq<Timed>, limits: Limits)
    requires Gone(reg, id, now, limits.reconnect)
    requires MonotoneFrom(now, run) && NeverRevived(reg, run, id, limits)
    ensures !Recovers(reg, run, id, limits)
    ensures (forall t | t in run :: !(t.event.Register? && t.event.id == id)) ==>
              forall last: nat | (forall t | t in run :: t.now <= last) && now <= last ::
                Gone(Run(reg, run, limits), id, last, limits.reconnect)
    decreases |run|
  {
    if run != [] {
      var t := run[0];
      assert t in run;
      if !(t.event.Register? && t.event.id == id) {
        GoneStep(reg, id, now, t, limits);
        GoneStaysGone(Step(reg, t, limits), id, t.now, run[1..], limits);
      }
    }
  }

  /** A session that is not active, and whose last time is past the limit. */
  predicate Late(s: Info, now: nat, ttl: nat) {
    s.state != Active && now - s.lastActiveAt > ttl
  }

  /** The event makes a late session active, or gives it a new time. */
  predicate Reopens(reg: Registry, t: Timed, id: uint32, limits: Limits) {
    && id in reg && Late(reg[id], t.now, limits.reconnect)
    && (t.event == Detach(id) || t.event == SetState(id, Active))
  }

  predicate NeverReopened(reg: Registry, run: seq<Timed>, id: uint32, limits: Limits)
    decreases |run|
  {
    run == [] || (!Reopens(reg, run[0], id, limits) && NeverReopened(Step(reg, run[0], limits), run[1..], id, limits))
  }

  /** A late session that nothing reopens does not come back, whatever states it is
      put into in between. */
  lemma {:induction false} LateStaysAway(reg: Registry, id: uint32, now: nat, run: seq<Timed>, limits: Limits)
    requires id in reg ==> Late(reg[id], now, limits.reconnect)
    requires MonotoneFrom(now, run) && NeverReopened(reg, run, id, limits)
    ensures !Recovers(reg, run, id, limits)
    decreases |run|
  {
    if run != [] && !(run[0].event.Register? && run[0].event.id == id) {
      LateStaysAway(Step(reg, run[0], limits), id, run[0].now, run[1..], limits);
    }
  }

  lemma {:induction false} NoReopeningNoComeback(reg: Registry, now: nat, run: seq<Timed>, limits: Limits)
    requires limits.reconnect <= limits.collect && MonotoneFrom(now, run)
    requires forall id: uint32 :: NeverReopened(reg, run, id, limits)
    ensures NoComeback(reg, run, limits)
    decreases |run|
  {
    if run != [] {
      forall id | id in reg && Overdue(reg[id], run[0].now, limits.collect)
        ensures !Recovers(reg, run, id, limits)
      {
        LateStaysAway(reg, id, run[0].now, run, limits);
      }
      var next := Step(reg, run[0], limits);
      forall id: uint32 ensures NeverReopened(next, run[1..], id, limits) {
        assert NeverReopened(reg, run, id, limits);
      }
      NoReopeningNoComeback(next, run[0].now, run[1..], limits);
    }
  }

  /** In no run that reopens nothing can collections be noticed. */
  ghost predicate CollectorIsInvisible(limits: Limits) {
    forall reg: Registry, kept: seq<Timed> ::
      MonotoneFrom(0, kept) && Kept(kept) == kept && (forall id: uint32 :: NeverReopened(reg, kept, id, limits)) ==>
      CollectionsAreInvisible(reg, kept, limits)
  }

  /** The collector can be left out of account, wherever its collections fall, exactly
      when it waits at least as long as the reconnect limit; the shipped limits are
      equal. */
  lemma CollectorInvisibleIff(limits: Limits)
    ensures CollectorIsInvisible(limits) <==> limits.reconnect <= limits.collect
  {
    if limits.reconnect <= limits.collect {
      forall reg: Registry, kept: seq<Timed> |
        MonotoneFrom(0, kept) && Kept(kept) == kept && (forall id: uint32 :: NeverReopened(reg, kept, id, limits))
        ensures CollectionsAreInvisible(reg, kept, limits)
      {
        NoReopeningNoComeback(reg, 0, kept, limits);
        CollectionsInvisibleIff(reg, kept, limits);
      }
    } else {
      EarlyCollectionShows(limits);
    }
  }

  lemma ShippedCollectorIsInvisible()
    ensures SOURCE_LIMITS == Limits(600, 600) && CollectorIsInvisible(SOURCE_LIMITS)
  {
    CollectorInvisibleIff(SOURCE_LIMITS);
  }

  /** How the run functions unfold at a first event. */
  lemma RunCons(reg: Registry, t: Timed, rest: seq<Timed>, limits: Limits)
    ensures Answers(reg, [t] + rest, limits) == Answer(reg, t, limits) + Answers(Step(reg, t, limits), rest, limits)
    ensures Kept([t] + rest) == (if t.event.Collect? then [] else [t]) + Kept(rest)
  {
    assert ([t] + rest)[1..] == rest;
  }

  /** A collector in more of a hurry than the reconnect limit is seen: a session
      detached and collected in the gap would otherwise have come back. */
  lemma EarlyCollectionShows(limits: Limits)
    requires limits.collect < limits.reconnect
    ensures !CollectorIsInvisible(limits)
  {
    var late := limits.collect + 1;
    var ask := At(late, Reconnect(1, late));
    var away: Registry := map[1 := Info(Detached, 0, false, [])];
    RunCons(away, ask, [], limits);
    EmptyEnds([ask]);
    assert Kept([ask]) == [ask];
    assert Recovers(away, [ask], 1, limits);
    assert !NoComeback(away, [ask], limits);
    CollectionsInvisibleIff(away, [ask], limits);
    forall id: uint32 ensures NeverReopened(away, [ask], id, limits) {
      assert [ask][1..] == [];
    }
  }

  /** Why reopening must be excluded: a collection before an overdue session is
      detached again changes the answer to the next request exactly when it finds
      the session overdue and the request comes within the limit. */
  lemma RevivalShowsIff(reg: Registry, id: uint32, t1: nat, t2: nat, t3: nat, stamp: nat, limits: Limits)
    requires id in reg && t2 <= t3
    ensures var kept := [At(t2, Detach(id)), At(t3, Reconnect(id, stamp))];
            Answers(reg, [At(t1, Collect(id))] + kept, limits) != Answers(reg, kept, limits) <==>
            Overdue(reg[id], t1, limits.collect) && t3 - t2 <= limits.reconnect
  {
    var collect, away, ask := At(t1, Collect(id)), At(t2, Detach(id)), At(t3, Reconnect(id, stamp));
    assert [away] + [ask] == [away, ask] && [ask] + [] == [ask];
    RunCons(reg, collect, [away, ask], limits);
    TwoAnswers(reg, id, t2, t3, stamp, limits);
    TwoAnswers(Step(reg, collect, limits), id, t2, t3, stamp, limits);
    assert [] + Answers(Step(reg, collect, limits), [away, ask], limits) ==
           Answers(Step(reg, collect, limits), [away, ask], limits);
    assert Overdue(reg[id], t1, limits.collect) <==> id !in Step(reg, collect, limits);
  }

  lemma TwoAnswers(reg: Registry, id: uint32, t2: nat, t3: nat, stamp: nat, limits: Limits)
    requires t2 <= t3
    ensures Answers(reg, [At(t2, Detach(id)), At(t3, Reconnect(id, stamp))], limits) ==
            [id in reg && t3 - t2 <= limits.reconnect]
  {
    var away, ask := At(t2, Detach(id)), At(t3, Reconnect(id, stamp));
    var next := Step(reg, away, limits);
    assert [away] + [ask] == [away, ask] && [ask] + [] == [ask];
    RunCons(reg, away, [ask], limits);
    RunCons(next, ask, [], limits);
  }

  /** Detaching and coming back: the request succeeds exactly within the limit of
      the detachment, the session is then active again with all else as it was,
      and a second request for it fails. */
  lemma ReconnectWindow(reg: Registry, id: uint32, left: nat, back: nat, stamp: nat, again: nat, limits: Limits)
    requires id in reg && left <= back
    ensures var away := Step(reg, At(left, Detach(id)), limits);
            var (found, ok) := Reconnected(away, id, back, stamp, limits.reconnect);
            && (ok <==> back - left <= limits.reconnect)
            && (ok ==> found == reg[id := reg[id].(state := Active, lastActiveAt := stamp)]
                       && !Reconnected(found, id, again, again, limits.reconnect).1)
            && (!ok ==> id in found && found[id].state == Expired)
  {
    var away := Step(reg, At(left, Detach(id)), limits);
    var (found, ok) := Reconnected(away, id, back, stamp, limits.reconnect);
    if ok {
      assert found == reg[id := reg[id].(state := Active, lastActiveAt := stamp)];
    }
  }

  /** The event is addressed to `id`, and is not a collection. */
  predicate Concerns(e: Event, id: uint32) {
    !e.Collect? && e.id == id
  }

  /** Only a detached session is ever collected, and only past the limit: the others,
      active, expired or closed, stay whatever the clock says. */
  lemma CollectedIff(reg: Registry, id: uint32, now: nat, ttl: nat, clock: uint32 -> nat)
    requires id in reg
    ensures id !in Collected(reg, id, now, ttl) <==> reg[id].state == Detached && now > reg[id].lastActiveAt + ttl
    ensures id !in Cleaned(reg, clock, ttl) <==>
            reg[id].state == Detached && clock(id) > reg[id].lastActiveAt + ttl
    ensures forall other | other in reg && other != id ::
              other in Collected(reg, id, now, ttl) && Collected(reg, id, now, ttl)[other] == reg[other]
  {
  }

  /** A session left to itself is collected exactly when it is detached and some
      collection of the run finds it overdue; until then it does not change. In
      particular no run of collections removes one that is active, expired or closed. */
  lemma {:induction false} SurvivesIff(reg: Registry, id: uint32, run: seq<Timed>, limits: Limits)
    requires id in reg && forall t | t in run :: !Concerns(t.event, id)
    ensures var end := Run(reg, run, limits);
            && (id in end <==> forall t | t in run && t.event == Collect(id) :: !Overdue(reg[id], t.now, limits.collect))
            && (id in end ==> end[id] == reg[id])
            && (reg[id].state != Detached ==> id in end)
    decreases |run|
  {
    if run != [] {
      var t, next := run[0], Step(reg, run[0], limits);
      assert t in run && !Concerns(t.event, id);
      if id in next {
        SurvivesIff(next, id, run[1..], limits);
        assert forall u :: u in run <==> u == t || u in run[1..];
      } else {
        StaysAway(next, id, run[1..], limits);
      }
    }
  }

  lemma {:induction false} StaysAway(reg: Registry, id: uint32, run: seq<Timed>, limits: Limits)
    requires id !in reg && forall t | t in run :: !Concerns(t.event, id)
    ensures id !in Run(reg, run, limits)
    decreases |run|
  {
    if run != [] {
      assert run[0] in run && !Concerns(run[0].event, id);
      StaysAway(Step(reg, run[0], limits), id, run[1..], limits);
    }
  }
}
