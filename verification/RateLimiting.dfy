/** The sliding-window rate limiter (gateway/internal/resource/rate_limiter.go). */
module RateLimiting {
  import opened Bytes

  /** The times kept per address. */
  type Log = map<string, seq<int>>

  datatype Limits = Limits(window: int, max: int)

  /** The times after `cutoff`, in order. */
  function Recent(times: seq<int>, cutoff: int): (r: seq<int>)
    ensures |r| <= |times|
  {
    if times == [] then []
    else
      var k := |times| - 1;
      Recent(times[..k], cutoff) + if times[k] > cutoff then [times[k]] else []
  }

  /** `a` is `b` with the entries taken out that do not lie after `cutoff`. */
  predicate IsRecent(a: seq<int>, b: seq<int>, cutoff: int)
    decreases |b|
  {
    if b == [] then a == []
    else if b[0] > cutoff then a != [] && a[0] == b[0] && IsRecent(a[1..], b[1..], cutoff)
    else IsRecent(a, b[1..], cutoff)
  }

  lemma {:induction false} IsRecentAppend(a: seq<int>, b: seq<int>, t: int, cutoff: int)
    requires IsRecent(a, b, cutoff)
    ensures IsRecent(if t > cutoff then a + [t] else a, b + [t], cutoff)
    decreases |b|
  {
    if b == [] {
      assert (b + [t])[1..] == [] && ([] + [t])[1..] == [];
    } else {
      assert (b + [t])[1..] == b[1..] + [t];
      if b[0] > cutoff {
        IsRecentAppend(a[1..], b[1..], t, cutoff);
        assert (a + [t])[1..] == a[1..] + [t];
      } else {
        IsRecentAppend(a, b[1..], t, cutoff);
      }
    }
  }

  /** The filter keeps the times after the cutoff, all of them and in order. */
  lemma {:induction false} RecentIsFiltered(times: seq<int>, cutoff: int)
    ensures IsRecent(Recent(times, cutoff), times, cutoff)
  {
    if times != [] {
      var k := |times| - 1;
      RecentIsFiltered(times[..k], cutoff);
      IsRecentAppend(Recent(times[..k], cutoff), times[..k], times[k], cutoff);
      assert times[..k] + [times[k]] == times;
      EmptyEnds(Recent(times[..k], cutoff));
    }
  }

  function TimesOf(log: Log, ip: string): seq<int> {
    if ip in log then log[ip] else []
  }

  function Allowed(log: Log, ip: string, now: int, limits: Limits): (Log, bool) {
    var valid := Recent(TimesOf(log, ip), now - limits.window);
    if |valid| >= limits.max then (log[ip := valid], false)
    else (log[ip := valid + [now]], true)
  }

  function Pruned(log: Log, cutoff: int): Log {
    map ip | ip in log && Recent(log[ip], cutoff) != [] :: Recent(log[ip], cutoff)
  }

  class RateLimiter {
    var requests: map<string, seq<int>>
    const limits: Limits

    constructor (window: int, max: int)
      ensures requests == map[] && limits == Limits(window, max)
    {
      requests, limits := map[], Limits(window, max);
    }

    static method Filter(times: seq<int>, cutoff: int) returns (valid: seq<int>)
      ensures valid == Recent(times, cutoff)
    {
      valid := [];
      for i := 0 to |times|
        invariant valid == Recent(times[..i], cutoff)
      {
        assert times[..i + 1][..i] == times[..i];
        if times[i] > cutoff {
          valid := valid + [times[i]];
        }
      }
      assert times[..|times|] == times;
    }

    method Allow(ip: string, now: int) returns (ok: bool)
      modifies this
      ensures (requests, ok) == Allowed(old(requests), ip, now, limits)
      ensures var kept := Recent(TimesOf(old(requests), ip), now - limits.window);
              && (ok <==> |kept| < limits.max)
              && requests == old(requests)[ip := if ok then kept + [now] else kept]
    {
      var cutoff := now - limits.window;
      var valid := Filter(if ip in requests then requests[ip] else [], cutoff);
      if |valid| >= limits.max {
        requests := requests[ip := valid];
        return false;
      }
      valid := valid + [now];
      requests := requests[ip := valid];
      ok := true;
    }

    /** Visits the addresses in any order. */
    method Cleanup(now: int)
      modifies this
      ensures requests == Pruned(old(requests), now - limits.window)
    {
      var cutoff := now - limits.window;
      var todo := requests.Keys;
      while todo != {}
        invariant todo <= old(requests).Keys
        invariant PrunedBut(old(requests), requests, todo, cutoff)
        decreases todo
      {
        var ip :| ip in todo;
        var valid := Filter(requests[ip], cutoff);
        PruneOne(old(requests), requests, todo, ip, cutoff);
        if |valid| == 0 {
          requests := requests - {ip};
        } else {
          requests := requests[ip := valid];
        }
        todo := todo - {ip};
      }
      PrunedAll(old(requests), requests, cutoff);
    }
  }

  /** Every address is pruned, but those of `todo`, which are as they were. */
  ghost predicate PrunedBut(was: Log, log: Log, todo: set<string>, cutoff: int) {
    forall ip: string :: Entry(log, ip) == Entry(if ip in todo then was else Pruned(was, cutoff), ip)
  }

  function Entry(log: Log, ip: string): Option<seq<int>> {
    if ip in log then Some(log[ip]) else None
  }

  lemma PruneOne(was: Log, log: Log, todo: set<string>, ip: string, cutoff: int)
    requires PrunedBut(was, log, todo, cutoff) && ip in todo && todo <= was.Keys
    ensures ip in log && log[ip] == was[ip]
    ensures var valid := Recent(log[ip], cutoff);
            PrunedBut(was, if valid == [] then log - {ip} else log[ip := valid], todo - {ip}, cutoff)
  {
    assert Entry(log, ip) == Entry(was, ip);
    var valid := Recent(log[ip], cutoff);
    var log' := if valid == [] then log - {ip} else log[ip := valid];
    forall x: string ensures Entry(log', x) == Entry(if x in todo - {ip} then was else Pruned(was, cutoff), x) {
      assert Entry(log, x) == Entry(if x in todo then was else Pruned(was, cutoff), x);
    }
  }

  lemma PrunedAll(was: Log, log: Log, cutoff: int)
    requires PrunedBut(was, log, {}, cutoff)
    ensures log == Pruned(was, cutoff)
  {
    forall ip: string ensures Entry(log, ip) == Entry(Pruned(was, cutoff), ip) {
    }
    assert forall ip: string :: ip in log <==> Entry(log, ip).Some?;
    assert log.Keys == Pruned(was, cutoff).Keys;
  }

  // -------------------------------------------------------------------- runs

  datatype Event = Allow(ip: string) | Cleanup

  datatype Timed = At(now: int, event: Event)

  /** One answered request. */
  datatype Verdict = Verdict(ip: string, now: int, ok: bool)

  function Step(log: Log, t: Timed, limits: Limits): Log {
    match t.event
    case Allow(ip) => Allowed(log, ip, t.now, limits).0
    case Cleanup => Pruned(log, t.now - limits.window)
  }

  function Answer(log: Log, t: Timed, limits: Limits): seq<Verdict> {
    match t.event
    case Allow(ip) => [Verdict(ip, t.now, Allowed(log, ip, t.now, limits).1)]
    case Cleanup => []
  }

  function Verdicts(log: Log, run: seq<Timed>, limits: Limits): seq<Verdict>
    decreases |run|
  {
    if run == [] then []
    else Answer(log, run[0], limits) + Verdicts(Step(log, run[0], limits), run[1..], limits)
  }

  predicate Monotone(run: seq<Timed>) {
    forall i, j | 0 <= i < j < |run| :: run[i].now <= run[j].now
  }

  /** The times `ip` was ever admitted at: the full, unpruned history. */
  function Admitted(vs: seq<Verdict>, ip: string): seq<int> {
    if vs == [] then []
    else
      var k := |vs| - 1;
      Admitted(vs[..k], ip) + if vs[k].ip == ip && vs[k].ok then [vs[k].now] else []
  }

  /** The times of the half-open interval `(lo, hi]`. */
  function Window(times: seq<int>, lo: int, hi: int): seq<int> {
    if times == [] then []
    else
      var k := |times| - 1;
      Window(times[..k], lo, hi) + if lo < times[k] <= hi then [times[k]] else []
  }

  /** The rule a limiter with a perfect memory follows: a request is admitted
      exactly when fewer than `max` requests of its address were ever admitted in
      the window that ends now. */
  predicate FollowsRule(v: Verdict, past: seq<Verdict>, limits: Limits) {
    v.ok <==> |Window(Admitted(past, v.ip), v.now - limits.window, v.now)| < limits.max
  }

  ghost predicate AllFollowRule(vs: seq<Verdict>, limits: Limits) {
    forall i | 0 <= i < |vs| :: FollowsRule(vs[i], vs[..i], limits)
  }

  // --------------------------------------------- pruned log and full history

  predicate AllUpTo(times: seq<int>, hi: int) {
    forall i | 0 <= i < |times| :: times[i] <= hi
  }

  lemma {:induction false} RecentTwice(times: seq<int>, c: int, d: int)
    requires c <= d
    ensures Recent(Recent(times, c), d) == Recent(times, d)
  {
    if times != [] {
      var k := |times| - 1;
      var kept := Recent(times[..k], c);
      RecentTwice(times[..k], c, d);
      if times[k] > c {
        RecentSnoc(kept, times[k], d);
      } else {
        EmptyEnds(kept);
        EmptyEnds(Recent(times[..k], d));
      }
    }
  }

  lemma RecentSnoc(times: seq<int>, t: int, c: int)
    ensures Recent(times + [t], c) == if t > c then Recent(times, c) + [t] else Recent(times, c)
  {
    assert (times + [t])[..|times|] == times;
    EmptyEnds(Recent(times, c));
  }

  lemma WindowSnoc(times: seq<int>, t: int, lo: int, hi: int)
    ensures Window(times + [t], lo, hi) ==
            if lo < t <= hi then Window(times, lo, hi) + [t] else Window(times, lo, hi)
  {
    assert (times + [t])[..|times|] == times;
    EmptyEnds(Window(times, lo, hi));
  }

  lemma {:induction false} RecentIsWindow(times: seq<int>, lo: int, hi: int)
    requires AllUpTo(times, hi)
    ensures Recent(times, lo) == Window(times, lo, hi)
  {
    if times != [] {
      RecentIsWindow(times[..|times| - 1], lo, hi);
    }
  }

  lemma {:induction false} AdmittedBefore(vs: seq<Verdict>, ip: string, now: int)
    requires forall v | v in vs :: v.now <= now
    ensures AllUpTo(Admitted(vs, ip), now)
  {
    if vs != [] {
      AdmittedBefore(vs[..|vs| - 1], ip, now);
    }
  }

  lemma AdmittedSnoc(vs: seq<Verdict>, v: Verdict, ip: string)
    ensures Admitted(vs + [v], ip) ==
            if v.ip == ip && v.ok then Admitted(vs, ip) + [v.now] else Admitted(vs, ip)
  {
    assert (vs + [v])[..|vs|] == vs;
    EmptyEnds(Admitted(vs, ip));
  }

  predicate AgreeAfter(times: seq<int>, history: seq<int>, c: int) {
    Recent(times, c) == Recent(history, c)
  }

  /** The log knows the history of `ip` after `c`. */
  ghost predicate KnowsAt(log: Log, past: seq<Verdict>, ip: string, c: int) {
    AgreeAfter(TimesOf(log, ip), Admitted(past, ip), c)
  }

  /** From `cutoff` on the log knows all that the history knows. */
  ghost predicate KnowsSince(log: Log, past: seq<Verdict>, cutoff: int) {
    forall ip: string, c: int | cutoff <= c :: KnowsAt(log, past, ip, c)
  }

  /** Filtering, and adding an admitted time, keep what is known after `c`. */
  lemma FilteredKnows(times: seq<int>, history: seq<int>, cutoff: int, now: int, c: int)
    requires AgreeAfter(times, history, c) && cutoff <= c
    ensures AgreeAfter(Recent(times, cutoff), history, c)
    ensures AgreeAfter(Recent(times, cutoff) + [now], history + [now], c)
  {
    RecentTwice(times, cutoff, c);
    RecentSnoc(Recent(times, cutoff), now, c);
    RecentSnoc(history, now, c);
  }

  lemma PrunedTimes(log: Log, cutoff: int, ip: string)
    ensures TimesOf(Pruned(log, cutoff), ip) == Recent(TimesOf(log, ip), cutoff)
  {
  }

  /** What the log and the history know after one more answer for `v.ip`. */
  lemma EntryKnows(log: Log, past: seq<Verdict>, v: Verdict, times: seq<int>, ip: string, c: int)
    requires ip != v.ip ==> KnowsAt(log, past, ip, c)
    requires ip == v.ip && v.ok ==> AgreeAfter(times, Admitted(past, ip) + [v.now], c)
    requires ip == v.ip && !v.ok ==> AgreeAfter(times, Admitted(past, ip), c)
    ensures KnowsAt(log[v.ip := times], past + [v], ip, c)
  {
    AdmittedSnoc(past, v, ip);
  }

  lemma CleanupKnows(log: Log, past: seq<Verdict>, cutoff: int, ip: string, c: int)
    requires KnowsAt(log, past, ip, c) && cutoff <= c
    ensures KnowsAt(Pruned(log, cutoff), past, ip, c)
  {
    PrunedTimes(log, cutoff, ip);
    FilteredKnows(TimesOf(log, ip), Admitted(past, ip), cutoff, cutoff, c);
  }

  lemma AllowsKnow(log: Log, past: seq<Verdict>, log': Log, answer: seq<Verdict>, cutoff: int)
    requires KnowsSince(log, past, cutoff) && |answer| == 1
    requires var v, kept := answer[0], Recent(TimesOf(log, answer[0].ip), cutoff);
             log' == log[v.ip := if v.ok then kept + [v.now] else kept]
    ensures KnowsSince(log', past + answer, cutoff)
  {
    var v := answer[0];
    assert answer == [v];
    forall ip: string, c: int | cutoff <= c ensures KnowsAt(log', past + [v], ip, c) {
      assert KnowsAt(log, past, ip, c);
      if ip == v.ip {
        FilteredKnows(TimesOf(log, ip), Admitted(past, ip), cutoff, v.now, c);
      }
      EntryKnows(log, past, v, log'[v.ip], ip, c);
    }
  }

  lemma CleanupsKnow(log: Log, past: seq<Verdict>, cutoff: int)
    requires KnowsSince(log, past, cutoff)
    ensures KnowsSince(Pruned(log, cutoff), past + [], cutoff)
  {
    EmptyEnds(past);
    forall ip: string, c: int | cutoff <= c ensures KnowsAt(Pruned(log, cutoff), past, ip, c) {
      assert KnowsAt(log, past, ip, c);
      CleanupKnows(log, past, cutoff, ip, c);
    }
  }

  lemma StepKnows(log: Log, past: seq<Verdict>, before: int, t: Timed, limits: Limits)
    requires before <= t.now && KnowsSince(log, past, before - limits.window)
    ensures KnowsSince(Step(log, t, limits), past + Answer(log, t, limits), t.now - limits.window)
  {
    var cutoff := t.now - limits.window;
    assert KnowsSince(log, past, cutoff);
    if t.event.Allow? {
      AllowsKnow(log, past, Step(log, t, limits), Answer(log, t, limits), cutoff);
    } else {
      CleanupsKnow(log, past, cutoff);
    }
  }

  lemma AnswerFollowsRule(log: Log, past: seq<Verdict>, t: Timed, limits: Limits)
    requires t.event.Allow? && KnowsSince(log, past, t.now - limits.window)
    requires forall v | v in past :: v.now <= t.now
    ensures FollowsRule(Answer(log, t, limits)[0], past, limits)
  {
    var ip, cutoff := t.event.ip, t.now - limits.window;
    assert KnowsAt(log, past, ip, cutoff);
    AdmittedBefore(past, ip, t.now);
    RecentIsWindow(Admitted(past, ip), cutoff, t.now);
  }

  lemma RuleSnoc(past: seq<Verdict>, v: Verdict, limits: Limits)
    requires AllFollowRule(past, limits) && FollowsRule(v, past, limits)
    ensures AllFollowRule(past + [v], limits)
  {
    forall i | 0 <= i < |past| + 1 ensures FollowsRule((past + [v])[i], (past + [v])[..i], limits) {
      assert (past + [v])[..i] == past[..i];
      assert past[..|past|] == past;
    }
  }

  /** The state between two events: what the log knows, and answers by the rule. */
  ghost predicate Faithful(log: Log, past: seq<Verdict>, now: int, limits: Limits) {
    && KnowsSince(log, past, now - limits.window)
    && (forall v | v in past :: v.now <= now)
    && AllFollowRule(past, limits)
  }

  lemma StepFaithful(log: Log, past: seq<Verdict>, before: int, t: Timed, limits: Limits)
    requires Faithful(log, past, before, limits) && before <= t.now
    ensures Faithful(Step(log, t, limits), past + Answer(log, t, limits), t.now, limits)
  {
    StepKnows(log, past, before, t, limits);
    if t.event.Allow? {
      AnswerFollowsRule(log, past, t, limits);
      RuleSnoc(past, Answer(log, t, limits)[0], limits);
    } else {
      EmptyEnds(past);
    }
  }

  function LogAfter(log: Log, run: seq<Timed>, limits: Limits): Log
    decreases |run|
  {
    if run == [] then log else LogAfter(Step(log, run[0], limits), run[1..], limits)
  }

  /** The time of the last event, or `before` when there is none. */
  function EndOf(before: int, run: seq<Timed>): int {
    if run == [] then before else run[|run| - 1].now
  }

  lemma {:induction false} RunStaysFaithful(log: Log, past: seq<Verdict>, before: int, run: seq<Timed>, limits: Limits)
    requires Monotone(run) && (run != [] ==> before <= run[0].now)
    requires Faithful(log, past, before, limits)
    ensures Faithful(LogAfter(log, run, limits), past + Verdicts(log, run, limits), EndOf(before, run), limits)
    decreases |run|
  {
    if run == [] {
      EmptyEnds(past);
    } else {
      var t, rest := run[0], run[1..];
      StepFaithful(log, past, before, t, limits);
      assert EndOf(t.now, rest) == EndOf(before, run);
      RunStaysFaithful(Step(log, t, limits), past + Answer(log, t, limits), t.now, rest, limits);
      Associate(past, Answer(log, t, limits), Verdicts(Step(log, t, limits), rest, limits));
    }
  }

  lemma RunFromNothing(before: int, run: seq<Timed>, limits: Limits)
    requires Monotone(run) && (run != [] ==> before <= run[0].now)
    ensures Faithful(LogAfter(map[], run, limits), Verdicts(map[], run, limits), EndOf(before, run), limits)
  {
    assert Faithful(map[], [], before, limits);
    RunStaysFaithful(map[], [], before, run, limits);
    EmptyEnds(Verdicts(map[], run, limits));
  }

  /** The pruned log agrees with the full history: in every run with a clock that
      does not go back, with any addresses and with cleanups anywhere, every
      answer is the one the perfect memory gives. */
  lemma AnswersFollowHistory(run: seq<Timed>, limits: Limits)
    requires Monotone(run)
    ensures AllFollowRule(Verdicts(map[], run, limits), limits)
  {
    RunFromNothing(if run == [] then 0 else run[0].now, run, limits);
  }

  // ------------------------------------------------------- what the log holds

  ghost predicate NoEntryOver(log: Log, max: int) {
    forall ip | ip in log :: |log[ip]| <= max
  }

  /** In every run, with any clock, no address ever has more than `max` times. */
  lemma {:induction false} EntriesStaySmall(log: Log, run: seq<Timed>, limits: Limits)
    requires 0 <= limits.max && NoEntryOver(log, limits.max)
    ensures NoEntryOver(LogAfter(log, run, limits), limits.max)
    decreases |run|
  {
    if run != [] {
      assert |TimesOf(log, if run[0].event.Allow? then run[0].event.ip else "")| <= limits.max;
      EntriesStaySmall(Step(log, run[0], limits), run[1..], limits);
    }
  }

  lemma AgreeingWindow(times: seq<int>, history: seq<int>, c: int, hi: int)
    requires AgreeAfter(times, history, c) && AllUpTo(history, hi)
    ensures Recent(times, c) == Window(history, c, hi)
  {
    RecentIsWindow(history, c, hi);
  }

  lemma KnowsNow(log: Log, past: seq<Verdict>, before: int, now: int, ip: string, limits: Limits)
    requires before <= now && Faithful(log, past, before, limits)
    ensures AgreeAfter(TimesOf(log, ip), Admitted(past, ip), now - limits.window)
    ensures AllUpTo(Admitted(past, ip), now)
  {
    assert KnowsAt(log, past, ip, now - limits.window);
    AdmittedBefore(past, ip, now);
  }

  lemma PrunedEntry(log: Log, cutoff: int, ip: string, history: seq<int>, hi: int)
    requires AgreeAfter(TimesOf(log, ip), history, cutoff) && AllUpTo(history, hi)
    ensures ip in Pruned(log, cutoff) <==> Window(history, cutoff, hi) != []
    ensures TimesOf(Pruned(log, cutoff), ip) == Window(history, cutoff, hi)
  {
    AgreeingWindow(TimesOf(log, ip), history, cutoff, hi);
    PrunedTimes(log, cutoff, ip);
  }

  lemma RunKnows(run: seq<Timed>, now: int, ip: string, limits: Limits)
    requires Monotone(run) && EndOf(now, run) <= now
    ensures var history := Admitted(Verdicts(map[], run, limits), ip);
            && AgreeAfter(TimesOf(LogAfter(map[], run, limits), ip), history, now - limits.window)
            && AllUpTo(history, now)
  {
    var before := if run == [] then now else run[0].now;
    RunFromNothing(before, run, limits);
    assert EndOf(before, run) <= now;
    KnowsNow(LogAfter(map[], run, limits), Verdicts(map[], run, limits), EndOf(before, run), now, ip, limits);
  }

  /** A cleanup leaves exactly the admissions of the window that ends with it: an
      address is kept when it has one, with all of them, and forgotten otherwise. */
  lemma CleanupLeavesWindow(run: seq<Timed>, now: int, ip: string, limits: Limits)
    requires Monotone(run) && EndOf(now, run) <= now
    ensures var log := Pruned(LogAfter(map[], run, limits), now - limits.window);
            var recent := Window(Admitted(Verdicts(map[], run, limits), ip), now - limits.window, now);
            (ip in log <==> recent != []) && TimesOf(log, ip) == recent
  {
    RunKnows(run, now, ip, limits);
    PrunedEntry(LogAfter(map[], run, limits), now - limits.window, ip,
                Admitted(Verdicts(map[], run, limits), ip), now);
  }

  // -------------------------------------------------- cleanup, and other addresses

  predicate SameRequests(vs: seq<Verdict>, ws: seq<Verdict>) {
    |vs| == |ws| && forall i | 0 <= i < |vs| :: vs[i].ip == ws[i].ip && vs[i].now == ws[i].now
  }

  /** The rule leaves no choice: the requests decide the answers. */
  lemma {:induction false} RuleDecides(vs: seq<Verdict>, ws: seq<Verdict>, limits: Limits)
    requires SameRequests(vs, ws) && AllFollowRule(vs, limits) && AllFollowRule(ws, limits)
    ensures vs == ws
  {
    if vs != [] {
      var k := |vs| - 1;
      RulePrefix(vs, k, limits);
      RulePrefix(ws, k, limits);
      RuleDecides(vs[..k], ws[..k], limits);
      RuleLast(vs, limits);
      RuleLast(ws, limits);
      RuleLeavesNoChoice(vs[k], ws[k], vs[..k], limits);
      SameSnoc(vs, ws);
    }
  }

  lemma RuleLeavesNoChoice(v: Verdict, w: Verdict, past: seq<Verdict>, limits: Limits)
    requires v.ip == w.ip && v.now == w.now && FollowsRule(v, past, limits) && FollowsRule(w, past, limits)
    ensures v == w
  {
  }

  lemma RuleLast(vs: seq<Verdict>, limits: Limits)
    requires vs != [] && AllFollowRule(vs, limits)
    ensures FollowsRule(vs[|vs| - 1], vs[..|vs| - 1], limits)
  {
  }

  lemma RulePrefix(vs: seq<Verdict>, k: nat, limits: Limits)
    requires k <= |vs| && AllFollowRule(vs, limits)
    ensures AllFollowRule(vs[..k], limits)
  {
    forall i | 0 <= i < k ensures FollowsRule(vs[..k][i], vs[..k][..i], limits) {
      assert vs[..k][..i] == vs[..i];
    }
  }

  function WithoutCleanup(run: seq<Timed>): seq<Timed> {
    if run == [] then []
    else (if run[0].event.Cleanup? then [] else [run[0]]) + WithoutCleanup(run[1..])
  }

  /** The requests of a run, with no answers. */
  function Requests(run: seq<Timed>): seq<(string, int)> {
    if run == [] then []
    else (if run[0].event.Allow? then [(run[0].event.ip, run[0].now)] else []) + Requests(run[1..])
  }

  predicate Answers(vs: seq<Verdict>, requests: seq<(string, int)>) {
    |vs| == |requests| && forall i | 0 <= i < |vs| :: (vs[i].ip, vs[i].now) == requests[i]
  }

  lemma AnswersConcat(vs: seq<Verdict>, requests: seq<(string, int)>, vs': seq<Verdict>, requests': seq<(string, int)>)
    requires Answers(vs, requests) && Answers(vs', requests')
    ensures Answers(vs + vs', requests + requests')
  {
  }

  lemma {:induction false} VerdictsAnswerRequests(log: Log, run: seq<Timed>, limits: Limits)
    ensures Answers(Verdicts(log, run, limits), Requests(run))
    decreases |run|
  {
    if run != [] {
      var t, log' := run[0], Step(log, run[0], limits);
      VerdictsAnswerRequests(log', run[1..], limits);
      AnswersConcat(Answer(log, t, limits), if t.event.Allow? then [(t.event.ip, t.now)] else [],
                    Verdicts(log', run[1..], limits), Requests(run[1..]));
    }
  }

  lemma {:induction false} CleanupsAreNoRequests(run: seq<Timed>)
    ensures Requests(WithoutCleanup(run)) == Requests(run)
  {
    if run != [] {
      var kept := WithoutCleanup(run[1..]);
      CleanupsAreNoRequests(run[1..]);
      if run[0].event.Cleanup? {
        EmptyEnds(kept);
        EmptyEnds(Requests(run[1..]));
      } else {
        assert ([run[0]] + kept)[1..] == kept;
      }
    }
  }

  lemma MonotoneCons(t: Timed, run: seq<Timed>)
    requires Monotone(run) && forall u | u in run :: t.now <= u.now
    ensures Monotone([t] + run)
  {
  }

  lemma {:induction false} WithoutCleanupMonotone(run: seq<Timed>)
    requires Monotone(run)
    ensures Monotone(WithoutCleanup(run))
    ensures run != [] ==> forall t | t in WithoutCleanup(run) :: run[0].now <= t.now
  {
    if run != [] {
      var rest := run[1..];
      WithoutCleanupMonotone(rest);
      assert rest != [] ==> run[0].now <= rest[0].now;
      MonotoneCons(run[0], WithoutCleanup(rest));
      EmptyEnds(WithoutCleanup(rest));
    }
  }

  /** Cleanups inserted anywhere change no answer. */
  lemma CleanupIsInvisible(run: seq<Timed>, limits: Limits)
    requires Monotone(run)
    ensures Verdicts(map[], run, limits) == Verdicts(map[], WithoutCleanup(run), limits)
  {
    var kept := WithoutCleanup(run);
    CleanupsAreNoRequests(run);
    WithoutCleanupMonotone(run);
    VerdictsAnswerRequests(map[], run, limits);
    VerdictsAnswerRequests(map[], kept, limits);
    SameAnswersSameRequests(Verdicts(map[], run, limits), Verdicts(map[], kept, limits), Requests(run));
    AnswersFollowHistory(run, limits);
    AnswersFollowHistory(kept, limits);
    RuleDecides(Verdicts(map[], run, limits), Verdicts(map[], kept, limits), limits);
  }

  /** The verdicts on one address. */
  function Only(vs: seq<Verdict>, ip: string): seq<Verdict> {
    if vs == [] then []
    else
      var k := |vs| - 1;
      Only(vs[..k], ip) + if vs[k].ip == ip then [vs[k]] else []
  }

  /** The requests of one address. */
  function RunOf(run: seq<Timed>, ip: string): seq<Timed> {
    if run == [] then []
    else (if run[0].event == Allow(ip) then [run[0]] else []) + RunOf(run[1..], ip)
  }

  lemma {:induction false} AdmittedOnly(vs: seq<Verdict>, ip: string)
    ensures Admitted(Only(vs, ip), ip) == Admitted(vs, ip)
  {
    if vs != [] {
      var k := |vs| - 1;
      AdmittedOnly(vs[..k], ip);
      if vs[k].ip == ip {
        AdmittedSnoc(Only(vs[..k], ip), vs[k], ip);
      } else {
        EmptyEnds(Only(vs[..k], ip));
        EmptyEnds(Admitted(vs[..k], ip));
      }
    }
  }

  lemma {:induction false} OnlyFollowsRule(vs: seq<Verdict>, ip: string, limits: Limits)
    requires AllFollowRule(vs, limits)
    ensures AllFollowRule(Only(vs, ip), limits)
  {
    if vs != [] {
      var k := |vs| - 1;
      RulePrefix(vs, k, limits);
      OnlyFollowsRule(vs[..k], ip, limits);
      if vs[k].ip == ip {
        AdmittedOnly(vs[..k], ip);
        assert FollowsRule(vs[k], vs[..k], limits);
        RuleSnoc(Only(vs[..k], ip), vs[k], limits);
      } else {
        EmptyEnds(Only(vs[..k], ip));
      }
    }
  }

  lemma {:induction false} OnlyAppend(a: seq<Verdict>, b: seq<Verdict>, ip: string)
    ensures Only(a + b, ip) == Only(a, ip) + Only(b, ip)
  {
    if b == [] {
      assert a + b == a && Only(a, ip) + [] == Only(a, ip);
    } else {
      var k := |b| - 1;
      assert (a + b)[..|a + b| - 1] == a + b[..k];
      OnlyAppend(a, b[..k], ip);
    }
  }

  lemma RequestsOfOne(run: seq<Timed>, ip: string)
    requires run != []
    ensures Requests(RunOf(run, ip)) ==
            (if run[0].event == Allow(ip) then [(ip, run[0].now)] else []) + Requests(RunOf(run[1..], ip))
  {
    var t, own := run[0], RunOf(run[1..], ip);
    assert ([t] + own)[1..] == own;
    EmptyEnds(own);
    EmptyEnds(Requests(own));
  }

  lemma {:induction false} OnlyAnswers(log: Log, run: seq<Timed>, ip: string, limits: Limits)
    ensures Answers(Only(Verdicts(log, run, limits), ip), Requests(RunOf(run, ip)))
    decreases |run|
  {
    if run != [] {
      var t, log' := run[0], Step(log, run[0], limits);
      var vs, own := Verdicts(log', run[1..], limits), RunOf(run[1..], ip);
      OnlyAnswers(log', run[1..], ip, limits);
      OnlyAppend(Answer(log, t, limits), vs, ip);
      OnlyAnswer(log, t, ip, limits);
      RequestsOfOne(run, ip);
      AnswersConcat(Only(Answer(log, t, limits), ip), if t.event == Allow(ip) then [(ip, t.now)] else [],
                    Only(vs, ip), Requests(own));
    }
  }

  lemma OnlyAnswer(log: Log, t: Timed, ip: string, limits: Limits)
    ensures Only(Answer(log, t, limits), ip) == if t.event == Allow(ip) then Answer(log, t, limits) else []
  {
    var answer := Answer(log, t, limits);
    if t.event.Allow? {
      assert answer[..0] == [] && Only([], ip) == [];
    }
  }

  lemma {:induction false} RunOfMonotone(run: seq<Timed>, ip: string)
    requires Monotone(run)
    ensures Monotone(RunOf(run, ip))
    ensures run != [] ==> forall t | t in RunOf(run, ip) :: run[0].now <= t.now
  {
    if run != [] {
      RunOfMonotone(run[1..], ip);
      assert run[1..] != [] ==> run[0].now <= run[1..][0].now;
      MonotoneCons(run[0], RunOf(run[1..], ip));
      EmptyEnds(RunOf(run[1..], ip));
    }
  }

  lemma SameAnswersSameRequests(vs: seq<Verdict>, ws: seq<Verdict>, requests: seq<(string, int)>)
    requires Answers(vs, requests) && Answers(ws, requests)
    ensures SameRequests(vs, ws)
  {
    forall i | 0 <= i < |vs| ensures vs[i].ip == ws[i].ip && vs[i].now == ws[i].now {
      assert (vs[i].ip, vs[i].now) == requests[i] == (ws[i].ip, ws[i].now);
    }
  }

  /** The answers to one address are those of a run with that address alone: other
      addresses, and cleanups, have no effect on it. */
  lemma OtherAddressesAreInvisible(run: seq<Timed>, ip: string, limits: Limits)
    requires Monotone(run)
    ensures Only(Verdicts(map[], run, limits), ip) == Verdicts(map[], RunOf(run, ip), limits)
  {
    var vs, own := Verdicts(map[], run, limits), RunOf(run, ip);
    RunOfMonotone(run, ip);
    OnlyAnswers(map[], run, ip, limits);
    VerdictsAnswerRequests(map[], own, limits);
    SameAnswersSameRequests(Only(vs, ip), Verdicts(map[], own, limits), Requests(own));
    AnswersFollowHistory(run, limits);
    AnswersFollowHistory(own, limits);
    OnlyFollowsRule(vs, ip, limits);
    RuleDecides(Only(vs, ip), Verdicts(map[], own, limits), limits);
  }

  // ---------------------------------------------------------------- the bound

  predicate InOrder(vs: seq<Verdict>) {
    forall i, j | 0 <= i < j < |vs| :: vs[i].now <= vs[j].now
  }

  /** Moving the window's end down to the last entry, and its start down as well,
      drops nothing. */
  lemma {:induction false} WindowShift(times: seq<int>, lo: int, hi: int, lo': int, hi': int)
    requires lo' <= lo && AllUpTo(times, hi')
    ensures |Window(times, lo, hi)| <= |Window(times, lo', hi')|
  {
    if times != [] {
      WindowShift(times[..|times| - 1], lo, hi, lo', hi');
    }
  }

  lemma {:induction false} RuleBounds(vs: seq<Verdict>, ip: string, T: int, limits: Limits)
    requires 0 <= limits.max && InOrder(vs) && AllFollowRule(vs, limits)
    ensures |Window(Admitted(vs, ip), T - limits.window, T)| <= limits.max
  {
    if vs != [] {
      var k := |vs| - 1;
      var past, v := vs[..k], vs[k];
      RulePrefix(vs, k, limits);
      RuleBounds(past, ip, T, limits);
      if v.ip == ip && v.ok {
        RuleLast(vs, limits);
        OneMoreAdmitted(past, v, T, limits);
      } else {
        EmptyEnds(Admitted(past, ip));
      }
    }
  }

  lemma OneMoreAdmitted(past: seq<Verdict>, v: Verdict, T: int, limits: Limits)
    requires FollowsRule(v, past, limits) && v.ok && forall u | u in past :: u.now <= v.now
    requires |Window(Admitted(past, v.ip), T - limits.window, T)| <= limits.max
    ensures |Window(Admitted(past, v.ip) + [v.now], T - limits.window, T)| <= limits.max
  {
    var before := Admitted(past, v.ip);
    WindowSnoc(before, v.now, T - limits.window, T);
    if T - limits.window < v.now <= T {
      AdmittedBefore(past, v.ip, v.now);
      WindowShift(before, T - limits.window, T, v.now - limits.window, v.now);
    }
  }

  lemma {:induction false} VerdictsInOrder(log: Log, run: seq<Timed>, limits: Limits)
    requires Monotone(run)
    ensures InOrder(Verdicts(log, run, limits))
    ensures run != [] ==> forall v | v in Verdicts(log, run, limits) :: run[0].now <= v.now
    decreases |run|
  {
    if run != [] {
      var rest := run[1..];
      VerdictsInOrder(Step(log, run[0], limits), rest, limits);
      assert rest != [] ==> run[0].now <= rest[0].now;
    }
  }

  /** The rate bound: in every run, every half-open interval as long as the window
      holds at most `max` admitted requests of any one address, wherever it ends. */
  lemma RateBound(run: seq<Timed>, ip: string, T: int, limits: Limits)
    requires Monotone(run) && 0 <= limits.max
    ensures |Window(Admitted(Verdicts(map[], run, limits), ip), T - limits.window, T)| <= limits.max
  {
    AnswersFollowHistory(run, limits);
    VerdictsInOrder(map[], run, limits);
    RuleBounds(Verdicts(map[], run, limits), ip, T, limits);
  }
}
