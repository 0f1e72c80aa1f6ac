/** The router's tick over all sessions, as a state machine
    (gateway/internal/router/router.go). */
module Routing {
  import opened Bytes
  import opened Rings
  import opened Codec
  import opened WarningReader

  /** What the tick depends on: the watermarks, the length of the scratch slice
      handed to `TryRead`, whether slow sessions are still drained, and how
      `Write` copies. */
  datatype Config = Config(marks: Marks, scratch: nat, drainsSlow: bool, mode: WriteMode) {
    predicate Valid() {
      marks.Valid() && scratch < 0x1_0000
    }
  }

  const SCRATCH: nat := 4096
  const AS_WRITTEN := Config(SOURCE_MARKS, 0, false, AsWritten)
  const AS_DESIGNED := Config(SOURCE_MARKS, SCRATCH, true, Wrapping)

  /** A buffer per registered id, and the slow flag of every known session. */
  datatype RouterState = RouterState(rings: map<uint32, Ring>, slow: map<uint32, bool>) {
    ghost predicate Valid() {
      forall id | id in rings :: rings[id].Valid()
    }
  }

  // --------------------------------------------------------------- messages

  datatype Cast = Warning(sessionId: uint32, isSlow: bool) | Output(frame: Frame)

  function Digit(n: nat): byte {
    48 + n % 10
  }

  /** `%d`. */
  function Decimal(n: nat): (s: seq<byte>)
    ensures |s| > 0
  {
    if n < 10 then [Digit(n)] else Decimal(n / 10) + [Digit(n)]
  }

  function Pow10(k: nat): nat {
    if k == 0 then 1 else 10 * Pow10(k - 1)
  }

  lemma {:induction false} DecimalDigits(n: nat, k: nat)
    requires 0 < k && n < Pow10(k)
    ensures |Decimal(n)| <= k
  {
    if n >= 10 {
      assert k > 1;
      DecimalDigits(n / 10, k - 1);
    }
  }

  function Ascii(text: string): seq<byte> {
    seq(|text|, i requires 0 <= i < |text| => text[i] as int % 0x100)
  }

  /** The JSON text of a slow warning. */
  function WarningText(id: uint32, isSlow: bool): seq<byte> {
    Ascii("{\"type\":\"slow\",\"sessionId\":") + Decimal(id)
    + Ascii(",\"isSlow\":") + Ascii(if isSlow then "true" else "false") + Ascii("}")
  }

  function CastFrame(c: Cast): Frame {
    match c
    case Warning(id, isSlow) =>
      var text := WarningText(id, isSlow);
      Frame(SLOW_WARNING, 1, [SessionBlock(id, |text| % 0x1_0000, text)])
    case Output(frame) => frame
  }

  /** The bytes handed to the hub. */
  function Wire(c: Cast): seq<byte> {
    Encode(CastFrame(c))
  }

  function Wires(log: seq<Cast>): (w: seq<seq<byte>>)
    ensures |w| == |log|
  {
    seq(|log|, i requires 0 <= i < |log| => Wire(log[i]))
  }

  lemma WiresAppend(a: seq<Cast>, b: seq<Cast>)
    ensures Wires(a + b) == Wires(a) + Wires(b)
  {
  }

  // ------------------------------------------------------------- one session

  datatype Visit = Visit(ring: Ring, slow: bool, warned: seq<bool>, out: seq<byte>)

  /** The watermark check: the flag afterwards. */
  function Checked(marks: Marks, slow: bool, unread: nat): bool {
    if unread >= marks.high && !slow then true
    else if unread <= marks.low && slow then false
    else slow
  }

  /** What a tick does to one session that has a buffer. */
  ghost function VisitSession(cfg: Config, ring: Ring, slow: bool): Visit
    requires ring.Valid()
  {
    var slow' := Checked(cfg.marks, slow, ring.Unread());
    var warned := if slow' == slow then [] else [slow'];
    if slow' && !cfg.drainsSlow then Visit(ring, slow', warned, [])
    else
      var t := ReadRing(ring, cfg.scratch);
      Visit(t.ring, slow', warned, t.out)
  }

  // ---------------------------------------------------------------- one tick

  /** A tick in progress: the state, what has been broadcast, and the blocks
      collected for the frame. */
  datatype Sweep = Sweep(st: RouterState, casts: seq<Cast>, blocks: seq<SessionBlock>)

  function WarningCasts(id: uint32, warned: seq<bool>): (c: seq<Cast>)
    ensures |c| == |warned|
  {
    seq(|warned|, i requires 0 <= i < |warned| => Warning(id, warned[i]))
  }

  function OutputBlocks(id: uint32, out: seq<byte>): seq<SessionBlock> {
    if out == [] then [] else [SessionBlock(id, |out| % 0x1_0000, out)]
  }

  ghost function VisitOne(cfg: Config, s: Sweep, id: uint32): (s': Sweep)
    requires s.st.Valid() && id in s.st.rings
    ensures s'.st.Valid() && s'.st.rings.Keys == s.st.rings.Keys && s'.st.slow.Keys == s.st.slow.Keys
  {
    if id !in s.st.slow then s
    else
      var v := VisitSession(cfg, s.st.rings[id], s.st.slow[id]);
      Sweep(RouterState(s.st.rings[id := v.ring], s.st.slow[id := v.slow]),
            s.casts + WarningCasts(id, v.warned),
            s.blocks + OutputBlocks(id, v.out))
  }

  /** `Range` over the buffers in the order it happens to choose. */
  ghost function SweepAll(cfg: Config, st: RouterState, order: seq<uint32>): (s: Sweep)
    requires st.Valid() && forall id | id in order :: id in st.rings
    ensures s.st.Valid() && s.st.rings.Keys == st.rings.Keys && s.st.slow.Keys == st.slow.Keys
  {
    if order == [] then Sweep(st, [], [])
    else
      var k := |order| - 1;
      VisitOne(cfg, SweepAll(cfg, st, order[..k]), order[k])
  }

  /** `SessionCount` is a `uint8`, incremented once per block. */
  function OutputFrame(blocks: seq<SessionBlock>): Frame {
    Frame(TERMINAL_OUTPUT, |blocks| % 0x100, blocks)
  }

  /** The frame is broadcast when its count is not zero. */
  function OutputCasts(blocks: seq<SessionBlock>): seq<Cast> {
    if OutputFrame(blocks).sessionCount > 0 then [Output(OutputFrame(blocks))] else []
  }

  ghost function RunTick(cfg: Config, st: RouterState, order: seq<uint32>): (r: (RouterState, seq<Cast>))
    requires st.Valid() && forall id | id in order :: id in st.rings
    ensures r.0.Valid()
  {
    var s := SweepAll(cfg, st, order);
    (s.st, s.casts + OutputCasts(s.blocks))
  }

  // ------------------------------------------------- what one session sees

  /** The data of a session's blocks, in order. */
  function DataFor(blocks: seq<SessionBlock>, id: uint32): seq<byte> {
    if blocks == [] then []
    else (if blocks[0].sessionId == id then blocks[0].data else []) + DataFor(blocks[1..], id)
  }

  /** The terminal output a receiver of one message gets for a session. */
  function Delivered(wire: seq<byte>, id: uint32): seq<byte> {
    match Decode(wire)
    case None => []
    case Some(f) => if f.kind == TERMINAL_OUTPUT then DataFor(f.sessions, id) else []
  }

  function DeliveredAll(wires: seq<seq<byte>>, id: uint32): seq<byte> {
    if wires == [] then [] else Delivered(wires[0], id) + DeliveredAll(wires[1..], id)
  }

  /** The slow warnings about a session, in order. */
  function WarningsFor(log: seq<Cast>, id: uint32): seq<bool> {
    if log == [] then []
    else
      (if log[0].Warning? && log[0].sessionId == id then [log[0].isSlow] else [])
      + WarningsFor(log[1..], id)
  }

  lemma {:induction false} DataForAppend(a: seq<SessionBlock>, b: seq<SessionBlock>, id: uint32)
    ensures DataFor(a + b, id) == DataFor(a, id) + DataFor(b, id)
  {
    if a == [] {
      assert a + b == b;
    } else {
      assert (a + b)[1..] == a[1..] + b;
      DataForAppend(a[1..], b, id);
    }
  }

  lemma {:induction false} DeliveredAllAppend(a: seq<seq<byte>>, b: seq<seq<byte>>, id: uint32)
    ensures DeliveredAll(a + b, id) == DeliveredAll(a, id) + DeliveredAll(b, id)
  {
    if a == [] {
      assert a + b == b;
    } else {
      assert (a + b)[1..] == a[1..] + b;
      DeliveredAllAppend(a[1..], b, id);
    }
  }

  lemma {:induction false} WarningsForAppend(a: seq<Cast>, b: seq<Cast>, id: uint32)
    ensures WarningsFor(a + b, id) == WarningsFor(a, id) + WarningsFor(b, id)
  {
    if a == [] {
      assert a + b == b;
    } else {
      assert (a + b)[1..] == a[1..] + b;
      WarningsForAppend(a[1..], b, id);
    }
  }

  lemma DataForOneBlock(id: uint32, out: seq<byte>, other: uint32)
    ensures DataFor(OutputBlocks(id, out), other) == if id == other then out else []
  {
    if out != [] {
      assert OutputBlocks(id, out)[1..] == [];
    }
  }

  lemma WarningsForOneVisit(id: uint32, warned: seq<bool>, other: uint32)
    requires |warned| <= 1
    ensures WarningsFor(WarningCasts(id, warned), other) == if id == other then warned else []
  {
    if warned != [] {
      assert WarningCasts(id, warned)[1..] == [];
    }
  }

  predicate Distinct(order: seq<uint32>) {
    forall i, j | 0 <= i < j < |order| :: order[i] != order[j]
  }

  /** The part of a tick in progress that concerns one session. */
  ghost predicate SweptFor(cfg: Config, st: RouterState, s: Sweep, id: uint32, visited: bool)
    requires st.Valid()
  {
    && s.st.rings.Keys == st.rings.Keys && s.st.slow.Keys == st.slow.Keys
    && (visited && id in st.slow && id in st.rings ==>
          VisitSession(cfg, st.rings[id], st.slow[id]) ==
          Visit(s.st.rings[id], s.st.slow[id], WarningsFor(s.casts, id), DataFor(s.blocks, id)))
    && (!(visited && id in st.slow) ==>
          && (id in st.rings ==> s.st.rings[id] == st.rings[id])
          && (id in st.slow ==> s.st.slow[id] == st.slow[id])
          && WarningsFor(s.casts, id) == [] && DataFor(s.blocks, id) == [])
  }

  /** Whatever order `Range` picks, a session gets from the tick what it would
      get alone: no session disturbs another, and none is served twice. */
  lemma {:induction false} SweepIsPointwise(cfg: Config, st: RouterState, order: seq<uint32>, id: uint32)
    requires st.Valid() && Distinct(order) && forall i | i in order :: i in st.rings
    ensures SweptFor(cfg, st, SweepAll(cfg, st, order), id, id in order)
  {
    if order != [] {
      var k := |order| - 1;
      var last, before := order[k], order[..k];
      assert order == before + [last];
      assert last !in before;
      SweepIsPointwise(cfg, st, before, id);
      SweepIsPointwise(cfg, st, before, last);
      VisitFor(cfg, SweepAll(cfg, st, before), last, id);
    }
  }

  lemma SweptForDetermines(cfg: Config, st: RouterState, s: Sweep, t: Sweep, id: uint32, visited: bool)
    requires st.Valid() && SweptFor(cfg, st, s, id, visited) && SweptFor(cfg, st, t, id, visited)
    requires visited == (id in st.rings)
    ensures id in st.rings ==> s.st.rings[id] == t.st.rings[id]
    ensures id in st.slow ==> s.st.slow[id] == t.st.slow[id]
    ensures DataFor(s.blocks, id) == DataFor(t.blocks, id)
    ensures WarningsFor(s.casts, id) == WarningsFor(t.casts, id)
  {
  }

  lemma SameForOne(cfg: Config, st: RouterState, a: seq<uint32>, b: seq<uint32>, id: uint32)
    requires st.Valid() && Distinct(a) && Distinct(b)
    requires (forall i :: i in a <==> i in st.rings) && (forall i :: i in b <==> i in st.rings)
    ensures var (s, t) := (SweepAll(cfg, st, a), SweepAll(cfg, st, b));
            && (id in st.rings ==> s.st.rings[id] == t.st.rings[id])
            && (id in st.slow ==> s.st.slow[id] == t.st.slow[id])
            && DataFor(s.blocks, id) == DataFor(t.blocks, id)
            && WarningsFor(s.casts, id) == WarningsFor(t.casts, id)
  {
    var s, t := SweepAll(cfg, st, a), SweepAll(cfg, st, b);
    SweepIsPointwise(cfg, st, a, id);
    SweepIsPointwise(cfg, st, b, id);
    SweptForDetermines(cfg, st, s, t, id, id in st.rings);
  }

  lemma SameStates(s: RouterState, t: RouterState)
    requires s.rings.Keys == t.rings.Keys && s.slow.Keys == t.slow.Keys
    requires forall id | id in s.rings :: s.rings[id] == t.rings[id]
    requires forall id | id in s.slow :: s.slow[id] == t.slow[id]
    ensures s == t
  {
    assert s.rings == t.rings && s.slow == t.slow;
  }

  /** The order `Range` picks changes neither the state after the tick nor what
      any session is sent. */
  lemma OrderIsIrrelevant(cfg: Config, st: RouterState, a: seq<uint32>, b: seq<uint32>)
    requires st.Valid() && Distinct(a) && Distinct(b)
    requires (forall i :: i in a <==> i in st.rings) && (forall i :: i in b <==> i in st.rings)
    ensures SweepAll(cfg, st, a).st == SweepAll(cfg, st, b).st
    ensures forall id: uint32 ::
              && DataFor(SweepAll(cfg, st, a).blocks, id) == DataFor(SweepAll(cfg, st, b).blocks, id)
              && WarningsFor(SweepAll(cfg, st, a).casts, id) == WarningsFor(SweepAll(cfg, st, b).casts, id)
  {
    var s, t := SweepAll(cfg, st, a), SweepAll(cfg, st, b);
    forall id: uint32
      ensures id in st.rings ==> s.st.rings[id] == t.st.rings[id]
      ensures id in st.slow ==> s.st.slow[id] == t.st.slow[id]
      ensures DataFor(s.blocks, id) == DataFor(t.blocks, id)
      ensures WarningsFor(s.casts, id) == WarningsFor(t.casts, id)
    {
      SameForOne(cfg, st, a, b, id);
    }
    SameStates(s.st, t.st);
  }

  lemma VisitFor(cfg: Config, s: Sweep, at: uint32, id: uint32)
    requires s.st.Valid() && at in s.st.rings
    ensures var s' := VisitOne(cfg, s, at);
            if at == id && id in s.st.slow then
              var v := VisitSession(cfg, s.st.rings[id], s.st.slow[id]);
              && s'.st.rings[id] == v.ring && s'.st.slow[id] == v.slow
              && WarningsFor(s'.casts, id) == WarningsFor(s.casts, id) + v.warned
              && DataFor(s'.blocks, id) == DataFor(s.blocks, id) + v.out
            else
              && (id in s.st.rings ==> s'.st.rings[id] == s.st.rings[id])
              && (id in s.st.slow ==> s'.st.slow[id] == s.st.slow[id])
              && WarningsFor(s'.casts, id) == WarningsFor(s.casts, id)
              && DataFor(s'.blocks, id) == DataFor(s.blocks, id)
  {
    if at in s.st.slow {
      var v := VisitSession(cfg, s.st.rings[at], s.st.slow[at]);
      WarningsForAppend(s.casts, WarningCasts(at, v.warned), id);
      WarningsForOneVisit(at, v.warned, id);
      DataForAppend(s.blocks, OutputBlocks(at, v.out), id);
      DataForOneBlock(at, v.out, id);
    }
  }

  // ------------------------------------------------------ the tick's messages

  /** Every block carries its true, non-zero length, and only warnings have been
      broadcast so far. */
  ghost predicate SoundSweep(s: Sweep) {
    && LengthsMatch(s.blocks)
    && (forall b | b in s.blocks :: b.data != [])
    && (forall c | c in s.casts :: c.Warning?)
  }

  lemma VisitKeepsSound(cfg: Config, s: Sweep, id: uint32)
    requires cfg.Valid() && s.st.Valid() && id in s.st.rings && SoundSweep(s)
    ensures SoundSweep(VisitOne(cfg, s, id))
  {
    if id in s.st.slow {
      var v := VisitSession(cfg, s.st.rings[id], s.st.slow[id]);
      assert |v.out| <= cfg.scratch;
      assert SoundSweep(Sweep(s.st, s.casts + WarningCasts(id, v.warned), s.blocks + OutputBlocks(id, v.out)));
    }
  }

  lemma {:induction false} SweptBlocksMatch(cfg: Config, st: RouterState, order: seq<uint32>)
    requires cfg.Valid() && st.Valid() && forall i | i in order :: i in st.rings
    ensures SoundSweep(SweepAll(cfg, st, order))
  {
    if order != [] {
      var k := |order| - 1;
      SweptBlocksMatch(cfg, st, order[..k]);
      VisitKeepsSound(cfg, SweepAll(cfg, st, order[..k]), order[k]);
    }
  }

  lemma WarningDeliversNothing(c: Cast, id: uint32)
    requires c.Warning?
    ensures Delivered(Wire(c), id) == []
  {
    if Decode(Wire(c)).Some? {
      assert Decode(Wire(c)).value.kind == Wire(c)[0] == SLOW_WARNING;
    }
  }

  lemma {:induction false} WarningsDeliverNothing(log: seq<Cast>, id: uint32)
    requires forall c | c in log :: c.Warning?
    ensures DeliveredAll(Wires(log), id) == []
  {
    if log != [] {
      WarningDeliversNothing(log[0], id);
      WarningsDeliverNothing(log[1..], id);
      assert Wires(log)[1..] == Wires(log[1..]);
    }
  }

  lemma WarningFits(id: uint32, isSlow: bool)
    ensures |WarningText(id, isSlow)| < 0x1_0000
  {
    assert Pow10(10) == 100_000 * Pow10(5);
    assert Pow10(5) == 100_000;
    DecimalDigits(id, 10);
  }

  lemma FrameArrives(f: Frame)
    requires WellFormed(f)
    ensures Decode(Encode(f)) == Some(f)
  {
    ParserInvertsPrinter(f, []);
    EmptyEnds(Encode(f));
  }

  lemma {:induction false} DecimalReads(n: nat)
    ensures IsNumber(AsText(Decimal(n))) && DigitsValue(AsText(Decimal(n))) == n
    ensures n > 0 ==> AsText(Decimal(n))[0] != '0'
  {
    if n < 10 {
      assert AsText(Decimal(n)) == [Digit(n) as char];
      assert [Digit(n) as char][..0] == [];
    } else {
      DecimalReads(n / 10);
      AsTextAppend(Decimal(n / 10), [Digit(n)]);
      NumberSnoc(AsText(Decimal(n / 10)), Digit(n) as char);
      assert AsText([Digit(n)]) == [Digit(n) as char];
    }
  }

  lemma NumberSnoc(number: string, c: char)
    requires IsNumber(number) && number[0] != '0' && IsDigit(c)
    ensures IsNumber(number + [c]) && (number + [c])[0] != '0'
    ensures DigitsValue(number + [c]) == 10 * DigitsValue(number) + DigitValue(c)
  {
    assert (number + [c])[..|number|] == number;
  }

  lemma AsciiReads(text: string)
    requires forall c | c in text :: (c as int) < 0x80
    ensures AsText(Ascii(text)) == text
  {
    forall i | 0 <= i < |text| ensures AsText(Ascii(text))[i] == text[i] {
      assert text[i] in text;
    }
  }

  lemma PartsRead(head: seq<byte>, number: seq<byte>, field: seq<byte>, word: seq<byte>, close: seq<byte>)
    ensures AsText(head + number + field + word + close) ==
            AsText(head) + (AsText(number) + (AsText(field) + AsText(word) + AsText(close)))
  {
    AsTextAppend(head, number);
    AsTextAppend(head + number, field);
    AsTextAppend(head + number + field, word);
    AsTextAppend(head + number + field + word, close);
  }

  lemma TailReads(isSlow: bool)
    ensures AsText(Ascii(",\"isSlow\":")) + AsText(Ascii(if isSlow then "true" else "false")) + AsText(Ascii("}")) ==
            if isSlow then ",\"isSlow\":true}" else ",\"isSlow\":false}"
  {
    AsciiReads(",\"isSlow\":");
    AsciiReads(if isSlow then "true" else "false");
    AsciiReads("}");
  }

  lemma WarningReads(id: uint32, isSlow: bool)
    ensures ReadWarning(WarningText(id, isSlow)) == Some((id, isSlow))
  {
    PartsRead(Ascii("{\"type\":\"slow\",\"sessionId\":"), Decimal(id), Ascii(",\"isSlow\":"),
              Ascii(if isSlow then "true" else "false"), Ascii("}"));
    AsciiReads("{\"type\":\"slow\",\"sessionId\":");
    TailReads(isSlow);
    DecimalReads(id);
    ReadsBack(WarningText(id, isSlow), AsText(Decimal(id)), isSlow);
  }

  /** A slow warning is read back by every receiver as it was sent: one block under
      the session's id, whose text a reader takes for the id and the flag. */
  lemma WarningArrives(id: uint32, isSlow: bool)
    ensures var f := CastFrame(Warning(id, isSlow));
            && Decode(Wire(Warning(id, isSlow))) == Some(f)
            && f.kind == 0x06
            && |f.sessions| == 1 && f.sessions[0].sessionId == id
            && f.sessions[0].length == |f.sessions[0].data|
            && ReadWarning(f.sessions[0].data) == Some((id, isSlow))
  {
    WarningReads(id, isSlow);
    WarningFits(id, isSlow);
    FrameArrives(CastFrame(Warning(id, isSlow)));
  }

  /** What arrives of a tick's blocks: the first `|blocks| mod 256` of them. */
  lemma OutputDelivers(blocks: seq<SessionBlock>, id: uint32)
    requires LengthsMatch(blocks)
    ensures DeliveredAll(Wires(OutputCasts(blocks)), id) == DataFor(blocks[..|blocks| % 0x100], id)
  {
    var f := OutputFrame(blocks);
    DecodeReadsCount(f, []);
    EmptyEnds(Encode(f));
    if f.sessionCount > 0 {
      assert Wires(OutputCasts(blocks)) == [Wire(Output(f))];
      assert DeliveredAll([Wire(Output(f))], id) == Delivered(Wire(Output(f)), id);
    } else {
      assert blocks[..0] == [];
      assert Wires(OutputCasts(blocks)) == [];
    }
  }

  lemma MessagesDeliver(casts: seq<Cast>, blocks: seq<SessionBlock>, id: uint32)
    requires (forall c | c in casts :: c.Warning?) && LengthsMatch(blocks)
    ensures DeliveredAll(Wires(casts + OutputCasts(blocks)), id) == DataFor(blocks[..|blocks| % 0x100], id)
  {
    var out := OutputCasts(blocks);
    WarningsDeliverNothing(casts, id);
    OutputDelivers(blocks, id);
    WiresAppend(casts, out);
    DeliveredAllAppend(Wires(casts), Wires(out), id);
  }

  lemma TickDelivers(cfg: Config, st: RouterState, order: seq<uint32>, id: uint32)
    requires cfg.Valid() && st.Valid() && forall i | i in order :: i in st.rings
    ensures var blocks := SweepAll(cfg, st, order).blocks;
            DeliveredAll(Wires(RunTick(cfg, st, order).1), id) == DataFor(blocks[..|blocks| % 0x100], id)
  {
    SweptBlocksMatch(cfg, st, order);
    var s := SweepAll(cfg, st, order);
    MessagesDeliver(s.casts, s.blocks, id);
  }

  /** The tick will collect a block for the session: it is known, has unread bytes,
      and is not passed over as slow. */
  ghost predicate Contributes(cfg: Config, st: RouterState, id: uint32)
    requires st.Valid()
  {
    && id in st.rings && id in st.slow && 0 < cfg.scratch && 0 < st.rings[id].Unread()
    && (Checked(cfg.marks, st.slow[id], st.rings[id].Unread()) ==> cfg.drainsSlow)
  }

  /** The sessions of `order` that do, as they come, judged before the tick. */
  ghost function ContributorIds(cfg: Config, st: RouterState, order: seq<uint32>): seq<uint32>
    requires st.Valid()
  {
    if order == [] then []
    else
      var k := |order| - 1;
      ContributorIds(cfg, st, order[..k]) + if Contributes(cfg, st, order[k]) then [order[k]] else []
  }

  ghost function Contributors(cfg: Config, st: RouterState, order: seq<uint32>): nat
    requires st.Valid()
  {
    |ContributorIds(cfg, st, order)|
  }

  /** The warnings the tick will send, in the order of its visits, judged before it:
      the session is normal and its backlog high, or slow and its backlog low. */
  ghost function Warned(cfg: Config, st: RouterState, order: seq<uint32>): seq<Cast>
    requires st.Valid()
  {
    if order == [] then []
    else
      var k := |order| - 1;
      Warned(cfg, st, order[..k])
      + if order[k] !in st.rings || order[k] !in st.slow then []
        else if !st.slow[order[k]] && st.rings[order[k]].Unread() >= cfg.marks.high then [Warning(order[k], true)]
        else if st.slow[order[k]] && st.rings[order[k]].Unread() <= cfg.marks.low then [Warning(order[k], false)]
        else []
  }

  function BlockIds(blocks: seq<SessionBlock>): (ids: seq<uint32>)
    ensures |ids| == |blocks|
  {
    seq(|blocks|, i requires 0 <= i < |blocks| => blocks[i].sessionId)
  }

  lemma VisitContributes(cfg: Config, st: RouterState, s: Sweep, id: uint32)
    requires st.Valid() && s.st.Valid() && id in st.rings && SweptFor(cfg, st, s, id, false)
    ensures BlockIds(VisitOne(cfg, s, id).blocks) ==
            BlockIds(s.blocks) + if Contributes(cfg, st, id) then [id] else []
  {
    if id in st.slow {
      ReadTakesFront(st.rings[id], cfg.scratch);
      BlockIdsAppend(s.blocks, id, VisitSession(cfg, st.rings[id], st.slow[id]).out);
    } else {
      EmptyEnds(BlockIds(s.blocks));
    }
  }

  lemma BlockIdsAppend(blocks: seq<SessionBlock>, id: uint32, out: seq<byte>)
    ensures BlockIds(blocks + OutputBlocks(id, out)) == BlockIds(blocks) + if out == [] then [] else [id]
  {
  }

  lemma VisitWarns(cfg: Config, st: RouterState, s: Sweep, id: uint32)
    requires cfg.Valid() && st.Valid() && s.st.Valid() && id in st.rings && SweptFor(cfg, st, s, id, false)
    ensures VisitOne(cfg, s, id).casts ==
            s.casts + if id !in st.slow then []
                      else if !st.slow[id] && st.rings[id].Unread() >= cfg.marks.high then [Warning(id, true)]
                      else if st.slow[id] && st.rings[id].Unread() <= cfg.marks.low then [Warning(id, false)]
                      else []
  {
    EmptyEnds(s.casts);
    assert WarningCasts(id, []) == [] && WarningCasts(id, [true]) == [Warning(id, true)];
    assert WarningCasts(id, [false]) == [Warning(id, false)];
  }

  lemma {:induction false} BlocksAreContributors(cfg: Config, st: RouterState, order: seq<uint32>)
    requires st.Valid() && Distinct(order) && forall i | i in order :: i in st.rings
    ensures BlockIds(SweepAll(cfg, st, order).blocks) == ContributorIds(cfg, st, order)
    ensures |SweepAll(cfg, st, order).blocks| == Contributors(cfg, st, order)
  {
    if order != [] {
      var k := |order| - 1;
      var last, before := order[k], order[..k];
      assert last !in before;
      BlocksAreContributors(cfg, st, before);
      SweepIsPointwise(cfg, st, before, last);
      VisitContributes(cfg, st, SweepAll(cfg, st, before), last);
    }
  }

  lemma {:induction false} CastsAreWarned(cfg: Config, st: RouterState, order: seq<uint32>)
    requires cfg.Valid() && st.Valid() && Distinct(order) && forall i | i in order :: i in st.rings
    ensures SweepAll(cfg, st, order).casts == Warned(cfg, st, order)
  {
    if order != [] {
      var k := |order| - 1;
      var last, before := order[k], order[..k];
      assert last !in before;
      CastsAreWarned(cfg, st, before);
      SweepIsPointwise(cfg, st, before, last);
      VisitWarns(cfg, st, SweepAll(cfg, st, before), last);
    }
  }

  /** The messages of a tick and their order: first the warnings as the sessions are
      visited, then, unless its count comes out as zero, one output frame with a block
      for each contributing session as they are visited. */
  lemma TickSends(cfg: Config, st: RouterState, order: seq<uint32>)
    requires cfg.Valid() && st.Valid() && Distinct(order) && forall i | i in order :: i in st.rings
    ensures var (log, warned, ids) := (RunTick(cfg, st, order).1, Warned(cfg, st, order), ContributorIds(cfg, st, order));
            if |ids| % 0x100 == 0 then log == warned
            else
              && |log| == |warned| + 1 && log[..|warned|] == warned && log[|warned|].Output?
              && log[|warned|].frame.kind == 0x02 && log[|warned|].frame.sessionCount == |ids| % 0x100
              && BlockIds(log[|warned|].frame.sessions) == ids
  {
    CastsAreWarned(cfg, st, order);
    BlocksAreContributors(cfg, st, order);
    EmptyEnds(Warned(cfg, st, order));
  }

  /** A tick delivers everything it takes out of the buffers exactly when at most
      255 sessions contribute: the count is an unchecked `uint8`. */
  lemma TickDeliversAllIff(cfg: Config, st: RouterState, order: seq<uint32>)
    requires cfg.Valid() && st.Valid() && Distinct(order) && forall i | i in order :: i in st.rings
    ensures var blocks := SweepAll(cfg, st, order).blocks;
            (forall id: uint32 :: DeliveredAll(Wires(RunTick(cfg, st, order).1), id) == DataFor(blocks, id))
            <==> Contributors(cfg, st, order) <= 0xff
  {
    var blocks := SweepAll(cfg, st, order).blocks;
    BlocksAreContributors(cfg, st, order);
    if |blocks| <= 0xff {
      forall id: uint32 ensures DeliveredAll(Wires(RunTick(cfg, st, order).1), id) == DataFor(blocks, id) {
        TickDelivers(cfg, st, order, id);
        WholePrefix(blocks);
      }
    } else {
      SweptBlocksMatch(cfg, st, order);
      CutLosesData(blocks, |blocks| % 0x100);
      var id: uint32 :| DataFor(blocks[..|blocks| % 0x100], id) != DataFor(blocks, id);
      TickDelivers(cfg, st, order, id);
    }
  }

  lemma WholePrefix(blocks: seq<SessionBlock>)
    requires |blocks| <= 0xff
    ensures blocks[..|blocks| % 0x100] == blocks
  {
  }

  /** Cutting a list of non-empty blocks short takes data from some session. */
  lemma CutLosesData(blocks: seq<SessionBlock>, n: nat)
    requires n < |blocks| && forall b | b in blocks :: b.data != []
    ensures exists id: uint32 :: DataFor(blocks[..n], id) != DataFor(blocks, id)
  {
    var id := blocks[n].sessionId;
    assert blocks[n] in blocks && blocks[n..][0] == blocks[n];
    assert blocks == blocks[..n] + blocks[n..];
    DataForAppend(blocks[..n], blocks[n..], id);
    assert |DataFor(blocks, id)| > |DataFor(blocks[..n], id)|;
  }

  /** With a multiple of 256 contributing sessions the count comes out as zero, and
      the whole tick is lost. */
  lemma WideTickDeliversNothing(cfg: Config, st: RouterState, order: seq<uint32>, id: uint32)
    requires cfg.Valid() && st.Valid() && Distinct(order) && forall i | i in order :: i in st.rings
    requires Contributors(cfg, st, order) % 0x100 == 0
    ensures DeliveredAll(Wires(RunTick(cfg, st, order).1), id) == []
  {
    BlocksAreContributors(cfg, st, order);
    TickDelivers(cfg, st, order, id);
    assert SweepAll(cfg, st, order).blocks[..0] == [];
  }

  // -------------------------------------------------------------------- runs

  datatype Event =
    | Write(id: uint32, p: seq<byte>)
    | CloseBuffer(id: uint32)
    | RegisterBuffer(id: uint32)
    | UnregisterBuffer(id: uint32)
    | AddSession(id: uint32)
    | DropSession(id: uint32)
    | Tick(order: seq<uint32>)

  /** A tick visits every buffer once, in some order. */
  ghost predicate Enabled(st: RouterState, e: Event) {
    e.Tick? ==> Distinct(e.order) && forall id :: id in e.order <==> id in st.rings
  }

  ghost function Step(cfg: Config, st: RouterState, e: Event): (r: (RouterState, seq<Cast>))
    requires cfg.Valid() && st.Valid() && Enabled(st, e)
    ensures r.0.Valid()
  {
    match e
    case Write(id, p) =>
      (if id in st.rings then st.(rings := st.rings[id := WriteRing(st.rings[id], p, cfg.mode).ring]) else st, [])
    case CloseBuffer(id) =>
      (if id in st.rings then st.(rings := st.rings[id := st.rings[id].(closed := true)]) else st, [])
    case RegisterBuffer(id) => (st.(rings := st.rings[id := Fresh(cfg.marks.size)]), [])
    case UnregisterBuffer(id) => (st.(rings := st.rings - {id}), [])
    case AddSession(id) => (st.(slow := st.slow[id := false]), [])
    case DropSession(id) => (st.(slow := st.slow - {id}), [])
    case Tick(order) => RunTick(cfg, st, order)
  }

  ghost predicate AllEnabled(cfg: Config, st: RouterState, run: seq<Event>)
    requires cfg.Valid() && st.Valid()
    decreases |run|
  {
    run == [] || (Enabled(st, run[0]) && AllEnabled(cfg, Step(cfg, st, run[0]).0, run[1..]))
  }

  ghost function Run(cfg: Config, st: RouterState, run: seq<Event>): (r: (RouterState, seq<Cast>))
    requires cfg.Valid() && st.Valid() && AllEnabled(cfg, st, run)
    ensures r.0.Valid()
    decreases |run|
  {
    if run == [] then (st, [])
    else
      var first := Step(cfg, st, run[0]);
      var rest := Run(cfg, first.0, run[1..]);
      (rest.0, first.1 + rest.1)
  }
}
