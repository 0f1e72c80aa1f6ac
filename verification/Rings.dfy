/** The per-session circular buffer (gateway/internal/router/buffer.go). */
module Rings {
  import opened Bytes

  datatype Error = NoError | Eof | BufferFull

  /** How `Write` copies: as the code has it (one copy that stops at the end of
      the array), or as `TryRead` does it (two parts, limited to the free space). */
  datatype WriteMode = AsWritten | Wrapping

  /** The state of a ring: its memory, its two monotone counters and the flag. */
  datatype Ring = Ring(mem: seq<byte>, write: nat, read: nat, closed: bool) {

    ghost predicate Valid() {
      0 < |mem| && read <= write
    }

    /** `Available()`: the number of bytes written and not yet read. */
    function Unread(): nat
      requires read <= write
    {
      write - read
    }

    function Free(): int
      requires read <= write
    {
      |mem| - Unread()
    }

    ghost predicate Bounded() {
      Valid() && Unread() <= |mem|
    }

    /** The bytes a reader would get from here on, oldest first. */
    ghost function Contents(): seq<byte>
      requires Valid()
    {
      seq(write - read, i requires 0 <= i < write - read => mem[(read + i) % |mem|])
    }
  }

  ghost function Fresh(n: nat): Ring {
    Ring(seq(n, _ => 0), 0, 0, false)
  }

  /** `p` laid down from position `pos`, wrapping round the end of `mem` once. */
  function Wrap(mem: seq<byte>, pos: nat, p: seq<byte>): (r: seq<byte>)
    requires pos < |mem| && |p| <= |mem|
    ensures |r| == |mem|
  {
    var space := |mem| - pos;
    if |p| <= space then Overlay(mem, pos, p)
    else Overlay(Overlay(mem, pos, p[..space]), 0, p[space..])
  }

  /** The number of bytes of a `len`-byte slice an open ring stores. */
  function Accepts(r: Ring, len: nat, mode: WriteMode): (n: nat)
    requires 0 < |r.mem| && r.read <= r.write
    ensures n <= len && n <= |r.mem|
  {
    match mode
    case AsWritten => Min(len, |r.mem| - r.write % |r.mem|)
    case Wrapping => Max(0, Min(len, r.Free()))
  }

  datatype Written = Written(ring: Ring, n: nat, err: Error)

  function WriteRing(r: Ring, p: seq<byte>, mode: WriteMode): (w: Written)
    requires 0 < |r.mem| && r.read <= r.write
    ensures 0 < |w.ring.mem| && w.ring.read <= w.ring.write && w.n <= |p|
  {
    if r.closed then Written(r, 0, Eof)
    else
      var n := Accepts(r, |p|, mode);
      Written(
        r.(mem := Wrap(r.mem, r.write % |r.mem|, p[..n]), write := r.write + n),
        n, if r.Free() < |p| then BufferFull else NoError)
  }

  datatype Taken = Taken(ring: Ring, out: seq<byte>, err: Error)

  /** `TryRead` into a slice of length `len`. */
  ghost function ReadRing(r: Ring, len: nat): (t: Taken)
    requires r.Valid()
    ensures t.ring.Valid()
  {
    if r.Unread() == 0 then Taken(r, [], if r.closed then Eof else NoError)
    else
      var n := Min(len, r.Unread());
      Taken(r.(read := r.read + n), r.Contents()[..n], NoError)
  }

  /** Whether a read of `len` bytes passes the end of the array twice. */
  predicate ReadLeavesArray(r: Ring, len: nat)
    requires 0 < |r.mem| && r.read <= r.write
  {
    Min(len, r.Unread()) > 2 * |r.mem| - r.read % |r.mem|
  }

  // ---------------------------------------------------------------- one call

  /** A read takes as many bytes as are asked for and there, the oldest first, each
      from the cell its position in the stream says; the end of the stream is told
      only by an empty ring that has been closed. */
  lemma ReadTakesOldest(r: Ring, len: nat)
    requires r.Valid()
    ensures var t := ReadRing(r, len);
            && |t.out| == (if len <= r.write - r.read then len else r.write - r.read)
            && (forall i | 0 <= i < |t.out| :: t.out[i] == r.mem[(r.read + i) % |r.mem|])
            && t.ring == r.(read := r.read + |t.out|)
            && t.err == if r.closed && r.read == r.write then Eof else NoError
  {
    var out := ReadRing(r, len).out;
    forall i | 0 <= i < |out| ensures out[i] == r.mem[(r.read + i) % |r.mem|] {
      CellOf(r, i);
    }
  }

  lemma OverlayCell(mem: seq<byte>, pos: nat, p: seq<byte>, x: nat)
    requires pos + |p| <= |mem| && x < |mem|
    ensures Overlay(mem, pos, p)[x] == if pos <= x < pos + |p| then p[x - pos] else mem[x]
  {
  }

  lemma WrapTwice(mem: seq<byte>, pos: nat, head: seq<byte>, tail: seq<byte>, x: nat)
    requires pos + |head| == |mem| && |tail| <= pos && x < |mem|
    ensures Overlay(Overlay(mem, pos, head), 0, tail)[x] ==
            if x < |tail| then tail[x] else if pos <= x then head[x - pos] else mem[x]
  {
    OverlayCell(mem, pos, head, x);
    OverlayCell(Overlay(mem, pos, head), 0, tail, x);
  }

  /** Which cell of a wrapped copy holds which byte. */
  lemma WrapCell(mem: seq<byte>, pos: nat, p: seq<byte>, x: nat)
    requires pos < |mem| && |p| <= |mem| && x < |mem|
    ensures Wrap(mem, pos, p)[x] ==
            if pos <= x < pos + |p| then p[x - pos]
            else if x + |mem| < pos + |p| then p[x + |mem| - pos]
            else mem[x]
  {
    var space := |mem| - pos;
    if |p| <= space {
      OverlayCell(mem, pos, p, x);
    } else {
      WrapTwice(mem, pos, p[..space], p[space..], x);
    }
  }

  /** The same, for the cell `k` after the start, or before it. */
  lemma WrapFrom(mem: seq<byte>, pos: nat, p: seq<byte>, x: nat, k: int)
    requires pos < |mem| && |p| <= |mem| && x < |mem|
    requires x == pos + k || x == pos + k - |mem| || x == pos + k + |mem|
    requires |p| - |mem| <= k < |p|
    ensures Wrap(mem, pos, p)[x] == if k < 0 then mem[x] else p[k]
  {
    WrapCell(mem, pos, p, x);
  }

  /** The same by counter: position `j` of the last lap keeps its byte when it is
      before `w`, and holds the byte written there otherwise. */
  lemma WrapAt(mem: seq<byte>, w: nat, p: seq<byte>, j: nat)
    requires 0 < |mem| && |p| <= |mem|
    requires w + |p| <= j + |mem| && j < w + |p|
    ensures Wrap(mem, w % |mem|, p)[j % |mem|] == if j < w then mem[j % |mem|] else p[j - w]
  {
    var n := |mem|;
    if j < w {
      ModStep(j, w - j, n);
    } else {
      ModStep(w, j - w, n);
    }
    WrapFrom(mem, w % n, p, j % n, j - w);
  }

  lemma WrittenAt(r: Ring, p: seq<byte>, mode: WriteMode, i: nat)
    requires r.Bounded() && !r.closed && Accepts(r, |p|, mode) <= r.Free()
    requires i < r.Unread() + Accepts(r, |p|, mode)
    ensures WriteRing(r, p, mode).ring.Contents()[i] ==
            if i < r.Unread() then r.Contents()[i] else p[i - r.Unread()]
  {
    var w := WriteRing(r, p, mode);
    WrapAt(r.mem, r.write, p[..w.n], r.read + i);
    CellOf(w.ring, i);
    if i < r.Unread() {
      CellOf(r, i);
    }
  }

  lemma CellOf(r: Ring, i: nat)
    requires r.Valid() && i < r.Unread()
    ensures r.Contents()[i] == r.mem[(r.read + i) % |r.mem|]
  {
  }

  /** A write that fits appends exactly its accepted prefix, in either mode. */
  lemma WriteAppends(r: Ring, p: seq<byte>, mode: WriteMode)
    requires r.Bounded() && !r.closed && Accepts(r, |p|, mode) <= r.Free()
    ensures var w := WriteRing(r, p, mode);
            w.ring.Bounded() && w.ring.Contents() == r.Contents() + p[..w.n]
  {
    var w := WriteRing(r, p, mode);
    var before, after := r.Contents(), w.ring.Contents();
    assert |after| == |before| + w.n;
    forall i | 0 <= i < |after| ensures after[i] == (before + p[..w.n])[i] {
      WrittenAt(r, p, mode, i);
    }
  }

  /** A write that does not fit breaks the bound and replaces the oldest unread
      byte by byte number `Free` of the slice. */
  lemma OverrunReplacesOldest(r: Ring, p: seq<byte>, mode: WriteMode)
    requires r.Bounded() && !r.closed && Accepts(r, |p|, mode) > r.Free()
    ensures var w := WriteRing(r, p, mode);
            && mode == AsWritten
            && r.Unread() > 0
            && !w.ring.Bounded()
            && w.ring.Contents()[0] == p[r.Free()]
  {
    var w := WriteRing(r, p, mode);
    if r.Unread() == 0 {
      assert false;
    }
    WrapAt(r.mem, r.write, p[..w.n], r.write + r.Free());
    ModStep(r.read, |r.mem|, |r.mem|);
  }

  /** Whether a write of `len` bytes stays inside the free space. */
  predicate Fits(r: Ring, len: nat, mode: WriteMode)
    requires 0 < |r.mem| && r.read <= r.write
  {
    r.closed || Accepts(r, len, mode) <= r.Free()
  }

  /** The exact condition for `Write`: it keeps the bound and every unread byte,
      and appends its accepted prefix, precisely when the stored count fits. */
  lemma WriteKeepsIffFits(r: Ring, p: seq<byte>, mode: WriteMode)
    requires r.Bounded()
    ensures var w := WriteRing(r, p, mode);
            Fits(r, |p|, mode) <==>
            w.ring.Bounded() && w.ring.Contents() == r.Contents() + p[..w.n]
  {
    if r.closed {
      assert r.Contents() + p[..0] == r.Contents();
    } else if Fits(r, |p|, mode) {
      WriteAppends(r, p, mode);
    } else {
      OverrunReplacesOldest(r, p, mode);
    }
  }

  lemma OverrunShows(r: Ring, p: seq<byte>)
    requires r.Bounded() && !Fits(r, |p|, AsWritten)
    requires forall i | 0 <= i < |p| :: p[i] != r.mem[r.read % |r.mem|]
    ensures WriteRing(r, p, AsWritten).ring.Contents()[..r.Unread()] != r.Contents()
  {
    OverrunReplacesOldest(r, p, AsWritten);
    var after, n := WriteRing(r, p, AsWritten).ring.Contents(), |r.mem|;
    assert r.Contents()[0] == r.mem[(r.read + 0) % n];
    assert after[..r.Unread()][0] == after[0];
  }

  /** Where the condition fails, some slice of the same length loses data. */
  lemma OverrunLosesData(r: Ring, len: nat)
    requires r.Bounded() && !Fits(r, len, AsWritten)
    ensures exists p: seq<byte> ::
              |p| == len && WriteRing(r, p, AsWritten).ring.Contents()[..r.Unread()] != r.Contents()
  {
    var other: byte := if r.mem[r.read % |r.mem|] == 0 then 1 else 0;
    OverrunShows(r, seq(len, _ => other));
  }

  /** The failing states are reachable for every buffer size: fill a new ring
      in one write, then write one more byte. */
  lemma OverrunIsReachable(p: seq<byte>, x: byte)
    requires 0 < |p|
    ensures var full := WriteRing(Fresh(|p|), p, AsWritten);
            var over := WriteRing(full.ring, [x], AsWritten);
            && full.n == |p| && full.err == NoError && full.ring.Bounded()
            && full.ring.Contents() == p
            && over.n == 1 && over.err == BufferFull
            && over.ring.Unread() == |p| + 1
            && over.ring.Contents()[0] == x
  {
    var r := Fresh(|p|);
    assert 0 % |p| == 0 by { DivModUnique(0, |p|, 0, 0); }
    assert |p| % |p| == 0 by { DivModUnique(|p|, |p|, 1, 0); }
    WriteAppends(r, p, AsWritten);
    OverrunReplacesOldest(WriteRing(r, p, AsWritten).ring, [x], AsWritten);
  }

  /** A short count with a nil error is returned exactly when the slice fits the
      free space but reaches past the end of the array; never by a wrapping write. */
  lemma ShortCountWithoutError(r: Ring, p: seq<byte>, mode: WriteMode)
    requires r.Bounded() && !r.closed
    ensures var w := WriteRing(r, p, mode);
            w.err == NoError && w.n < |p| <==>
            mode == AsWritten && |r.mem| - r.write % |r.mem| < |p| <= r.Free()
  {
  }

  // -------------------------------------------------------------------- runs

  datatype Op = Put(p: seq<byte>) | Get(len: nat) | Close

  datatype Reply = Wrote(n: nat, err: Error) | Got(out: seq<byte>, readErr: Error) | Closed

  ghost function StepRing(r: Ring, op: Op, mode: WriteMode): (s: (Ring, Reply))
    requires r.Valid()
    ensures s.0.Valid()
  {
    match op
    case Put(p) => var w := WriteRing(r, p, mode); (w.ring, Wrote(w.n, w.err))
    case Get(len) => var t := ReadRing(r, len); (t.ring, Got(t.out, t.err))
    case Close => (r.(closed := true), Closed)
  }

  ghost function RunRing(r: Ring, ops: seq<Op>, mode: WriteMode): (s: (Ring, seq<Reply>))
    requires r.Valid()
    ensures s.0.Valid() && |s.1| == |ops|
    decreases |ops|
  {
    if ops == [] then (r, [])
    else
      var first := StepRing(r, ops[0], mode);
      var rest := RunRing(first.0, ops[1..], mode);
      (rest.0, [first.1] + rest.1)
  }

  /** The reference: a bounded first-in-first-out queue of bytes. */
  datatype Queue = Queue(items: seq<byte>, capacity: nat, closed: bool)

  function StepQueue(q: Queue, op: Op): (s: (Queue, Reply)) {
    match op
    case Put(p) =>
      if q.closed then (q, Wrote(0, Eof))
      else
        var n := Max(0, Min(|p|, q.capacity - |q.items|));
        (q.(items := q.items + p[..n]), Wrote(n, if n < |p| then BufferFull else NoError))
    case Get(len) =>
      if q.items == [] then (q, Got([], if q.closed then Eof else NoError))
      else
        var n := Min(len, |q.items|);
        (q.(items := q.items[n..]), Got(q.items[..n], NoError))
    case Close => (q.(closed := true), Closed)
  }

  function RunQueue(q: Queue, ops: seq<Op>): (s: (Queue, seq<Reply>))
    decreases |ops|
  {
    if ops == [] then (q, [])
    else
      var first := StepQueue(q, ops[0]);
      var rest := RunQueue(first.0, ops[1..]);
      (rest.0, [first.1] + rest.1)
  }

  ghost function AsQueue(r: Ring): Queue
    requires r.Valid()
  {
    Queue(r.Contents(), |r.mem|, r.closed)
  }

  lemma ReadTakesFront(r: Ring, len: nat)
    requires r.Valid()
    ensures var t := ReadRing(r, len);
            && |t.out| == Min(len, r.Unread())
            && r.Contents() == t.out + t.ring.Contents()
  {
    var t := ReadRing(r, len);
    assert |t.out| == Min(len, r.Unread());
    forall i | 0 <= i < |t.ring.Contents()|
      ensures t.ring.Contents()[i] == r.Contents()[|t.out| + i]
    {
      assert t.ring.read + i == r.read + (|t.out| + i);
    }
  }

  lemma PutRefines(r: Ring, p: seq<byte>)
    requires r.Bounded()
    ensures var w := WriteRing(r, p, Wrapping);
            w.ring.Bounded() && (AsQueue(w.ring), Wrote(w.n, w.err)) == StepQueue(AsQueue(r), Put(p))
  {
    if !r.closed {
      WriteAppends(r, p, Wrapping);
    }
  }

  lemma GetRefines(r: Ring, len: nat)
    requires r.Bounded()
    ensures var t := ReadRing(r, len);
            t.ring.Bounded() && (AsQueue(t.ring), Got(t.out, t.err)) == StepQueue(AsQueue(r), Get(len))
  {
    ReadTakesFront(r, len);
    var t := ReadRing(r, len);
    assert t.ring.Contents() == r.Contents()[|t.out|..] && t.out == r.Contents()[..|t.out|];
  }

  lemma StepRefines(r: Ring, op: Op)
    requires r.Bounded()
    ensures var s := StepRing(r, op, Wrapping);
            s.0.Bounded() && (AsQueue(s.0), s.1) == StepQueue(AsQueue(r), op)
  {
    match op
    case Put(p) => PutRefines(r, p);
    case Get(len) => GetRefines(r, len);
    case Close => assert r.(closed := true).Contents() == r.Contents();
  }

  /** Refinement: over every run the wrapping ring gives the replies of the
      bounded queue, keeps the bound, and holds what the queue holds. */
  lemma {:induction false} RingRefinesQueue(r: Ring, ops: seq<Op>)
    requires r.Bounded()
    ensures var s := RunRing(r, ops, Wrapping);
            s.0.Bounded() && (AsQueue(s.0), s.1) == RunQueue(AsQueue(r), ops)
    decreases |ops|
  {
    if ops != [] {
      StepRefines(r, ops[0]);
      RingRefinesQueue(StepRing(r, ops[0], Wrapping).0, ops[1..]);
    }
  }

  /** Every write of the run stays inside the free space it finds. */
  ghost predicate AllFit(r: Ring, ops: seq<Op>, mode: WriteMode)
    requires r.Valid()
    decreases |ops|
  {
    ops == [] ||
    ((ops[0].Put? ==> Fits(r, |ops[0].p|, mode)) &&
     AllFit(StepRing(r, ops[0], mode).0, ops[1..], mode))
  }

  /** The bound holds before, between and after the operations of the run. */
  ghost predicate BoundedThroughout(r: Ring, ops: seq<Op>, mode: WriteMode)
    requires r.Valid()
    decreases |ops|
  {
    r.Bounded() && (ops == [] || BoundedThroughout(StepRing(r, ops[0], mode).0, ops[1..], mode))
  }

  /** The bytes the writes of a run were told were accepted, in order. */
  ghost function AcceptedBytes(r: Ring, ops: seq<Op>, mode: WriteMode): seq<byte>
    requires r.Valid()
    decreases |ops|
  {
    if ops == [] then []
    else
      var s := StepRing(r, ops[0], mode);
      (if ops[0].Put? then ops[0].p[..s.1.n] else []) + AcceptedBytes(s.0, ops[1..], mode)
  }

  /** The bytes the reads of a run returned, in order. */
  function ReadBytes(replies: seq<Reply>): seq<byte> {
    if replies == [] then []
    else (if replies[0].Got? then replies[0].out else []) + ReadBytes(replies[1..])
  }

  lemma StepConserves(r: Ring, op: Op, mode: WriteMode)
    requires r.Bounded() && (op.Put? ==> Fits(r, |op.p|, mode))
    ensures var s := StepRing(r, op, mode);
            && s.0.Bounded()
            && r.Contents() + (if op.Put? then op.p[..s.1.n] else []) ==
               (if s.1.Got? then s.1.out else []) + s.0.Contents()
  {
    match op
    case Put(p) => WriteKeepsIffFits(r, p, mode);
    case Get(len) => ReadTakesFront(r, len);
    case Close => assert r.(closed := true).Contents() == r.Contents();
  }

  /** Both modes, every run: the bound holds throughout exactly when every write
      fits. */
  lemma {:induction false} BoundedIffAllFit(r: Ring, ops: seq<Op>, mode: WriteMode)
    requires r.Bounded()
    ensures AllFit(r, ops, mode) <==> BoundedThroughout(r, ops, mode)
    decreases |ops|
  {
    if ops != [] {
      var s := StepRing(r, ops[0], mode);
      if ops[0].Put? && !Fits(r, |ops[0].p|, mode) {
        OverrunReplacesOldest(r, ops[0].p, mode);
        assert !BoundedThroughout(s.0, ops[1..], mode);
      } else {
        StepConserves(r, ops[0], mode);
        BoundedIffAllFit(s.0, ops[1..], mode);
      }
    }
  }

  lemma RunUnfolds(r: Ring, ops: seq<Op>, mode: WriteMode)
    requires r.Valid() && ops != []
    ensures var (next, reply) := StepRing(r, ops[0], mode);
            && RunRing(r, ops, mode).0 == RunRing(next, ops[1..], mode).0
            && ReadBytes(RunRing(r, ops, mode).1) ==
               (if reply.Got? then reply.out else []) + ReadBytes(RunRing(next, ops[1..], mode).1)
  {
    var (next, reply) := StepRing(r, ops[0], mode);
    var replies := RunRing(next, ops[1..], mode).1;
    assert RunRing(r, ops, mode).1 == [reply] + replies;
    assert ([reply] + replies)[1..] == replies;
  }

  /** Both modes, every run whose writes fit: nothing is lost, invented or
      reordered. */
  lemma {:induction false} RunConserves(r: Ring, ops: seq<Op>, mode: WriteMode)
    requires r.Bounded() && AllFit(r, ops, mode)
    ensures var s := RunRing(r, ops, mode);
            r.Contents() + AcceptedBytes(r, ops, mode) == ReadBytes(s.1) + s.0.Contents()
    decreases |ops|
  {
    if ops != [] {
      var (next, reply) := StepRing(r, ops[0], mode);
      StepConserves(r, ops[0], mode);
      RunConserves(next, ops[1..], mode);
      RunUnfolds(r, ops, mode);
      var (end, replies) := RunRing(next, ops[1..], mode);
      Splice(r.Contents(), if ops[0].Put? then ops[0].p[..reply.n] else [],
             if reply.Got? then reply.out else [], next.Contents(),
             AcceptedBytes(next, ops[1..], mode), ReadBytes(replies), end.Contents());
    }
  }

  /** A wrapping write always fits, so its runs are always conserved. */
  lemma {:induction false} WrappingAllFit(r: Ring, ops: seq<Op>)
    requires r.Bounded()
    ensures AllFit(r, ops, Wrapping)
    decreases |ops|
  {
    if ops != [] {
      StepConserves(r, ops[0], Wrapping);
      WrappingAllFit(StepRing(r, ops[0], Wrapping).0, ops[1..]);
    }
  }

  // -------------------------------------------------------------- the object

  /** Buffer size and watermarks; `SOURCE_MARKS` holds the compiled-in ones. */
  datatype Marks = Marks(size: nat, high: nat, low: nat) {
    predicate Valid() {
      low < high <= size
    }
  }

  const BUFFER_SIZE: nat := 1024 * 1024
  const SOURCE_MARKS := Marks(BUFFER_SIZE, BUFFER_SIZE * 85 / 100, BUFFER_SIZE * 50 / 100)

  lemma OverlaidAt(was: seq<byte>, now: seq<byte>, pos: nat, src: seq<byte>)
    requires pos + |src| <= |was| && now == Overlay(was, pos, src[..|src|])
    ensures |now| == |was|
    ensures forall j | pos <= j < pos + |src| :: now[j] == src[j - pos]
    ensures forall i | 0 <= i < |now| && (i < pos || pos + |src| <= i) :: now[i] == was[i]
  {
    assert src[..|src|] == src;
  }

  lemma ContentsAt(r: Ring, i: nat)
    requires r.Valid() && i < r.Unread() && r.read % |r.mem| + i < 2 * |r.mem|
    ensures var at := r.read % |r.mem| + i;
            r.Contents()[i] == r.mem[if at < |r.mem| then at else at - |r.mem|]
  {
    var n := |r.mem|;
    ModStep(r.read, i, n);
    assert r.Contents()[i] == r.mem[(r.read + i) % n];
  }

  /** Read in two parts from the read position, the bytes are the oldest unread. */
  lemma OldestCopied(r: Ring, out: seq<byte>)
    requires r.Valid() && |out| <= r.Unread() && |out| <= 2 * |r.mem| - r.read % |r.mem|
    requires forall i | 0 <= i < |out| ::
               var at := r.read % |r.mem| + i;
               out[i] == r.mem[if at < |r.mem| then at else at - |r.mem|]
    ensures out == r.Contents()[..|out|]
  {
    forall i | 0 <= i < |out| ensures out[i] == r.Contents()[i] {
      ContentsAt(r, i);
    }
  }

  class RingBuffer {
    const data: array<byte>
    var write: nat
    var read: nat
    var closed: bool

    ghost predicate Valid()
      reads this
    {
      0 < data.Length && read <= write
    }

    ghost function View(): Ring
      reads this, data
    {
      Ring(data[..], write, read, closed)
    }

    constructor (size: nat)
      requires 0 < size
      ensures Valid() && fresh(data)
      ensures View() == Fresh(size)
    {
      data := new byte[size](_ => 0);
      write, read, closed := 0, 0, false;
    }

    /** `Write`: one copy from the write position, which stops at the end of the
        array and is not limited to the free space: as much of the slice as there is
        room for before the end, and not a byte less. */
    method Write(p: seq<byte>) returns (n: nat, err: Error)
      requires Valid()
      modifies this`write, data
      ensures Valid()
      ensures closed ==> n == 0 && err == Eof && View() == old(View())
      ensures !closed ==>
                var pos := old(write) % data.Length;
                && n <= |p| && pos + n <= data.Length && (n == |p| || pos + n == data.Length)
                && data[..] == old(data[..])[..pos] + p[..n] + old(data[..])[pos + n..]
                && write == old(write) + n
                && err == if data.Length - (old(write) - read) < |p| then BufferFull else NoError
      ensures WriteRing(old(View()), p, AsWritten) == Written(View(), n, err)
    {
      if closed {
        return 0, Eof;
      }
      var available: int := data.Length - (write - read);
      if available < |p| {
        n := CopyInto(data, write % data.Length, p);
        write := write + n;
        return n, BufferFull;
      }
      n := CopyInto(data, write % data.Length, p);
      write := write + n;
      return n, NoError;
    }

    /** The two-part copy into the array. */
    method CopyIn(pos: nat, p: seq<byte>)
      requires pos < data.Length && |p| <= data.Length
      modifies data
      ensures data[..] == Wrap(old(data[..]), pos, p)
    {
      var spaceBeforeWrap := data.Length - pos;
      if |p| <= spaceBeforeWrap {
        var _ := CopyInto(data, pos, p);
        assert p[..|p|] == p;
      } else {
        var head, tail := p[..spaceBeforeWrap], p[spaceBeforeWrap..];
        var _ := CopyInto(data, pos, head);
        assert head[..|head|] == head;
        assert data[..] == Overlay(old(data[..]), pos, head);
        var _ := CopyInto(data, 0, tail);
        assert tail[..|tail|] == tail;
      }
    }

    /** The two-part copy out of the array, into `p[..n]`; the program panics
        between the parts when the second one would leave the array. */
    method CopyOut(p: array<byte>, pos: nat, n: nat) returns (panicked: bool)
      requires pos < data.Length && n <= p.Length && p != data
      modifies p
      ensures panicked <==> n > 2 * data.Length - pos
      ensures var k := if panicked then data.Length - pos else n;
              && (forall i | 0 <= i < k ::
                    p[i] == data[if pos + i < data.Length then pos + i else pos + i - data.Length])
              && p[k..] == old(p[k..])
    {
      var spaceBeforeWrap := data.Length - pos;
      if n <= spaceBeforeWrap {
        CopyFrom(p, 0, pos, pos + n);
        return false;
      }
      CopyFrom(p, 0, pos, pos + spaceBeforeWrap);
      if n - spaceBeforeWrap > data.Length {
        return true;
      }
      CopyFrom(p, spaceBeforeWrap, 0, n - spaceBeforeWrap);
      panicked := false;
    }

    /** `copy(p[at:], rb.data[lo:hi])`. */
    method CopyFrom(p: array<byte>, at: nat, lo: nat, hi: nat)
      requires lo <= hi <= data.Length && at + (hi - lo) <= p.Length && p != data
      modifies p
      ensures forall i | at <= i < at + (hi - lo) :: p[i] == data[lo + i - at]
      ensures forall i | 0 <= i < p.Length && (i < at || at + (hi - lo) <= i) :: p[i] == old(p[i])
    {
      ghost var was := p[..];
      var src := data[lo..hi];
      var _ := CopyInto(p, at, src);
      OverlaidAt(was, p[..], at, src);
      assert forall i | 0 <= i < p.Length :: p[i] == p[..][i] && was[i] == old(p[i]);
    }

    /** The write the design needs: limited to the free space, and in two parts
        when it passes the end of the array. */
    method WriteWrapping(p: seq<byte>) returns (n: nat, err: Error)
      requires Valid()
      modifies this`write, data
      ensures Valid() && (old(View().Bounded()) ==> View().Bounded())
      ensures WriteRing(old(View()), p, Wrapping) == Written(View(), n, err)
    {
      if closed {
        return 0, Eof;
      }
      var available: int := data.Length - (write - read);
      n := Max(0, Min(available, |p|));
      assert n == Accepts(View(), |p|, Wrapping);
      var writePos := write % data.Length;
      CopyIn(writePos, p[..n]);
      write := write + n;
      err := if available < |p| then BufferFull else NoError;
    }

    /** The copy of the oldest `n` unread bytes. */
    method CopyOldest(p: array<byte>, n: nat) returns (panicked: bool)
      requires Valid() && p != data && n <= p.Length && n <= write - read
      modifies p
      ensures panicked <==> ReadLeavesArray(View(), n)
      ensures var k := if panicked then data.Length - read % data.Length else n;
              p[..k] == View().Contents()[..k] && p[k..] == old(p[k..])
    {
      panicked := CopyOut(p, read % data.Length, n);
      OldestCopied(View(), p[..if panicked then data.Length - read % data.Length else n]);
    }

    /** `TryRead(p[:len])`. It panics exactly when its second copy would leave the
        array; nothing is taken then, though the first part has been copied. */
    method TryRead(p: array<byte>, len: nat) returns (n: nat, err: Error, panicked: bool)
      requires Valid() && p != data && len <= p.Length
      modifies this`read, p
      ensures Valid()
      ensures panicked <==> ReadLeavesArray(old(View()), len)
      ensures n <= len && p[n..] == old(p[n..])
      ensures !panicked ==> ReadRing(old(View()), len) == Taken(View(), p[..n], err)
      ensures panicked ==> View() == old(View()) && n == data.Length - read % data.Length <= write - read
      ensures panicked ==> p[..n] == View().Contents()[..n]
    {
      if read >= write {
        return 0, if closed then Eof else NoError, false;
      }
      var available := write - read;
      n := len;
      if n > available {
        n := available;
      }
      panicked := CopyOldest(p, n);
      err := NoError;
      if panicked {
        n := data.Length - read % data.Length;
      } else {
        read := read + n;
      }
    }

    function Available(): nat
      requires read <= write
      reads this
    {
      write - read
    }

    predicate IsHigh(marks: Marks)
      requires read <= write
      reads this
    {
      Available() >= marks.high
    }

    predicate IsLow(marks: Marks)
      requires read <= write
      reads this
    {
      Available() <= marks.low
    }

    method Close()
      requires Valid()
      modifies this`closed
      ensures Valid() && View() == old(View()).(closed := true)
    {
      closed := true;
    }
  }
}
