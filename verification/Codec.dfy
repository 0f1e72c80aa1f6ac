/** The wire format of the gateway: a binary printer and its parser
    (gateway/pkg/codec/frame.go). */
module Codec {
  import opened Bytes

  const TERMINAL_OUTPUT: byte := 0x02
  const SLOW_WARNING: byte := 0x06
  const CONFIRM: byte := 0x08

  datatype SessionBlock = SessionBlock(sessionId: uint32, length: uint16, data: seq<byte>)

  datatype Frame = Frame(kind: byte, sessionCount: byte, sessions: seq<SessionBlock>)

  // -------------------------------------------------- big-endian integers

  function Be16(x: uint16): (s: seq<byte>)
    ensures |s| == 2
  {
    [x / 0x100, x % 0x100]
  }

  function Be32(x: uint32): (s: seq<byte>)
    ensures |s| == 4
  {
    Be16(x / 0x1_0000) + Be16(x % 0x1_0000)
  }

  /** `binary.BigEndian.Uint16(d[at:])`. */
  function Read16(d: seq<byte>, at: nat): uint16
    requires at + 2 <= |d|
  {
    d[at] as int * 0x100 + d[at + 1]
  }

  /** `binary.BigEndian.Uint32(d[at:])`. */
  function Read32(d: seq<byte>, at: nat): uint32
    requires at + 4 <= |d|
  {
    Read16(d, at) as int * 0x1_0000 + Read16(d, at + 2)
  }

  lemma ReadInvertsBe(d: seq<byte>, at: nat, id: uint32, length: uint16)
    requires at + 6 <= |d| && d[at..at + 6] == Be32(id) + Be16(length)
    ensures Read32(d, at) == id && Read16(d, at + 4) == length
  {
    var h := d[at..at + 6];
    assert forall i | 0 <= i < 6 :: d[at + i] == h[i];
    assert d[at + 0] == h[0] && d[at + 1] == h[1] && d[at + 2] == h[2];
    assert d[at + 3] == h[3] && d[at + 4] == h[4] && d[at + 5] == h[5];
  }

  lemma Be16InvertsRead(d: seq<byte>, at: nat)
    requires at + 2 <= |d|
    ensures Be16(Read16(d, at)) == [d[at], d[at + 1]]
  {
  }

  lemma SixBytes(d: seq<byte>, at: nat)
    requires at + 6 <= |d|
    ensures d[at..at + 6] == ([d[at], d[at + 1]] + [d[at + 2], d[at + 3]]) + [d[at + 4], d[at + 5]]
  {
  }

  lemma Be32InvertsRead(d: seq<byte>, at: nat)
    requires at + 4 <= |d|
    ensures Be32(Read32(d, at)) == [d[at], d[at + 1]] + [d[at + 2], d[at + 3]]
  {
    Be16InvertsRead(d, at);
    Be16InvertsRead(d, at + 2);
    DivModUnique(Read32(d, at), 0x1_0000, Read16(d, at), Read16(d, at + 2));
  }

  lemma BeInvertsRead(d: seq<byte>, at: nat)
    requires at + 6 <= |d|
    ensures d[at..at + 6] == Be32(Read32(d, at)) + Be16(Read16(d, at + 4))
  {
    Be32InvertsRead(d, at);
    Be16InvertsRead(d, at + 4);
    SixBytes(d, at);
  }

  // ------------------------------------------------------------ the printer

  /** What a block looks like on the wire when its length field is right. */
  function EncodeBlock(b: SessionBlock): seq<byte> {
    Be32(b.sessionId) + Be16(b.length) + b.data
  }

  function EncodeBlocks(bs: seq<SessionBlock>): seq<byte> {
    if bs == [] then [] else EncodeBlock(bs[0]) + EncodeBlocks(bs[1..])
  }

  function Encode(f: Frame): seq<byte> {
    [f.kind, f.sessionCount] + EncodeBlocks(f.sessions)
  }

  predicate LengthsMatch(bs: seq<SessionBlock>) {
    forall b | b in bs :: b.length == |b.data|
  }

  predicate WellFormed(f: Frame) {
    f.sessionCount == |f.sessions| && LengthsMatch(f.sessions)
  }

  function TotalLength(bs: seq<SessionBlock>): nat {
    if bs == [] then 0 else 4 + 2 + |bs[0].data| + TotalLength(bs[1..])
  }

  /** One turn of the printing loop at `offset`: two integers, then the data, cut
      at the end of the buffer. */
  function PlaceOne(buf: seq<byte>, offset: nat, b: SessionBlock): (r: seq<byte>)
    requires offset + 6 <= |buf|
    ensures |r| == |buf|
  {
    var head := Overlay(buf, offset, Be32(b.sessionId) + Be16(b.length));
    Overlay(head, offset + 6, b.data[..Min(|buf| - (offset + 6), |b.data|)])
  }

  /** The printing loop from `offset` on. It steps by the length field, not by the
      size of the data; `None` is the slice-bounds panic. */
  function PlaceBlocks(buf: seq<byte>, offset: nat, bs: seq<SessionBlock>): (r: Option<seq<byte>>)
    ensures r.Some? ==> |r.value| == |buf|
    decreases |bs|
  {
    if bs == [] then Some(buf)
    else if offset + 6 > |buf| then None
    else PlaceBlocks(PlaceOne(buf, offset, bs[0]), offset + 6 + bs[0].length, bs[1..])
  }

  /** `Serialize` on every frame, well-formed or not. */
  function Serialized(f: Frame): Option<seq<byte>> {
    var size := 2 + TotalLength(f.sessions);
    PlaceBlocks([f.kind, f.sessionCount] + seq(size - 2, _ => 0), 2, f.sessions)
  }

  method Serialize(f: Frame) returns (r: Option<array<byte>>)
    ensures r.None? ==> Serialized(f) == None
    ensures r.Some? ==> fresh(r.value) && Serialized(f) == Some(r.value[..])
  {
    var totalLen := 2;
    for i := 0 to |f.sessions|
      invariant totalLen + TotalLength(f.sessions[i..]) == 2 + TotalLength(f.sessions)
      invariant totalLen >= 2
    {
      assert f.sessions[i..][1..] == f.sessions[i + 1..];
      totalLen := totalLen + 4 + 2 + |f.sessions[i].data|;
    }
    var buf := new byte[totalLen](_ => 0);
    buf[0] := f.kind;
    buf[1] := f.sessionCount;
    assert buf[..] == [f.kind, f.sessionCount] + seq(totalLen - 2, _ => 0);
    var offset: nat := 2;
    assert f.sessions[0..] == f.sessions;
    for i := 0 to |f.sessions|
      invariant Serialized(f) == PlaceBlocks(buf[..], offset, f.sessions[i..])
    {
      var s := f.sessions[i];
      assert f.sessions[i..][1..] == f.sessions[i + 1..];
      if offset + 6 > buf.Length {
        return None;
      }
      offset := PutBlock(buf, offset, s);
    }
    r := Some(buf);
  }

  /** One turn of the printing loop. */
  method PutBlock(buf: array<byte>, offset: nat, s: SessionBlock) returns (next: nat)
    requires offset + 6 <= buf.Length
    modifies buf
    ensures next == offset + 6 + s.length
    ensures buf[..] == PlaceOne(old(buf[..]), offset, s)
  {
    var header := Be32(s.sessionId) + Be16(s.length);
    var h := CopyInto(buf, offset, header);
    assert header[..h] == header;
    var _ := CopyInto(buf, offset + 6, s.data);
    next := offset + 6 + s.length;
  }

  // ------------------------------------------------------------- the parser

  /** One turn of the parsing loop: the block at `offset` and where the next one
      starts, or `None` when the input ends inside it. */
  function DecodeOne(d: seq<byte>, offset: nat): (r: Option<(SessionBlock, nat)>)
    ensures r.Some? ==> r.value.1 <= |d|
  {
    if offset + 6 > |d| then None
    else
      var length := Read16(d, offset + 4);
      var start := offset + 6;
      if start + length > |d| then None
      else Some((SessionBlock(Read32(d, offset), length, d[start..start + length]), start + length))
  }

  /** The blocks read so far in front of the blocks still to be read. */
  function After(done: seq<SessionBlock>, more: Option<seq<SessionBlock>>): Option<seq<SessionBlock>> {
    match more
    case None => None
    case Some(rest) => Some(done + rest)
  }

  function DecodeBlocks(d: seq<byte>, offset: nat, count: nat): Option<seq<SessionBlock>>
    decreases count
  {
    if count == 0 then Some([])
    else
      match DecodeOne(d, offset)
      case None => None
      case Some((b, next)) => After([b], DecodeBlocks(d, next, count - 1))
  }

  function Decode(d: seq<byte>): Option<Frame> {
    if |d| < 2 then None
    else
      match DecodeBlocks(d, 2, d[1])
      case None => None
      case Some(sessions) => Some(Frame(d[0], d[1], sessions))
  }

  lemma AfterNothing(more: Option<seq<SessionBlock>>)
    ensures After([], more) == more
  {
    if more.Some? {
      EmptyEnds(more.value);
    }
  }

  lemma AfterAppend(done: seq<SessionBlock>, b: SessionBlock, more: Option<seq<SessionBlock>>)
    ensures After(done + [b], more) == After(done, After([b], more))
  {
    if more.Some? {
      assert (done + [b]) + more.value == done + ([b] + more.value);
    }
  }

  lemma DecodeNext(d: seq<byte>, done: seq<SessionBlock>, offset: nat, b: SessionBlock, next: nat, count: nat)
    requires count > 0 && DecodeOne(d, offset) == Some((b, next))
    ensures After(done + [b], DecodeBlocks(d, next, count - 1)) == After(done, DecodeBlocks(d, offset, count))
  {
    AfterAppend(done, b, DecodeBlocks(d, next, count - 1));
  }

  /** One turn of the parsing loop. */
  method ReadBlock(data: seq<byte>, start: nat) returns (r: Option<(SessionBlock, nat)>)
    ensures r == DecodeOne(data, start)
  {
    var offset := start;
    if offset + 6 > |data| {
      return None;
    }
    var sessionId := Read32(data, offset);
    offset := offset + 4;
    var length := Read16(data, offset);
    offset := offset + 2;
    if offset + length > |data| {
      return None;
    }
    r := Some((SessionBlock(sessionId, length, data[offset..offset + length]), offset + length));
  }

  /** `Deserialize`; `None` is `ErrBufferTooSmall`. */
  method Deserialize(data: seq<byte>) returns (r: Option<Frame>)
    ensures r == Decode(data)
  {
    if |data| < 2 {
      return None;
    }
    var frameType, sessionCount := data[0], data[1];
    var offset: nat := 2;
    var sessions: seq<SessionBlock> := [];
    AfterNothing(DecodeBlocks(data, 2, sessionCount));
    for i := 0 to sessionCount
      invariant offset >= 2
      invariant After(sessions, DecodeBlocks(data, offset, sessionCount - i)) == DecodeBlocks(data, 2, sessionCount)
    {
      var block := ReadBlock(data, offset);
      if block.None? {
        return None;
      }
      var (session, next) := block.value;
      DecodeNext(data, sessions, offset, session, next, sessionCount - i);
      sessions := sessions + [session];
      offset := next;
    }
    EmptyEnds(sessions);
    r := Some(Frame(frameType, sessionCount, sessions));
  }

  // ------------------------------------------------------- the bytes on the wire

  /** The value of some bytes, the most significant first. */
  function ByteValue(s: seq<byte>): nat {
    if s == [] then 0 else 0x100 * ByteValue(s[..|s| - 1]) + s[|s| - 1]
  }

  lemma ByteValues(a: byte, b: byte, c: byte, d: byte)
    ensures ByteValue([a, b]) == 0x100 * a as int + b
    ensures ByteValue([a, b, c, d]) == 0x100_0000 * a as int + 0x1_0000 * b as int + 0x100 * c as int + d
  {
    ByteValueSnoc([], a);
    ByteValueSnoc([a], b);
    ByteValueSnoc([a, b], c);
    ByteValueSnoc([a, b, c], d);
    assert [] + [a] == [a] && [a] + [b] == [a, b] && [a, b] + [c] == [a, b, c] && [a, b, c] + [d] == [a, b, c, d];
  }

  lemma ByteValueSnoc(s: seq<byte>, x: byte)
    ensures ByteValue(s + [x]) == 0x100 * ByteValue(s) + x
  {
    assert (s + [x])[..|s|] == s;
  }

  /** The six bytes at `at` are the id and the length of `b`, each with its most
      significant byte first, and behind them comes as much of its data as the length
      and the end of the bytes leave. */
  ghost predicate ShowsBlock(d: seq<byte>, at: nat, b: SessionBlock) {
    && at + 6 <= |d|
    && b.sessionId == ByteValue([d[at], d[at + 1], d[at + 2], d[at + 3]])
    && b.length == ByteValue([d[at + 4], d[at + 5]])
    && forall i | 0 <= i < Min(b.length, |b.data|) && at + 6 + i < |d| :: d[at + 6 + i] == b.data[i]
  }

  /** Where block `k` is printed: the length fields say how far apart blocks are. */
  function BlockOffset(offset: nat, bs: seq<SessionBlock>, k: nat): nat
    requires k < |bs|
    decreases k
  {
    if k == 0 then offset else BlockOffset(offset + 6 + bs[0].length, bs[1..], k - 1)
  }

  lemma PlacedAt(buf: seq<byte>, offset: nat, p: seq<byte>, x: nat)
    requires offset + |p| <= |buf| && x < |buf|
    ensures Overlay(buf, offset, p)[x] == if offset <= x < offset + |p| then p[x - offset] else buf[x]
  {
  }

  lemma HeaderBytes(b: SessionBlock)
    ensures var h := Be32(b.sessionId) + Be16(b.length);
            && |h| == 6
            && b.sessionId == ByteValue([h[0], h[1], h[2], h[3]])
            && b.length == ByteValue([h[4], h[5]])
  {
    var h := Be32(b.sessionId) + Be16(b.length);
    ByteValues(h[0], h[1], h[2], h[3]);
    ByteValues(h[4], h[5], 0, 0);
  }

  lemma PlacedOneShows(buf: seq<byte>, offset: nat, b: SessionBlock)
    requires offset + 6 <= |buf|
    ensures ShowsBlock(PlaceOne(buf, offset, b), offset, b)
    ensures forall x | 0 <= x < offset :: PlaceOne(buf, offset, b)[x] == buf[x]
  {
    var h := Be32(b.sessionId) + Be16(b.length);
    var head := Overlay(buf, offset, h);
    var data := b.data[..Min(|buf| - (offset + 6), |b.data|)];
    HeaderBytes(b);
    forall x | 0 <= x < |buf|
      ensures PlaceOne(buf, offset, b)[x] ==
              if offset + 6 <= x < offset + 6 + |data| then data[x - (offset + 6)]
              else if offset <= x < offset + 6 then h[x - offset] else buf[x]
    {
      PlacedAt(buf, offset, h, x);
      PlacedAt(head, offset + 6, data, x);
    }
  }

  lemma StillShows(d: seq<byte>, d': seq<byte>, at: nat, b: SessionBlock)
    requires ShowsBlock(d, at, b) && |d| == |d'|
    requires forall x | 0 <= x < at + 6 + b.length && x < |d| :: d'[x] == d[x]
    ensures ShowsBlock(d', at, b)
  {
  }

  lemma {:induction false} PlacedShow(buf: seq<byte>, offset: nat, bs: seq<SessionBlock>)
    ensures PlaceBlocks(buf, offset, bs).None? <==>
            exists k | 0 <= k < |bs| :: BlockOffset(offset, bs, k) + 6 > |buf|
    ensures PlaceBlocks(buf, offset, bs).Some? ==>
              var d := PlaceBlocks(buf, offset, bs).value;
              && (forall x | 0 <= x < offset && x < |buf| :: d[x] == buf[x])
              && (forall k | 0 <= k < |bs| :: ShowsBlock(d, BlockOffset(offset, bs, k), bs[k]))
    decreases |bs|
  {
    if bs != [] {
      var b, rest, next := bs[0], bs[1..], offset + 6 + bs[0].length;
      assert BlockOffset(offset, bs, 0) == offset;
      assert forall k | 1 <= k < |bs| :: BlockOffset(offset, bs, k) == BlockOffset(next, rest, k - 1);
      if offset + 6 <= |buf| {
        var placed := PlaceOne(buf, offset, b);
        PlacedOneShows(buf, offset, b);
        PlacedShow(placed, next, rest);
        if PlaceBlocks(placed, next, rest).None? {
          var j :| 0 <= j < |rest| && BlockOffset(next, rest, j) + 6 > |buf|;
          assert BlockOffset(offset, bs, j + 1) + 6 > |buf|;
        } else {
          var d := PlaceBlocks(placed, next, rest).value;
          StillShows(placed, d, offset, b);
          forall k | 0 <= k < |bs| ensures ShowsBlock(d, BlockOffset(offset, bs, k), bs[k]) {
            if k > 0 { assert bs[k] == rest[k - 1]; }
          }
        }
      }
    }
  }

  /** What `Serialize` prints for any frame, well-formed or not: the type, the count,
      and each block behind the one before it by that one's length field. It panics
      exactly when the six bytes of some block would not fit. */
  lemma WireLayout(f: Frame)
    ensures Serialized(f).None? <==>
            exists k | 0 <= k < |f.sessions| ::
              BlockOffset(2, f.sessions, k) + 6 > 2 + TotalLength(f.sessions)
    ensures Serialized(f).Some? ==>
              var d := Serialized(f).value;
              && |d| == 2 + TotalLength(f.sessions) && d[0] == f.kind && d[1] == f.sessionCount
              && forall k | 0 <= k < |f.sessions| :: ShowsBlock(d, BlockOffset(2, f.sessions, k), f.sessions[k])
  {
    var size := 2 + TotalLength(f.sessions);
    PlacedShow([f.kind, f.sessionCount] + seq(size - 2, _ => 0), 2, f.sessions);
  }

  // ------------------------------------------------------- printer and parser

  lemma PlaceOneMatching(buf: seq<byte>, offset: nat, b: SessionBlock)
    requires b.length == |b.data| && offset + 6 + b.length <= |buf|
    ensures PlaceOne(buf, offset, b)[..offset + 6 + b.length] == buf[..offset] + EncodeBlock(b)
  {
    assert b.data[..|b.data|] == b.data;
  }

  lemma PlaceText(buf: seq<byte>, offset: nat, bs: seq<SessionBlock>)
    requires bs != [] && bs[0].length == |bs[0].data| && offset + 6 + bs[0].length <= |buf|
    ensures PlaceOne(buf, offset, bs[0])[..offset + 6 + bs[0].length] + EncodeBlocks(bs[1..]) ==
            buf[..offset] + EncodeBlocks(bs)
  {
    PlaceOneMatching(buf, offset, bs[0]);
    Associate(buf[..offset], EncodeBlock(bs[0]), EncodeBlocks(bs[1..]));
  }

  lemma PlaceStep(buf: seq<byte>, offset: nat, bs: seq<SessionBlock>, text: seq<byte>)
    requires bs != [] && bs[0].length == |bs[0].data| && |buf| == offset + TotalLength(bs)
    requires text == buf[..offset] + EncodeBlocks(bs)
    ensures |buf| == offset + 6 + bs[0].length + TotalLength(bs[1..])
    ensures text == PlaceOne(buf, offset, bs[0])[..offset + 6 + bs[0].length] + EncodeBlocks(bs[1..])
  {
    PlaceText(buf, offset, bs);
  }

  /** With right length fields the printing loop writes the plain concatenation. */
  lemma {:induction false} PlaceMatching(buf: seq<byte>, offset: nat, bs: seq<SessionBlock>, text: seq<byte>)
    requires LengthsMatch(bs) && |buf| == offset + TotalLength(bs)
    requires text == buf[..offset] + EncodeBlocks(bs)
    ensures PlaceBlocks(buf, offset, bs) == Some(text)
    decreases |bs|
  {
    if bs != [] {
      assert bs[0] in bs;
      PlaceStep(buf, offset, bs, text);
      PlaceMatching(PlaceOne(buf, offset, bs[0]), offset + 6 + bs[0].length, bs[1..], text);
    } else {
      assert buf[..offset] + [] == buf;
    }
  }

  lemma SerializedIsEncoded(f: Frame)
    requires LengthsMatch(f.sessions)
    ensures Serialized(f) == Some(Encode(f))
  {
    var buf := [f.kind, f.sessionCount] + seq(TotalLength(f.sessions), _ => 0);
    assert buf[..2] == [f.kind, f.sessionCount];
    PlaceMatching(buf, 2, f.sessions, Encode(f));
  }

  /** Reading one block back, wherever it stands. */
  lemma DecodeEncodedBlock(d: seq<byte>, at: nat, b: SessionBlock)
    requires b.length == |b.data|
    requires at <= |d| && EncodeBlock(b) <= d[at..]
    ensures DecodeOne(d, at) == Some((b, at + |EncodeBlock(b)|))
  {
    var e := EncodeBlock(b);
    assert d[at..at + |e|] == e;
    assert d[at..at + 6] == e[..6] == Be32(b.sessionId) + Be16(b.length);
    ReadInvertsBe(d, at, b.sessionId, b.length);
    assert d[at + 6..at + 6 + b.length] == e[6..] == b.data;
  }

  lemma SplitBlocks(d: seq<byte>, at: nat, bs: seq<SessionBlock>)
    requires bs != [] && at <= |d| && EncodeBlocks(bs) <= d[at..]
    ensures EncodeBlock(bs[0]) <= d[at..]
    ensures EncodeBlocks(bs[1..]) <= d[at + |EncodeBlock(bs[0])|..]
  {
    var n := |EncodeBlock(bs[0])|;
    assert EncodeBlocks(bs)[n..] == EncodeBlocks(bs[1..]);
    assert d[at + n..] == d[at..][n..];
  }

  lemma DecodeBlocksStep(d: seq<byte>, at: nat, next: nat, bs: seq<SessionBlock>)
    requires bs != [] && DecodeOne(d, at) == Some((bs[0], next))
    requires DecodeBlocks(d, next, |bs| - 1) == Some(bs[1..])
    ensures DecodeBlocks(d, at, |bs|) == Some(bs)
  {
    assert [bs[0]] + bs[1..] == bs;
  }

  lemma {:induction false} DecodeEncodedBlocks(d: seq<byte>, at: nat, bs: seq<SessionBlock>)
    requires LengthsMatch(bs)
    requires at <= |d| && EncodeBlocks(bs) <= d[at..]
    ensures DecodeBlocks(d, at, |bs|) == Some(bs)
    decreases |bs|
  {
    if bs != [] {
      var next := at + |EncodeBlock(bs[0])|;
      assert bs[0] in bs;
      SplitBlocks(d, at, bs);
      DecodeEncodedBlock(d, at, bs[0]);
      DecodeEncodedBlocks(d, next, bs[1..]);
      DecodeBlocksStep(d, at, next, bs);
    }
  }

  /** The first blocks of a frame stand behind its two-byte head. */
  lemma FirstBlocksPrinted(f: Frame, n: nat, rest: seq<byte>)
    requires n <= |f.sessions|
    ensures EncodeBlocks(f.sessions[..n]) <= (Encode(f) + rest)[2..]
  {
    var got, extra := f.sessions[..n], f.sessions[n..];
    assert f.sessions == got + extra;
    EncodeBlocksAppend(got, extra);
    assert (Encode(f) + rest)[2..] == EncodeBlocks(f.sessions) + rest;
    Associate(EncodeBlocks(got), EncodeBlocks(extra), rest);
  }

  /** Bytes that carry more blocks than their count says: exactly the first
      `count` blocks are read back. */
  lemma DecodeReadsCount(f: Frame, rest: seq<byte>)
    requires LengthsMatch(f.sessions) && f.sessionCount <= |f.sessions|
    ensures Decode(Encode(f) + rest) == Some(f.(sessions := f.sessions[..f.sessionCount]))
  {
    FirstBlocksPrinted(f, f.sessionCount, rest);
    DecodeEncodedBlocks(Encode(f) + rest, 2, f.sessions[..f.sessionCount]);
  }

  lemma {:induction false} EncodeBlocksAppend(a: seq<SessionBlock>, b: seq<SessionBlock>)
    ensures EncodeBlocks(a + b) == EncodeBlocks(a) + EncodeBlocks(b)
  {
    if a == [] {
      assert a + b == b;
    } else {
      assert (a + b)[1..] == a[1..] + b;
      EncodeBlocksAppend(a[1..], b);
    }
  }

  /** The parser inverts the printer, with any bytes behind the frame. */
  lemma ParserInvertsPrinter(f: Frame, rest: seq<byte>)
    requires WellFormed(f)
    ensures Serialized(f) == Some(Encode(f)) && Decode(Encode(f) + rest) == Some(f)
  {
    SerializedIsEncoded(f);
    DecodeReadsCount(f, rest);
    assert f.sessions[..f.sessionCount] == f.sessions;
  }

  lemma DecodedBlockEncodes(d: seq<byte>, offset: nat)
    requires DecodeOne(d, offset).Some?
    ensures var (b, next) := DecodeOne(d, offset).value;
            offset <= next <= |d| && b.length == |b.data| && EncodeBlock(b) == d[offset..next]
  {
    var (b, next) := DecodeOne(d, offset).value;
    BeInvertsRead(d, offset);
    assert d[offset..offset + 6] + d[offset + 6..next] == d[offset..next];
  }

  lemma PrefixBehind(d: seq<byte>, at: nat, next: nat, e: seq<byte>)
    requires at <= next <= |d| && e <= d[next..]
    ensures d[at..next] + e <= d[at..]
  {
    assert d[at..] == d[at..next] + d[next..];
  }

  lemma {:induction false} DecodedBlocksEncode(d: seq<byte>, offset: nat, count: nat)
    requires offset <= |d| && DecodeBlocks(d, offset, count).Some?
    ensures var bs := DecodeBlocks(d, offset, count).value;
            |bs| == count && LengthsMatch(bs) && EncodeBlocks(bs) <= d[offset..]
    decreases count
  {
    if count > 0 {
      var (b, next) := DecodeOne(d, offset).value;
      DecodedBlocksEncode(d, next, count - 1);
      var rest := DecodeBlocks(d, next, count - 1).value;
      DecodedBlockEncodes(d, offset);
      PrefixBehind(d, offset, next, EncodeBlocks(rest));
      assert ([b] + rest)[1..] == rest;
    }
  }

  /** The printer inverts the parser: whatever is accepted begins with the frame
      that is returned, and that frame is well-formed. */
  lemma PrinterInvertsParser(d: seq<byte>)
    requires Decode(d).Some?
    ensures WellFormed(Decode(d).value) && Encode(Decode(d).value) <= d
  {
    DecodedBlocksEncode(d, 2, d[1]);
    assert d == d[..2] + d[2..];
  }

  /** Both together: a frame is returned exactly when it is well-formed and its
      printed form is a prefix of the input. */
  lemma DecodeCharacterized(d: seq<byte>, f: Frame)
    ensures Decode(d) == Some(f) <==> WellFormed(f) && Encode(f) <= d
  {
    if Decode(d) == Some(f) {
      PrinterInvertsParser(d);
    }
    if WellFormed(f) && Encode(f) <= d {
      ParserInvertsPrinter(f, d[|Encode(f)|..]);
      assert Encode(f) + d[|Encode(f)|..] == d;
    }
  }

  /** Well-formedness is exactly what the round trip needs. */
  lemma RoundTripIffWellFormed(f: Frame)
    ensures WellFormed(f) <==>
            Serialized(f).Some? && Decode(Serialized(f).value) == Some(f)
  {
    if WellFormed(f) {
      ParserInvertsPrinter(f, []);
      EmptyEnds(Encode(f));
    } else if Serialized(f).Some? && Decode(Serialized(f).value) == Some(f) {
      PrinterInvertsParser(Serialized(f).value);
    }
  }

  /** Printed frames are prefix-free, so a stream of them splits in one way. */
  lemma PrefixFree(f: Frame, g: Frame)
    requires WellFormed(f) && WellFormed(g) && Encode(f) <= Encode(g)
    ensures f == g
  {
    DecodeCharacterized(Encode(g), f);
    DecodeCharacterized(Encode(g), g);
  }

  /** A frame cut short anywhere is rejected. */
  lemma TruncationRejected(f: Frame, k: nat)
    requires WellFormed(f) && k < |Encode(f)|
    ensures Decode(Encode(f)[..k]) == None
  {
    var d := Encode(f)[..k];
    if Decode(d).Some? {
      var g := Decode(d).value;
      PrinterInvertsParser(d);
      assert Encode(g) <= Encode(f);
      PrefixFree(g, f);
    }
  }
}
