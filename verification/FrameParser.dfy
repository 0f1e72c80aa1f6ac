/** The browser's decoder of the same wire format
    (frontend/src/workers/parser.ts): its blocks are views into the received
    buffer, not copies. */
module FrameParser {
  import opened Bytes
  import opened Codec

  /** `new Uint8Array(buffer, offset, length)` with the id it belongs to. */
  datatype BlockView = BlockView(sessionId: uint32, length: uint16, offset: nat)

  datatype ParsedFrame = ParsedFrame(kind: byte, sessionCount: byte, sessions: seq<BlockView>)

  predicate Inside(v: BlockView, bytes: seq<byte>) {
    v.offset + v.length <= |bytes|
  }

  /** The bytes a view shows. */
  function Look(v: BlockView, bytes: seq<byte>): SessionBlock
    requires Inside(v, bytes)
  {
    SessionBlock(v.sessionId, v.length, bytes[v.offset..v.offset + v.length])
  }

  predicate AllInside(vs: seq<BlockView>, bytes: seq<byte>) {
    forall v | v in vs :: Inside(v, bytes)
  }

  function LookAll(vs: seq<BlockView>, bytes: seq<byte>): (bs: seq<SessionBlock>)
    requires AllInside(vs, bytes)
    ensures |bs| == |vs|
    ensures forall i | 0 <= i < |vs| :: vs[i] in vs && bs[i] == Look(vs[i], bytes)
  {
    seq(|vs|, i requires 0 <= i < |vs| => Look(vs[i], bytes))
  }

  /** What the rest of the worker sees of a parsed frame. */
  function Seen(p: ParsedFrame, bytes: seq<byte>): Frame
    requires AllInside(p.sessions, bytes)
  {
    Frame(p.kind, p.sessionCount, LookAll(p.sessions, bytes))
  }

  lemma RejectedMeansNoFrame(bytes: seq<byte>)
    requires Decode(bytes) == None
    ensures forall f: Frame :: WellFormed(f) ==> !(Encode(f) <= bytes)
  {
    forall f: Frame | WellFormed(f) ensures !(Encode(f) <= bytes) {
      DecodeCharacterized(bytes, f);
    }
  }

  /** One turn of the loop: a view of the block at `offset`. */
  method ReadView(bytes: seq<byte>, offset: nat) returns (r: Option<BlockView>, ghost block: SessionBlock)
    ensures r.None? <==> DecodeOne(bytes, offset) == None
    ensures r.Some? ==>
              && Inside(r.value, bytes) && Look(r.value, bytes) == block
              && DecodeOne(bytes, offset) == Some((block, r.value.offset + r.value.length))
  {
    block := SessionBlock(0, 0, []);
    if offset + 6 > |bytes| {
      return None, block;
    }
    var sessionId := Read32(bytes[offset..offset + 4], 0);
    var length := Read16(bytes[offset + 4..offset + 6], 0);
    var start := offset + 6;
    if start + length > |bytes| {
      return None, block;
    }
    r := Some(BlockView(sessionId, length, start));
    block := Look(r.value, bytes);
  }

  /** The views are of the blocks `seen`. */
  ghost predicate Shown(vs: seq<BlockView>, seen: seq<SessionBlock>, bytes: seq<byte>) {
    AllInside(vs, bytes) && LookAll(vs, bytes) == seen
  }

  lemma ShownMore(vs: seq<BlockView>, seen: seq<SessionBlock>,
                  v: BlockView, b: SessionBlock, bytes: seq<byte>)
    requires Shown(vs, seen, bytes) && Inside(v, bytes) && Look(v, bytes) == b
    ensures Shown(vs + [v], seen + [b], bytes)
  {
    assert LookAll(vs + [v], bytes) == LookAll(vs, bytes) + [b];
  }

  /** The loop, from `start` on. */
  method ReadViews(bytes: seq<byte>, start: nat, count: nat)
    returns (r: Option<seq<BlockView>>, ghost seen: seq<SessionBlock>)
    ensures r.None? ==> DecodeBlocks(bytes, start, count) == None
    ensures r.Some? ==> Shown(r.value, seen, bytes) && DecodeBlocks(bytes, start, count) == Some(seen)
  {
    var offset: nat := start;
    var sessions: seq<BlockView> := [];
    seen := [];
    ghost var left := count;
    AfterNothing(DecodeBlocks(bytes, start, count));
    for i := 0 to count
      invariant Shown(sessions, seen, bytes)
      invariant left == count - i && Remain(bytes, start, count, seen, offset, left)
    {
      var view, block := ReadView(bytes, offset);
      if view.None? {
        return None, seen;
      }
      var v := view.value;
      RemainNext(bytes, start, count, seen, offset, left, block, v.offset + v.length);
      ShownMore(sessions, seen, v, block, bytes);
      sessions, seen, left := sessions + [v], seen + [block], left - 1;
      offset := v.offset + v.length;
    }
    EmptyEnds(seen);
    r := Some(sessions);
  }

  /** `left` of the `count` blocks from `start` on remain to be read, from `offset` on. */
  ghost predicate Remain(bytes: seq<byte>, start: nat, count: nat, seen: seq<SessionBlock>, offset: nat, left: nat) {
    After(seen, DecodeBlocks(bytes, offset, left)) == DecodeBlocks(bytes, start, count)
  }

  lemma RemainNext(bytes: seq<byte>, start: nat, count: nat, seen: seq<SessionBlock>, offset: nat, left: nat,
                   b: SessionBlock, next: nat)
    requires Remain(bytes, start, count, seen, offset, left) && left > 0
    requires DecodeOne(bytes, offset) == Some((b, next))
    ensures Remain(bytes, start, count, seen + [b], next, left - 1)
  {
    DecodeNext(bytes, seen, offset, b, next, left);
  }

  /** `parseFrame`: it accepts exactly the inputs that begin with a well-formed
      printed frame, and the views show exactly that frame. */
  method ParseFrame(buffer: array<byte>) returns (r: Option<ParsedFrame>)
    ensures r.None? ==> forall f: Frame :: WellFormed(f) ==> !(Encode(f) <= buffer[..])
    ensures r.Some? ==>
              && AllInside(r.value.sessions, buffer[..])
              && WellFormed(Seen(r.value, buffer[..]))
              && Encode(Seen(r.value, buffer[..])) <= buffer[..]
  {
    var bytes := buffer[..];
    if buffer.Length < 2 {
      RejectedMeansNoFrame(bytes);
      return None;
    }
    var kind, sessionCount := buffer[0], buffer[1];
    var views, seen := ReadViews(bytes, 2, sessionCount);
    if views.None? {
      RejectedMeansNoFrame(bytes);
      return None;
    }
    var p := ParsedFrame(kind, sessionCount, views.value);
    DecodeCharacterized(bytes, Seen(p, bytes));
    r := Some(p);
  }

  /** The two decoders agree on every byte string: any answer that meets the
      promise of `ParseFrame` is the answer of `Deserialize`. */
  lemma DecodersAgree(bytes: seq<byte>, r: Option<Frame>)
    requires r.None? ==> forall f: Frame :: WellFormed(f) ==> !(Encode(f) <= bytes)
    requires r.Some? ==> WellFormed(r.value) && Encode(r.value) <= bytes
    ensures r == Decode(bytes)
  {
    match r
    case Some(f) =>
      DecodeCharacterized(bytes, f);
    case None =>
      if Decode(bytes).Some? {
        DecodeCharacterized(bytes, Decode(bytes).value);
      }
  }

  /** The gateway's decoder and the browser's, run on the same buffer. */
  method DecodeBothWays(buffer: array<byte>) returns (go: Option<Frame>, browser: Option<ParsedFrame>)
    ensures go.Some? <==> browser.Some?
    ensures browser.Some? ==>
              AllInside(browser.value.sessions, buffer[..]) && Seen(browser.value, buffer[..]) == go.value
  {
    go := Deserialize(buffer[..]);
    browser := ParseFrame(buffer);
    ghost var seen := if browser.None? then None else Some(Seen(browser.value, buffer[..]));
    DecodersAgree(buffer[..], seen);
  }
}
